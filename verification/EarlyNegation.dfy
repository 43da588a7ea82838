/**
 A `not` body may use a requested variable before the branch binds it. The seeded frontier then keeps
 every evaluated match, and what it keeps besides fails a `not` once the request's values are dropped.
 */
module EarlyNegation {
  import opened Wrappers
  import opened WhereEval
  import opened Seeding
  import opened SeededBranches
  import opened SeedingLimits

  // The variables that a body inside `not` first binds as the output of an arithmetic atom.
  function BodyOutputs(body: seq<Simple>, bound: set<string>): set<string> {
    if body == [] then {}
    else
      (if body[0].Arith? && body[0].output !in bound then {body[0].output} else {})
      + BodyOutputs(body[1..], bound + SimpleVars(body[0]))
  }

  predicate BodyIntegersRequested(body: seq<Simple>, bound: set<string>, seed: Env) {
    forall z :: z in BodyOutputs(body, bound) && z in seed ==> seed[z].Num?
  }

  // Integers are requested for what arithmetic inside `not` bodies first binds.
  predicate NegationIntegersRequested(branch: seq<Atom>, bound: set<string>, seed: Env) {
    branch != [] ==>
      && (branch[0].Not? ==> forall b :: b in branch[0].bodies ==> BodyIntegersRequested(b, bound, seed))
      && NegationIntegersRequested(branch[1..], bound + AtomVars(branch[0]), seed)
  }

  predicate BodySeedSafe(body: seq<Simple>, bound: set<string>, seed: Env) {
    body != [] ==> SeedSafe(body[0], bound, seed) && BodySeedSafe(body[1..], bound + SimpleVars(body[0]), seed)
  }

  // Safe to seed atom by atom; a `not` body on its own terms, even if it knows the request too early.
  predicate SoundlySeeded(branch: seq<Atom>, bound: set<string>, seed: Env) {
    branch != [] ==>
      && (match branch[0]
          case Positive(s) => SeedSafe(s, bound, seed)
          case Not(bodies) => forall b :: b in bodies ==> BodySeedSafe(b, bound, seed))
      && SoundlySeeded(branch[1..], bound + AtomVars(branch[0]), seed)
  }

  lemma {:induction false} SafeBodyIsSeedSafe(body: seq<Simple>, bound: set<string>, seed: Env)
    requires SafeBody(body, bound) && BodyIntegersRequested(body, bound, seed)
    ensures BodySeedSafe(body, bound, seed)
  {
    if body != [] {
      SafeAtomIsSeedSafe(body[0], bound, seed);
      assert BodyOutputs(body[1..], bound + SimpleVars(body[0])) <= BodyOutputs(body, bound);
      SafeBodyIsSeedSafe(body[1..], bound + SimpleVars(body[0]), seed);
    }
  }

  lemma {:induction false} SafeIsSoundlySeeded(branch: seq<Atom>, bound: set<string>, seed: Env)
    requires SafeBranch(branch, bound) && IntegersRequested(branch, bound, seed)
    requires NegationIntegersRequested(branch, bound, seed)
    ensures SoundlySeeded(branch, bound, seed)
  {
    if branch != [] {
      assert ArithmeticOutputs(branch[1..], bound + AtomVars(branch[0])) <= ArithmeticOutputs(branch, bound);
      match branch[0]
      case Positive(s) =>
        SafeAtomIsSeedSafe(s, bound, seed);
        SafeIsSoundlySeeded(branch[1..], bound + AtomVars(branch[0]), seed);
      case Not(bodies) =>
        forall b | b in bodies
          ensures BodySeedSafe(b, bound, seed)
        {
          SafeBodyIsSeedSafe(b, bound, seed);
        }
        assert bound + AtomVars(branch[0]) == bound;
        SafeIsSoundlySeeded(branch[1..], bound, seed);
    }
  }

  // ---------- a body that fails without the request fails with it ----------

  lemma {:induction false} ExtendAllKeys(view: View, envs: seq<Env>, a: Simple, bound: set<string>)
    requires ExtendAll(view, envs, a).Success? && forall e :: e in envs ==> e.Keys == bound
    ensures forall e :: e in ExtendAll(view, envs, a).value ==> e.Keys == bound + SimpleVars(a)
  {
    if envs != [] {
      assert envs[0] in envs;
      ExtendGrows(view, envs[0], a);
      ExtendAllKeys(view, envs[1..], a, bound);
    }
  }

  lemma {:induction false} BodySeeded(view: View, envs: seq<Env>, body: seq<Simple>, bound: set<string>, seed: Env)
    requires EvalSimple(view, envs, body).Success? && BodySeedSafe(body, bound, seed)
    requires forall e :: e in envs ==> e.Keys == bound
    ensures EvalSimple(view, MergeAll(envs, seed), body) == Success(MergeAll(EvalSimple(view, envs, body).value, seed))
    decreases |body|
  {
    if envs == [] || body == [] {
    } else {
      ExtendAllSeeded(view, envs, body[0], seed);
      ExtendAllKeys(view, envs, body[0], bound);
      BodySeeded(view, ExtendAll(view, envs, body[0]).value, body[1..], bound + SimpleVars(body[0]), seed);
    }
  }

  lemma {:induction false} NoBodySeeded(view: View, env: Env, bodies: seq<seq<Simple>>, seed: Env)
    requires Compatible(env, seed) && forall b :: b in bodies ==> BodySeedSafe(b, env.Keys, seed)
    requires SomeBodyHolds(view, env, bodies) == Success(false)
    ensures SomeBodyHolds(view, env + seed, bodies) == Success(false)
  {
    if bodies != [] {
      assert bodies[0] in bodies;
      SingleMerge(env, seed);
      BodySeeded(view, [env], bodies[0], env.Keys, seed);
      NoBodySeeded(view, env, bodies[1..], seed);
    }
  }

  // ---------- lists of environments ----------

  lemma {:induction false} FrontierConcat(view: View, a: seq<Env>, b: seq<Env>, atom: Atom)
    ensures ExtendFrontier(view, a + b, atom).Success?
      <==> ExtendFrontier(view, a, atom).Success? && ExtendFrontier(view, b, atom).Success?
    ensures ExtendFrontier(view, a + b, atom).Success? ==>
      ExtendFrontier(view, a + b, atom).value == ExtendFrontier(view, a, atom).value + ExtendFrontier(view, b, atom).value
  {
    if a == [] {
      assert a + b == b;
    } else {
      assert (a + b)[0] == a[0] && (a + b)[1..] == a[1..] + b;
      FrontierConcat(view, a[1..], b, atom);
    }
  }

  /** A frontier can be run in two parts. */
  lemma {:induction false} BranchConcat(view: View, a: seq<Env>, b: seq<Env>, branch: seq<Atom>)
    requires EvalBranch(view, a + b, branch).Success?
    ensures EvalBranch(view, a, branch).Success? && EvalBranch(view, b, branch).Success?
    ensures EvalBranch(view, a + b, branch).value == EvalBranch(view, a, branch).value + EvalBranch(view, b, branch).value
    decreases |branch|
  {
    if a == [] {
      assert a + b == b;
    } else if b == [] {
      assert a + b == a;
    } else if branch != [] {
      FrontierConcat(view, a, b, branch[0]);
      BranchConcat(view, ExtendFrontier(view, a, branch[0]).value, ExtendFrontier(view, b, branch[0]).value, branch[1..]);
    }
  }

  lemma {:induction false} FrontierExtends(view: View, envs: seq<Env>, a: Atom, base: Env)
    requires ExtendFrontier(view, envs, a).Success? && forall e :: e in envs ==> Extends(base, e)
    ensures forall e :: e in ExtendFrontier(view, envs, a).value ==> Extends(base, e)
  {
    if envs != [] {
      assert envs[0] in envs;
      ExtendAtomGrows(view, envs[0], a);
      FrontierExtends(view, envs[1..], a, base);
    }
  }

  lemma {:induction false} BranchExtends(view: View, envs: seq<Env>, branch: seq<Atom>, base: Env)
    requires EvalBranch(view, envs, branch).Success? && forall e :: e in envs ==> Extends(base, e)
    ensures forall e :: e in EvalBranch(view, envs, branch).value ==> Extends(base, e)
    decreases |branch|
  {
    if envs != [] && branch != [] {
      FrontierExtends(view, envs, branch[0], base);
      BranchExtends(view, ExtendFrontier(view, envs, branch[0]).value, branch[1..], base);
    }
  }

  // ---------- the survivors that pass without the request ----------

  predicate Passes(view: View, a: Atom, env: Env) {
    ExtendAtom(view, env, a) == Success([env])
  }

  // The environment passes every `not` with only the variables that the branch has bound by then.
  predicate Passing(view: View, branch: seq<Atom>, bound: set<string>, env: Env) {
    branch != [] ==>
      && (branch[0].Not? ==> Passes(view, branch[0], Restrict(env, bound)))
      && Passing(view, branch[1..], bound + AtomVars(branch[0]), env)
  }

  function Select(view: View, branch: seq<Atom>, bound: set<string>, envs: seq<Env>): seq<Env> {
    if envs == [] then []
    else (if Passing(view, branch, bound, envs[0]) then [envs[0]] else []) + Select(view, branch, bound, envs[1..])
  }

  lemma {:induction false} SelectConcat(view: View, branch: seq<Atom>, bound: set<string>, a: seq<Env>, b: seq<Env>)
    ensures Select(view, branch, bound, a + b) == Select(view, branch, bound, a) + Select(view, branch, bound, b)
  {
    if a == [] {
      assert a + b == b;
    } else {
      assert (a + b)[0] == a[0] && (a + b)[1..] == a[1..] + b;
      SelectConcat(view, branch, bound, a[1..], b);
    }
  }

  lemma {:induction false} SelectAll(view: View, bound: set<string>, envs: seq<Env>)
    ensures Select(view, [], bound, envs) == envs
  {
    if envs != [] {
      SelectAll(view, bound, envs[1..]);
    }
  }

  lemma {:induction false} SelectElements(view: View, branch: seq<Atom>, bound: set<string>, envs: seq<Env>)
    ensures forall e :: e in Select(view, branch, bound, envs) <==> e in envs && Passing(view, branch, bound, e)
    ensures Select(view, branch, bound, envs) == envs <==> forall e :: e in envs ==> Passing(view, branch, bound, e)
    ensures |Select(view, branch, bound, envs)| <= |envs|
  {
    if envs != [] {
      SelectElements(view, branch, bound, envs[1..]);
      assert forall e :: e in envs <==> e == envs[0] || e in envs[1..];
      var rest := Select(view, branch, bound, envs[1..]);
      if Passing(view, branch, bound, envs[0]) {
        assert Select(view, branch, bound, envs)[1..] == rest;
      } else {
        assert Select(view, branch, bound, envs) == rest;
        assert |rest| < |envs|;
      }
    }
  }

  // One atom further: the first atom is no `not`, or all of the environments pass it.
  lemma {:induction false} SelectLater(view: View, branch: seq<Atom>, bound: set<string>, envs: seq<Env>)
    requires branch != []
    requires branch[0].Not? ==> forall e :: e in envs ==> Passes(view, branch[0], Restrict(e, bound))
    ensures Select(view, branch, bound, envs) == Select(view, branch[1..], bound + AtomVars(branch[0]), envs)
  {
    if envs != [] {
      assert envs[0] in envs;
      SelectLater(view, branch, bound, envs[1..]);
    }
  }

  lemma {:induction false} SelectNone(view: View, branch: seq<Atom>, bound: set<string>, envs: seq<Env>)
    requires branch != [] && branch[0].Not?
    requires forall e :: e in envs ==> !Passes(view, branch[0], Restrict(e, bound))
    ensures Select(view, branch, bound, envs) == []
  {
    if envs != [] {
      assert envs[0] in envs;
      SelectNone(view, branch, bound, envs[1..]);
    }
  }

  // ---------- the evaluated matches among the survivors ----------

  lemma OneFrontier(view: View, env: Env, a: Atom)
    ensures ExtendFrontier(view, [env], a) == ExtendAtom(view, env, a)
  {
    assert [env][1..] == [];
    assert ExtendFrontier(view, [env][1..], a) == Success([]);
    var r := ExtendAtom(view, env, a);
    assert r.Success? ==> r.value + [] == r.value;
  }

  lemma RestrictSeeded(u: Env, seed: Env, e: Env)
    requires Compatible(u, seed) && Extends(u + seed, e)
    ensures Restrict(e, u.Keys) == u
  {
    forall x | x in u
      ensures x in e && e[x] == u[x]
    {
      assert (u + seed)[x] == u[x];
    }
  }

  lemma IncompatibleYieldsNothing(view: View, u: Env, branch: seq<Atom>, seed: Env)
    requires EvalBranch(view, [u], branch).Success? && !Compatible(u, seed)
    ensures MergeAll(EvalBranch(view, [u], branch).value, seed) == []
  {
    assert Extends(u, u);
    BranchExtends(view, [u], branch, u);
    IncompatibleStays(u, EvalBranch(view, [u], branch).value, seed);
  }

  // A single environment at a `not`.
  lemma NotDecides(view: View, u: Env, branch: seq<Atom>, bound: set<string>, seed: Env)
    requires branch != [] && branch[0].Not? && u.Keys == bound && Compatible(u, seed) && SoundlySeeded(branch, bound, seed)
    requires EvalBranch(view, [u], branch).Success? && EvalBranch(view, [u + seed], branch).Success?
    ensures var survivors := EvalBranch(view, [u + seed], branch).value;
      if Passes(view, branch[0], u) then
        && EvalBranch(view, [u], branch) == EvalBranch(view, [u], branch[1..])
        && EvalBranch(view, [u + seed], branch) == EvalBranch(view, [u + seed], branch[1..])
        && Select(view, branch, bound, survivors) == Select(view, branch[1..], bound, survivors)
      else EvalBranch(view, [u], branch).value == [] && Select(view, branch, bound, survivors) == []
  {
    var survivors := EvalBranch(view, [u + seed], branch).value;
    OneFrontier(view, u, branch[0]);
    OneFrontier(view, u + seed, branch[0]);
    assert Extends(u + seed, u + seed);
    BranchExtends(view, [u + seed], branch, u + seed);
    forall e | e in survivors
      ensures Restrict(e, bound) == u
    {
      RestrictSeeded(u, seed, e);
    }
    if Passes(view, branch[0], u) {
      NoBodySeeded(view, u, branch[0].bodies, seed);
      assert bound + AtomVars(branch[0]) == bound;
      SelectLater(view, branch, bound, survivors);
    } else {
      SelectNone(view, branch, bound, survivors);
    }
  }

  /** Merged with the request, what the unseeded run yields is what the seeded run yields and passes. */
  lemma {:induction false} MatchesAmongSurvivors(view: View, us: seq<Env>, branch: seq<Atom>, bound: set<string>, seed: Env)
    requires SoundlySeeded(branch, bound, seed) && forall u :: u in us ==> u.Keys == bound
    requires EvalBranch(view, us, branch).Success? && EvalBranch(view, MergeAll(us, seed), branch).Success?
    ensures MergeAll(EvalBranch(view, us, branch).value, seed)
         == Select(view, branch, bound, EvalBranch(view, MergeAll(us, seed), branch).value)
    decreases |branch|, |us|
  {
    if us == [] {
    } else if branch == [] {
      SelectAll(view, bound, MergeAll(us, seed));
    } else if |us| > 1 {
      var one, rest := [us[0]], us[1..];
      assert us == one + rest && us[0] in us;
      BranchConcat(view, one, rest, branch);
      MergeAllConcat(one, rest, seed);
      BranchConcat(view, MergeAll(one, seed), MergeAll(rest, seed), branch);
      MatchesAmongSurvivors(view, one, branch, bound, seed);
      MatchesAmongSurvivors(view, rest, branch, bound, seed);
      MergeAllConcat(EvalBranch(view, one, branch).value, EvalBranch(view, rest, branch).value, seed);
      SelectConcat(view, branch, bound, EvalBranch(view, MergeAll(one, seed), branch).value,
                   EvalBranch(view, MergeAll(rest, seed), branch).value);
    } else {
      var u := us[0];
      assert us == [u] && u in us;
      SingleMerge(u, seed);
      if !Compatible(u, seed) {
        IncompatibleYieldsNothing(view, u, branch, seed);
      } else if branch[0].Positive? {
        var next := ExtendAtom(view, u, branch[0]).value;
        OneFrontier(view, u, branch[0]);
        OneFrontier(view, u + seed, branch[0]);
        ExtendAtomSeeded(view, u, seed, branch[0]);
        ExtendAtomGrows(view, u, branch[0]);
        MatchesAmongSurvivors(view, next, branch[1..], bound + AtomVars(branch[0]), seed);
        SelectLater(view, branch, bound, EvalBranch(view, [u + seed], branch).value);
      } else {
        NotDecides(view, u, branch, bound, seed);
        if Passes(view, branch[0], u) {
          assert bound + AtomVars(branch[0]) == bound;
          MatchesAmongSurvivors(view, us, branch[1..], bound, seed);
        }
      }
    }
  }

  /**
   With or without early negation: the evaluated matches are exactly the surviving seeded environments
   that pass every `not` with the request's not yet bound variables dropped. So every match survives,
   and seeding is filtering exactly if all survivors pass.
   */
  lemma NegationExactness(view: View, branch: seq<Atom>, seed: Env)
    requires SafeBranch(branch, {}) && IntegersRequested(branch, {}, seed) && NegationIntegersRequested(branch, {}, seed)
    requires EvalBranch(view, [map[]], branch).Success? && EvalBranch(view, [seed], branch).Success?
    requires seed.Keys <= BranchVars(branch)
    ensures var matches := MatchesOf(EvalBranch(view, [map[]], branch).value, seed);
            var survivors := EvalBranch(view, [seed], branch).value;
      && matches == Select(view, branch, {}, survivors)
      && (forall e :: e in matches ==> e in survivors)
      && (survivors == matches <==> forall e :: e in survivors ==> Passing(view, branch, {}, e))
  {
    var all := EvalBranch(view, [map[]], branch).value;
    SafeIsSoundlySeeded(branch, {}, seed);
    SingleMerge(map[], seed);
    assert map[] + seed == seed;
    MatchesAmongSurvivors(view, [map[]], branch, {}, seed);
    BranchGrows(view, [map[]], branch, {});
    MergeIsFilter(all, seed);
    SelectElements(view, branch, {}, EvalBranch(view, [seed], branch).value);
  }
}
