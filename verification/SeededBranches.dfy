/** Seeding equals filtering, for whole branches with and without negation. */
module SeededBranches {
  import opened Wrappers
  import opened WhereEval
  import opened Seeding

  predicate AtomSeedSafe(a: Atom, bound: set<string>, seed: Env) {
    match a
    case Positive(s) => SeedSafe(s, bound, seed)
    case Not(bodies) => NotVars(bodies) * seed.Keys <= bound
  }

  function AtomVars(a: Atom): set<string> {
    if a.Positive? then SimpleVars(a.atom) else {}
  }

  predicate BranchSeedSafe(branch: seq<Atom>, bound: set<string>, seed: Env) {
    branch != [] ==> AtomSeedSafe(branch[0], bound, seed) && BranchSeedSafe(branch[1..], bound + AtomVars(branch[0]), seed)
  }

  /** Subset match: every requested item appears in the binding. */
  predicate Matches(binding: Env, requested: Env) {
    Extends(requested, binding)
  }

  function MatchesOf(bindings: seq<Env>, requested: Env): seq<Env> {
    if bindings == [] then []
    else (if Matches(bindings[0], requested) then [bindings[0]] else []) + MatchesOf(bindings[1..], requested)
  }

  // ---------- lists of environments ----------

  lemma IncompatibleStays(env: Env, envs: seq<Env>, seed: Env)
    requires !Compatible(env, seed)
    requires forall e :: e in envs ==> Extends(env, e)
    ensures MergeAll(envs, seed) == []
  {
    if envs != [] {
      assert envs[0] in envs;
      var k :| k in env && k in seed && env[k] != seed[k];
      assert envs[0][k] == env[k];
      IncompatibleStays(env, envs[1..], seed);
    }
  }

  lemma {:induction false} ExtendAllSeeded(view: View, envs: seq<Env>, a: Simple, seed: Env)
    requires ExtendAll(view, envs, a).Success?
    requires forall e :: e in envs ==> SeedSafe(a, e.Keys, seed)
    ensures ExtendAll(view, MergeAll(envs, seed), a) == Success(MergeAll(ExtendAll(view, envs, a).value, seed))
  {
    if envs != [] {
      var env, rest := envs[0], envs[1..];
      var first, others := Extend(view, env, a).value, ExtendAll(view, rest, a).value;
      ExtendAllSeeded(view, rest, a, seed);
      MergeAllConcat(first, others, seed);
      if Compatible(env, seed) {
        ExtendSeeded(view, env, seed, a);
        assert MergeAll(envs, seed)[1..] == MergeAll(rest, seed);
      } else {
        ExtendGrows(view, env, a);
        IncompatibleStays(env, first, seed);
        assert MergeAll(first, seed) + MergeAll(others, seed) == MergeAll(others, seed);
        assert MergeAll(envs, seed) == MergeAll(rest, seed);
      }
    }
  }

  lemma {:induction false} ExtendAllGrows(view: View, envs: seq<Env>, a: Simple, base: Env, vars: set<string>)
    requires ExtendAll(view, envs, a).Success?
    requires forall e :: e in envs ==> Extends(base, e) && e.Keys <= vars
    ensures forall e :: e in ExtendAll(view, envs, a).value ==> Extends(base, e) && e.Keys <= vars + SimpleVars(a)
  {
    if envs != [] {
      ExtendGrows(view, envs[0], a);
      ExtendAllGrows(view, envs[1..], a, base, vars);
    }
  }

  // ---------- bodies of simple atoms ----------

  lemma BodyVarsCons(body: seq<Simple>)
    requires body != []
    ensures BodyVars(body) == SimpleVars(body[0]) + BodyVars(body[1..])
  {
    assert forall a :: a in body <==> a == body[0] || a in body[1..];
  }

  lemma ScopedIsSafe(a: Simple, bound: set<string>, seed: Env)
    requires SimpleVars(a) * seed.Keys <= bound
    ensures SeedSafe(a, bound, seed)
  {
    match a
    case Eq(l, r) =>
      if SimpleVars(a) * seed.Keys != {} && l.Var? && r.Var? {
        assert l.name in seed.Keys ==> l.name in SimpleVars(a) * seed.Keys;
        assert r.name in seed.Keys ==> r.name in SimpleVars(a) * seed.Keys;
      }
    case Arith(z, e) =>
      assert z in seed.Keys ==> z in SimpleVars(a) * seed.Keys;
    case _ =>
  }

  lemma {:induction false} EvalSimpleSeeded(view: View, envs: seq<Env>, body: seq<Simple>, base: Env, vars: set<string>, seed: Env)
    requires EvalSimple(view, envs, body).Success?
    requires forall e :: e in envs ==> Extends(base, e) && e.Keys <= vars
    requires BodyVars(body) * seed.Keys <= base.Keys
    ensures EvalSimple(view, MergeAll(envs, seed), body) == Success(MergeAll(EvalSimple(view, envs, body).value, seed))
    ensures forall e :: e in EvalSimple(view, envs, body).value ==> Extends(base, e) && e.Keys <= vars + BodyVars(body)
    decreases |body|
  {
    if envs == [] || body == [] {
    } else {
      BodyVarsCons(body);
      var next := ExtendAll(view, envs, body[0]).value;
      forall e | e in envs
        ensures SeedSafe(body[0], e.Keys, seed)
      {
        ScopedIsSafe(body[0], e.Keys, seed);
      }
      ExtendAllSeeded(view, envs, body[0], seed);
      ExtendAllGrows(view, envs, body[0], base, vars);
      EvalSimpleSeeded(view, next, body[1..], base, vars + SimpleVars(body[0]), seed);
    }
  }

  lemma AllCompatible(envs: seq<Env>, base: Env, vars: set<string>, seed: Env)
    requires Compatible(base, seed) && vars * seed.Keys <= base.Keys
    requires forall e :: e in envs ==> Extends(base, e) && e.Keys <= base.Keys + vars
    ensures |MergeAll(envs, seed)| == |envs|
  {
    if envs != [] {
      forall k | k in envs[0] && k in seed
        ensures envs[0][k] == seed[k]
      {
        assert k in base.Keys + vars;
        assert k in vars ==> k in vars * seed.Keys;
      }
      AllCompatible(envs[1..], base, vars, seed);
    }
  }

  // ---------- negation ----------

  lemma NotVarsCons(bodies: seq<seq<Simple>>)
    requires bodies != []
    ensures NotVars(bodies) == BodyVars(bodies[0]) + NotVars(bodies[1..])
  {
    assert forall b :: b in bodies <==> b == bodies[0] || b in bodies[1..];
  }

  lemma {:induction false} SomeBodyHoldsSeeded(view: View, env: Env, bodies: seq<seq<Simple>>, seed: Env)
    requires Compatible(env, seed) && NotVars(bodies) * seed.Keys <= env.Keys
    requires SomeBodyHolds(view, env, bodies).Success?
    ensures SomeBodyHolds(view, env + seed, bodies) == SomeBodyHolds(view, env, bodies)
  {
    if bodies != [] {
      NotVarsCons(bodies);
      var found := EvalSimple(view, [env], bodies[0]).value;
      EvalSimpleSeeded(view, [env], bodies[0], env, env.Keys, seed);
      SingleMerge(env, seed);
      AllCompatible(found, env, BodyVars(bodies[0]), seed);
      if found == [] {
        SomeBodyHoldsSeeded(view, env, bodies[1..], seed);
      }
    }
  }

  lemma ExtendAtomSeeded(view: View, env: Env, seed: Env, a: Atom)
    requires Compatible(env, seed) && AtomSeedSafe(a, env.Keys, seed)
    requires ExtendAtom(view, env, a).Success?
    ensures ExtendAtom(view, env + seed, a) == Success(MergeAll(ExtendAtom(view, env, a).value, seed))
  {
    match a
    case Positive(s) => ExtendSeeded(view, env, seed, s);
    case Not(bodies) =>
      SomeBodyHoldsSeeded(view, env, bodies, seed);
      SingleMerge(env, seed);
      assert forall x :: x in NotVars(bodies) && x in seed.Keys ==> x in NotVars(bodies) * seed.Keys;
      assert Correlated(env + seed, bodies) <==> Correlated(env, bodies);
  }

  lemma ExtendAtomGrows(view: View, env: Env, a: Atom)
    requires ExtendAtom(view, env, a).Success?
    ensures forall e :: e in ExtendAtom(view, env, a).value ==> Extends(env, e) && e.Keys == env.Keys + AtomVars(a)
  {
    if a.Positive? {
      ExtendGrows(view, env, a.atom);
    }
  }

  // ---------- branches ----------

  lemma FrontierCons(view: View, env: Env, rest: seq<Env>, a: Atom)
    requires ExtendAtom(view, env, a).Success? && ExtendFrontier(view, rest, a).Success?
    ensures ExtendFrontier(view, [env] + rest, a)
         == Success(ExtendAtom(view, env, a).value + ExtendFrontier(view, rest, a).value)
  {
    assert ([env] + rest)[1..] == rest;
  }

  lemma {:induction false} FrontierSeeded(view: View, envs: seq<Env>, a: Atom, bound: set<string>, seed: Env)
    requires ExtendFrontier(view, envs, a).Success? && AtomSeedSafe(a, bound, seed)
    requires forall e :: e in envs ==> e.Keys == bound
    ensures ExtendFrontier(view, MergeAll(envs, seed), a) == Success(MergeAll(ExtendFrontier(view, envs, a).value, seed))
    ensures forall e :: e in ExtendFrontier(view, envs, a).value ==> e.Keys == bound + AtomVars(a)
  {
    if envs != [] {
      var env, rest := envs[0], envs[1..];
      var first, others := ExtendAtom(view, env, a).value, ExtendFrontier(view, rest, a).value;
      FrontierSeeded(view, rest, a, bound, seed);
      MergeAllConcat(first, others, seed);
      ExtendAtomGrows(view, env, a);
      assert env in envs;
      if Compatible(env, seed) {
        ExtendAtomSeeded(view, env, seed, a);
        FrontierCons(view, env + seed, MergeAll(rest, seed), a);
        assert MergeAll(envs, seed) == [env + seed] + MergeAll(rest, seed);
      } else {
        IncompatibleStays(env, first, seed);
        assert MergeAll(first, seed) + MergeAll(others, seed) == MergeAll(others, seed);
        assert MergeAll(envs, seed) == MergeAll(rest, seed);
      }
    }
  }

  lemma BranchVarsCons(branch: seq<Atom>)
    requires branch != []
    ensures BranchVars(branch) == AtomVars(branch[0]) + BranchVars(branch[1..])
  {
    assert forall a :: a in branch <==> a == branch[0] || a in branch[1..];
  }

  lemma {:induction false} BranchSeeded(view: View, envs: seq<Env>, branch: seq<Atom>, bound: set<string>, seed: Env)
    requires EvalBranch(view, envs, branch).Success? && BranchSeedSafe(branch, bound, seed)
    requires forall e :: e in envs ==> e.Keys == bound
    ensures EvalBranch(view, MergeAll(envs, seed), branch) == Success(MergeAll(EvalBranch(view, envs, branch).value, seed))
    ensures forall e :: e in EvalBranch(view, envs, branch).value ==> e.Keys == bound + BranchVars(branch)
    decreases |branch|
  {
    if envs == [] || branch == [] {
    } else {
      FrontierSeeded(view, envs, branch[0], bound, seed);
      BranchVarsCons(branch);
      BranchSeeded(view, ExtendFrontier(view, envs, branch[0]).value, branch[1..], bound + AtomVars(branch[0]), seed);
    }
  }

  lemma {:induction false} FrontierGrows(view: View, envs: seq<Env>, a: Atom, bound: set<string>)
    requires ExtendFrontier(view, envs, a).Success? && forall e :: e in envs ==> e.Keys == bound
    ensures forall e :: e in ExtendFrontier(view, envs, a).value ==> e.Keys == bound + AtomVars(a)
  {
    if envs != [] {
      assert envs[0] in envs;
      ExtendAtomGrows(view, envs[0], a);
      FrontierGrows(view, envs[1..], a, bound);
    }
  }

  /** Whatever a branch yields binds exactly the variables of the branch besides what was bound. */
  lemma {:induction false} BranchGrows(view: View, envs: seq<Env>, branch: seq<Atom>, bound: set<string>)
    requires EvalBranch(view, envs, branch).Success? && forall e :: e in envs ==> e.Keys == bound
    ensures forall e :: e in EvalBranch(view, envs, branch).value ==> e.Keys == bound + BranchVars(branch)
    decreases |branch|
  {
    if envs != [] && branch != [] {
      FrontierGrows(view, envs, branch[0], bound);
      BranchVarsCons(branch);
      BranchGrows(view, ExtendFrontier(view, envs, branch[0]).value, branch[1..], bound + AtomVars(branch[0]));
    }
  }

  lemma MergeIsFilter(envs: seq<Env>, seed: Env)
    requires forall e :: e in envs ==> seed.Keys <= e.Keys
    ensures MergeAll(envs, seed) == MatchesOf(envs, seed)
  {
    if envs != [] {
      MergeIsFilter(envs[1..], seed);
      assert envs[0] in envs;
      if Compatible(envs[0], seed) {
        assert envs[0] + seed == envs[0];
      }
    }
  }

  /** The frontier started from the requested binding ends in exactly the matching environments. */
  lemma SeedingEqualsFiltering(view: View, branch: seq<Atom>, seed: Env)
    requires EvalBranch(view, [map[]], branch).Success?
    requires BranchSeedSafe(branch, {}, seed) && seed.Keys <= BranchVars(branch)
    ensures EvalBranch(view, [seed], branch) == Success(MatchesOf(EvalBranch(view, [map[]], branch).value, seed))
  {
    SingleMerge(map[], seed);
    assert map[] + seed == seed;
    BranchSeeded(view, [map[]], branch, {}, seed);
    MergeIsFilter(EvalBranch(view, [map[]], branch).value, seed);
  }
}
