/** When seeding is filtering, with every condition told by the positions of the branch. */
module SeedingConditions {
  import opened Wrappers
  import opened WhereEval
  import opened Seeding
  import opened SeededBranches
  import opened SeedingLimits
  import opened Diagnose
  import opened EarlyNegation
  import opened BodyMeaning
  import opened WhereMeaning

  // Atom k is arithmetic outside `not` and the first to bind z.
  ghost predicate FirstOutput(branch: seq<Atom>, bound: set<string>, k: nat, z: string) {
    && k < |branch| && branch[k].Positive? && branch[k].atom.Arith? && branch[k].atom.output == z
    && z !in bound && z !in BranchVars(branch[..k])
  }

  // Integers are requested for what arithmetic outside `not` first binds.
  ghost predicate IntegerOutputs(branch: seq<Atom>, seed: Env) {
    forall k: nat, z :: FirstOutput(branch, {}, k, z) && z in seed ==> seed[z].Num?
  }

  // A requested variable of a `not` body is bound before the `not`.
  ghost predicate NegationsAfter(branch: seq<Atom>, bound: set<string>, seed: Env) {
    forall k :: 0 <= k < |branch| ==> NegationAfter(branch, bound, seed, k)
  }

  ghost predicate NegationAfter(branch: seq<Atom>, bound: set<string>, seed: Env, k: nat)
    requires k < |branch|
  {
    branch[k].Not? ==> forall v :: v in NotVars(branch[k].bodies) && v in seed ==> v in bound || v in BranchVars(branch[..k])
  }

  lemma VarsBefore(branch: seq<Atom>, bound: set<string>, k: nat, v: string)
    requires k < |branch|
    ensures v in bound || v in BranchVars(branch[..k + 1]) <==>
      v in bound + AtomVars(branch[0]) || v in BranchVars(branch[1..][..k])
  {
    BranchVarsCons(branch[..k + 1]);
    assert branch[..k + 1][1..] == branch[1..][..k];
  }

  lemma {:induction false} OutputsMean(branch: seq<Atom>, bound: set<string>, z: string)
    ensures z in ArithmeticOutputs(branch, bound) <==> exists k: nat :: FirstOutput(branch, bound, k, z)
  {
    if branch != [] {
      var rest, bound' := branch[1..], bound + AtomVars(branch[0]);
      OutputsMean(rest, bound', z);
      assert branch[..0] == [] && BranchVars([]) == {};
      assert FirstOutput(branch, bound, 0, z) <==>
        branch[0].Positive? && branch[0].atom.Arith? && branch[0].atom.output == z && z !in bound;
      forall k: nat | k < |rest|
        ensures FirstOutput(rest, bound', k, z) <==> FirstOutput(branch, bound, k + 1, z)
      {
        VarsBefore(branch, bound, k, z);
      }
      if k: nat :| FirstOutput(branch, bound, k, z) {
        assert k > 0 ==> FirstOutput(rest, bound', k - 1, z);
      }
      if k: nat :| FirstOutput(rest, bound', k, z) {
        assert FirstOutput(branch, bound, k + 1, z);
      }
    }
  }

  lemma IntegersMean(branch: seq<Atom>, seed: Env)
    ensures IntegersRequested(branch, {}, seed) <==> IntegerOutputs(branch, seed)
  {
    forall z
      ensures z in ArithmeticOutputs(branch, {}) <==> exists k: nat :: FirstOutput(branch, {}, k, z)
    {
      OutputsMean(branch, {}, z);
    }
  }

  lemma NegationAfterNext(branch: seq<Atom>, bound: set<string>, seed: Env, k: nat)
    requires k < |branch| - 1
    ensures NegationAfter(branch[1..], bound + AtomVars(branch[0]), seed, k) <==> NegationAfter(branch, bound, seed, k + 1)
  {
    forall v
      ensures v in bound || v in BranchVars(branch[..k + 1]) <==>
        v in bound + AtomVars(branch[0]) || v in BranchVars(branch[1..][..k])
    {
      VarsBefore(branch, bound, k, v);
    }
  }

  lemma {:induction false} NegationsMean(branch: seq<Atom>, bound: set<string>, seed: Env)
    ensures NegationScoped(branch, bound, seed) <==> NegationsAfter(branch, bound, seed)
  {
    if branch != [] {
      var rest, bound' := branch[1..], bound + AtomVars(branch[0]);
      NegationsMean(rest, bound', seed);
      assert branch[..0] == [] && BranchVars([]) == {};
      forall k | 0 <= k < |rest|
        ensures NegationAfter(rest, bound', seed, k) <==> NegationAfter(branch, bound, seed, k + 1)
      {
        NegationAfterNext(branch, bound, seed, k);
      }
      if NegationsAfter(rest, bound', seed) && NegationAfter(branch, bound, seed, 0) {
        forall k | 0 <= k < |branch|
          ensures NegationAfter(branch, bound, seed, k)
        {
          assert k > 0 ==> NegationAfter(rest, bound', seed, k - 1);
        }
      }
      if NegationsAfter(branch, bound, seed) {
        assert NegationAfter(branch, bound, seed, 0);
        forall k | 0 <= k < |rest|
          ensures NegationAfter(rest, bound', seed, k)
        {
          assert NegationAfter(branch, bound, seed, k + 1);
        }
      }
    }
  }

  // The solution has every requested item.
  ghost predicate HasAll(e: Env, seed: Env) {
    forall x :: x in seed ==> x in e && e[x] == seed[x]
  }

  /**
   An admitted branch run from a request ends in exactly the solutions that have every requested item, if integers
   are requested for what arithmetic first binds and requested variables of `not` bodies are bound before.
   */
  lemma AdmittedSeeding(view: View, branch: seq<Atom>, seed: Env)
    requires BranchAdmitted(branch) && IntegerOutputs(branch, seed) && NegationsAfter(branch, {}, seed)
    requires seed.Keys <= BranchVars(branch) && EvalBranch(view, [map[]], branch).Success?
    ensures EvalBranch(view, [seed], branch).Success?
    ensures forall e :: e in EvalBranch(view, [seed], branch).value <==> SolvesFrom(view, branch, map[], e, |branch|) && HasAll(e, seed)
  {
    SafeBranchMeans(branch);
    IntegersMean(branch, seed);
    NegationsMean(branch, {}, seed);
    SafeIsSeedSafe(branch, {}, seed);
    SeedingEqualsFiltering(view, branch, seed);
    BranchMeaning(view, branch, map[]);
    MatchesOfElements(EvalBranch(view, [map[]], branch).value, seed);
  }

  // ---------- negation that knows the request too early ----------

  // Atom j of the body is arithmetic and the first to bind z.
  ghost predicate FirstBodyOutput(body: seq<Simple>, bound: set<string>, j: nat, z: string) {
    && j < |body| && body[j].Arith? && body[j].output == z && z !in bound && z !in BodyVars(body[..j])
  }

  ghost predicate BodyIntegerOutputs(body: seq<Simple>, bound: set<string>, seed: Env) {
    forall j: nat, z :: FirstBodyOutput(body, bound, j, z) && z in seed ==> seed[z].Num?
  }

  // Integers are requested for what arithmetic inside the `not` bodies of atom k first binds.
  ghost predicate NegationIntegersAt(branch: seq<Atom>, bound: set<string>, seed: Env, k: nat)
    requires k < |branch|
  {
    branch[k].Not? ==>
      forall i :: 0 <= i < |branch[k].bodies| ==> BodyIntegerOutputs(branch[k].bodies[i], bound + BranchVars(branch[..k]), seed)
  }

  ghost predicate NegationIntegers(branch: seq<Atom>, bound: set<string>, seed: Env) {
    forall k :: 0 <= k < |branch| ==> NegationIntegersAt(branch, bound, seed, k)
  }

  lemma BodyVarsBefore(body: seq<Simple>, bound: set<string>, j: nat, v: string)
    requires j < |body|
    ensures v in bound || v in BodyVars(body[..j + 1]) <==> v in bound + SimpleVars(body[0]) || v in BodyVars(body[1..][..j])
  {
    BodyVarsCons(body[..j + 1]);
    assert body[..j + 1][1..] == body[1..][..j];
  }

  lemma {:induction false} BodyOutputsMean(body: seq<Simple>, bound: set<string>, z: string)
    ensures z in BodyOutputs(body, bound) <==> exists j: nat :: FirstBodyOutput(body, bound, j, z)
  {
    if body != [] {
      var rest, bound' := body[1..], bound + SimpleVars(body[0]);
      BodyOutputsMean(rest, bound', z);
      assert body[..0] == [] && BodyVars([]) == {};
      assert FirstBodyOutput(body, bound, 0, z) <==> body[0].Arith? && body[0].output == z && z !in bound;
      forall j: nat | j < |rest|
        ensures FirstBodyOutput(rest, bound', j, z) <==> FirstBodyOutput(body, bound, j + 1, z)
      {
        BodyVarsBefore(body, bound, j, z);
      }
      if j: nat :| FirstBodyOutput(body, bound, j, z) {
        assert j > 0 ==> FirstBodyOutput(rest, bound', j - 1, z);
      }
      if j: nat :| FirstBodyOutput(rest, bound', j, z) {
        assert FirstBodyOutput(body, bound, j + 1, z);
      }
    }
  }

  lemma BodyIntegersMean(body: seq<Simple>, bound: set<string>, seed: Env)
    ensures BodyIntegersRequested(body, bound, seed) <==> BodyIntegerOutputs(body, bound, seed)
  {
    forall z
      ensures z in BodyOutputs(body, bound) <==> exists j: nat :: FirstBodyOutput(body, bound, j, z)
    {
      BodyOutputsMean(body, bound, z);
    }
  }

  lemma BoundNext(branch: seq<Atom>, bound: set<string>, k: nat)
    requires k < |branch| - 1
    ensures bound + AtomVars(branch[0]) + BranchVars(branch[1..][..k]) == bound + BranchVars(branch[..k + 1])
  {
    BranchVarsCons(branch[..k + 1]);
    assert branch[..k + 1][1..] == branch[1..][..k];
  }

  lemma FirstNegation(branch: seq<Atom>, bound: set<string>, seed: Env)
    requires branch != []
    ensures NegationIntegersAt(branch, bound, seed, 0) <==>
      (branch[0].Not? ==> forall b :: b in branch[0].bodies ==> BodyIntegersRequested(b, bound, seed))
  {
    assert branch[..0] == [] && bound + BranchVars(branch[..0]) == bound;
    if branch[0].Not? {
      forall b
        ensures BodyIntegersRequested(b, bound, seed) <==> BodyIntegerOutputs(b, bound, seed)
      {
        BodyIntegersMean(b, bound, seed);
      }
      assert forall b :: b in branch[0].bodies <==> exists i :: 0 <= i < |branch[0].bodies| && branch[0].bodies[i] == b;
    }
  }

  lemma {:induction false} NegationIntegersMean(branch: seq<Atom>, bound: set<string>, seed: Env)
    ensures NegationIntegersRequested(branch, bound, seed) <==> NegationIntegers(branch, bound, seed)
  {
    if branch != [] {
      var rest, bound' := branch[1..], bound + AtomVars(branch[0]);
      NegationIntegersMean(rest, bound', seed);
      FirstNegation(branch, bound, seed);
      forall k | 0 <= k < |rest|
        ensures NegationIntegersAt(rest, bound', seed, k) <==> NegationIntegersAt(branch, bound, seed, k + 1)
      {
        BoundNext(branch, bound, k);
      }
      if NegationIntegers(rest, bound', seed) && NegationIntegersAt(branch, bound, seed, 0) {
        forall k | 0 <= k < |branch|
          ensures NegationIntegersAt(branch, bound, seed, k)
        {
          assert k > 0 ==> NegationIntegersAt(rest, bound', seed, k - 1);
        }
      }
      if NegationIntegers(branch, bound, seed) {
        assert NegationIntegersAt(branch, bound, seed, 0);
        forall k | 0 <= k < |rest|
          ensures NegationIntegersAt(rest, bound', seed, k)
        {
          assert NegationIntegersAt(branch, bound, seed, k + 1);
        }
      }
    }
  }

  // The environment passes the `not` at k with only the variables that the branch has bound by then.
  ghost predicate PassesAt(view: View, branch: seq<Atom>, bound: set<string>, e: Env, k: nat)
    requires k < |branch|
  {
    branch[k].Not? ==>
      var u := Restrict(e, bound + BranchVars(branch[..k]));
      !NotRaises(view, branch[k].bodies, u) && NoneExtensible(view, branch[k].bodies, u)
  }

  ghost predicate PassesAll(view: View, branch: seq<Atom>, bound: set<string>, e: Env) {
    forall k :: 0 <= k < |branch| ==> PassesAt(view, branch, bound, e, k)
  }

  lemma PassesMeans(view: View, bodies: seq<seq<Simple>>, u: Env)
    requires forall b :: b in bodies ==> SafeBody(b, u.Keys)
    ensures Passes(view, Not(bodies), u) <==> !NotRaises(view, bodies, u) && NoneExtensible(view, bodies, u)
  {
    NotExact(view, u, bodies);
  }

  lemma FirstPasses(view: View, branch: seq<Atom>, bound: set<string>, e: Env)
    requires branch != [] && SafeBranch(branch, bound) && bound <= e.Keys
    ensures PassesAt(view, branch, bound, e, 0) <==> (branch[0].Not? ==> Passes(view, branch[0], Restrict(e, bound)))
  {
    assert branch[..0] == [] && bound + BranchVars(branch[..0]) == bound;
    if branch[0].Not? {
      assert Restrict(e, bound).Keys == bound;
      PassesMeans(view, branch[0].bodies, Restrict(e, bound));
    }
  }

  lemma {:induction false} PassingMeans(view: View, branch: seq<Atom>, bound: set<string>, e: Env)
    requires SafeBranch(branch, bound) && bound + BranchVars(branch) <= e.Keys
    ensures Passing(view, branch, bound, e) <==> PassesAll(view, branch, bound, e)
  {
    if branch != [] {
      var rest, bound' := branch[1..], bound + AtomVars(branch[0]);
      BranchVarsCons(branch);
      assert SafeBranch(rest, bound') by {
        assert branch[0].Not? ==> bound' == bound;
      }
      PassingMeans(view, rest, bound', e);
      FirstPasses(view, branch, bound, e);
      forall k | 0 <= k < |rest|
        ensures PassesAt(view, rest, bound', e, k) <==> PassesAt(view, branch, bound, e, k + 1)
      {
        BoundNext(branch, bound, k);
      }
      if PassesAll(view, rest, bound', e) && PassesAt(view, branch, bound, e, 0) {
        forall k | 0 <= k < |branch|
          ensures PassesAt(view, branch, bound, e, k)
        {
          assert k > 0 ==> PassesAt(view, rest, bound', e, k - 1);
        }
      }
      if PassesAll(view, branch, bound, e) {
        assert PassesAt(view, branch, bound, e, 0);
        forall k | 0 <= k < |rest|
          ensures PassesAt(view, rest, bound', e, k)
        {
          assert PassesAt(view, branch, bound, e, k + 1);
        }
      }
    }
  }

  lemma MatchesPass(view: View, branch: seq<Atom>, seed: Env)
    requires SafeBranch(branch, {}) && IntegersRequested(branch, {}, seed) && NegationIntegersRequested(branch, {}, seed)
    requires EvalBranch(view, [map[]], branch).Success? && EvalBranch(view, [seed], branch).Success?
    requires seed.Keys <= BranchVars(branch)
    ensures forall e :: e in MatchesOf(EvalBranch(view, [map[]], branch).value, seed) <==>
      e in EvalBranch(view, [seed], branch).value && PassesAll(view, branch, {}, e)
  {
    var survivors := EvalBranch(view, [seed], branch).value;
    NegationExactness(view, branch, seed);
    SelectElements(view, branch, {}, survivors);
    BranchGrows(view, [seed], branch, seed.Keys);
    forall e | e in survivors
      ensures Passing(view, branch, {}, e) <==> PassesAll(view, branch, {}, e)
    {
      PassingMeans(view, branch, {}, e);
    }
  }

  /**
   With integers requested, inside `not` bodies too, an admitted branch run from a request ends in environments of
   which the solutions that have every requested item are exactly those that pass each `not` on its own terms.
   */
  lemma AdmittedNegations(view: View, branch: seq<Atom>, seed: Env)
    requires BranchAdmitted(branch) && IntegerOutputs(branch, seed) && NegationIntegers(branch, {}, seed)
    requires EvalBranch(view, [map[]], branch).Success? && EvalBranch(view, [seed], branch).Success?
    requires seed.Keys <= BranchVars(branch)
    ensures forall e :: SolvesFrom(view, branch, map[], e, |branch|) && HasAll(e, seed) <==>
      e in EvalBranch(view, [seed], branch).value && PassesAll(view, branch, {}, e)
  {
    SafeBranchMeans(branch);
    IntegersMean(branch, seed);
    NegationIntegersMean(branch, {}, seed);
    MatchesPass(view, branch, seed);
    BranchMeaning(view, branch, map[]);
    MatchesOfElements(EvalBranch(view, [map[]], branch).value, seed);
  }
}
