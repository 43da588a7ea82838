/**
 Requesting something other than an integer for a variable that the branch first binds by arithmetic.
 The arithmetic check coerces the requested value, so the seeded frontier keeps the environments that
 compute its integer, while no evaluated binding equals the request.
 */
module TextRequests {
  import opened Wrappers
  import opened WhereEval
  import opened Seeding
  import opened SeededBranches
  import opened SeedingLimits
  import opened Frontiers

  // ---------- prefixes of a branch ----------

  lemma {:induction false} PrefixSafe(branch: seq<Atom>, bound: set<string>, seed: Env, k: nat)
    requires SafeBranch(branch, bound) && NegationScoped(branch, bound, seed) && k <= |branch|
    ensures SafeBranch(branch[..k], bound) && NegationScoped(branch[..k], bound, seed)
    ensures k < |branch| && branch[k].Positive? ==> SafeAtom(branch[k].atom, bound + BranchVars(branch[..k]))
  {
    var prefix := branch[..k];
    if k == 0 {
      assert bound + BranchVars(prefix) == bound;
    } else {
      assert prefix[0] == branch[0] && prefix[1..] == branch[1..][..k - 1];
      var bound' := bound + AtomVars(branch[0]);
      assert branch[0].Not? ==> bound' == bound;
      PrefixSafe(branch[1..], bound', seed, k - 1);
      BranchVarsCons(prefix);
      assert bound + BranchVars(prefix) == bound' + BranchVars(prefix[1..]);
      assert k < |branch| ==> branch[1..][k - 1] == branch[k];
    }
  }

  lemma {:induction false} PrefixOutputs(branch: seq<Atom>, bound: set<string>, k: nat)
    requires k <= |branch|
    ensures ArithmeticOutputs(branch[..k], bound) <= ArithmeticOutputs(branch, bound)
    decreases k
  {
    if k > 0 {
      assert branch[..k][0] == branch[0] && branch[..k][1..] == branch[1..][..k - 1];
      PrefixOutputs(branch[1..], bound + AtomVars(branch[0]), k - 1);
    }
  }

  lemma PrefixEvaluates(view: View, envs: seq<Env>, branch: seq<Atom>, k: nat)
    requires k <= |branch| && EvalBranch(view, envs, branch).Success?
    ensures EvalBranch(view, envs, branch[..k]).Success?
  {
    EvalBranchSplit(view, envs, branch, k);
  }

  /** Before any offending atom the seeded frontier is the unseeded one, merged. */
  lemma PrefixSeeded(view: View, branch: seq<Atom>, seed: Env, k: nat)
    requires SafeBranch(branch, {}) && NegationScoped(branch, {}, seed) && k <= |branch|
    requires IntegersRequested(branch[..k], {}, seed) && EvalBranch(view, [map[]], branch[..k]).Success?
    ensures EvalBranch(view, [seed], branch[..k]) == Success(MergeAll(EvalBranch(view, [map[]], branch[..k]).value, seed))
    ensures forall u :: u in EvalBranch(view, [map[]], branch[..k]).value ==> u.Keys == BranchVars(branch[..k])
  {
    PrefixSafe(branch, {}, seed, k);
    SafeIsSeedSafe(branch[..k], {}, seed);
    SingleMerge(map[], seed);
    assert map[] + seed == seed;
    BranchSeeded(view, [map[]], branch[..k], {}, seed);
  }

  // ---------- the first arithmetic output with another request ----------

  lemma OutputChecked(view: View, u: Env, seed: Env, z: string, e: Expr)
    requires Extend(view, u, Arith(z, e)).Success? && Compatible(u, seed) && Inputs(e) <= u.Keys
    requires z !in u && z in seed
    ensures Compute(u, e).Result?
    ensures Extend(view, u + seed, Arith(z, e))
         == if Coerce(seed[z]).None? then Failure("NOT_AN_INTEGER")
            else Success(if Compute(u, e) == Result(Coerce(seed[z]).value) then [u + seed] else [])
  {
    ComputeSeeded(u, seed, e);
    LookupKnown(u, e.x);
  }

  // Some environment agrees with the request and computes this integer.
  ghost predicate SomeComputes(us: seq<Env>, seed: Env, e: Expr, n: int) {
    exists u :: u in us && Compatible(u, seed) && Compute(u, e) == Result(n)
  }

  lemma SomeComputesCons(us: seq<Env>, seed: Env, e: Expr, n: int)
    requires us != []
    ensures SomeComputes(us, seed, e, n)
      <==> (Compatible(us[0], seed) && Compute(us[0], e) == Result(n)) || SomeComputes(us[1..], seed, e, n)
  {
    assert forall u :: u in us <==> u == us[0] || u in us[1..];
  }

  // What a frontier step finds, given what it finds for the first environment and for the others.
  lemma StepFinds(view: View, x: Env, rest: seq<Env>, a: Atom, here: Envs, later: Envs)
    requires here == ExtendAtom(view, x, a) && later == ExtendFrontier(view, rest, a)
    ensures var next := ExtendFrontier(view, [x] + rest, a);
      && (next.Failure? <==> here.Failure? || later.Failure?)
      && (next.Success? ==> (next.value == [] <==> here.value == [] && later.value == []))
  {
    assert ([x] + rest)[1..] == rest;
  }

  lemma {:induction false} FrontierChecked(view: View, us: seq<Env>, seed: Env, z: string, e: Expr, bound: set<string>)
    requires ExtendFrontier(view, us, Positive(Arith(z, e))).Success?
    requires forall u :: u in us ==> u.Keys == bound
    requires Inputs(e) <= bound && z !in bound && z in seed
    ensures var next := ExtendFrontier(view, MergeAll(us, seed), Positive(Arith(z, e)));
      && (next.Failure? <==> Coerce(seed[z]).None? && MergeAll(us, seed) != [])
      && (next.Success? ==> (next.value != [] <==> Coerce(seed[z]).Some? && SomeComputes(us, seed, e, Coerce(seed[z]).value)))
  {
    if us != [] {
      var u, rest, a := us[0], us[1..], Positive(Arith(z, e));
      assert u in us && ExtendAtom(view, u, a).Success?;
      FrontierChecked(view, rest, seed, z, e, bound);
      var merged := MergeAll(rest, seed);
      if Coerce(seed[z]).Some? {
        SomeComputesCons(us, seed, e, Coerce(seed[z]).value);
      }
      if Compatible(u, seed) {
        OutputChecked(view, u, seed, z, e);
        assert MergeAll(us, seed) == [u + seed] + merged;
        StepFinds(view, u + seed, merged, a, ExtendAtom(view, u + seed, a), ExtendFrontier(view, merged, a));
      } else {
        assert MergeAll(us, seed) == merged;
      }
    }
  }

  /**
   Up to the first arithmetic output that is requested as something else than an integer, the seeded
   frontier is the merged unseeded one. It survives that atom exactly if some environment that agrees
   with the request computes the requested value's integer, and it raises exactly if the value stands
   for no integer and some environment agrees with the request.
   */
  lemma FirstTextOutput(view: View, branch: seq<Atom>, seed: Env, k: nat, z: string, e: Expr)
    requires SafeBranch(branch, {}) && NegationScoped(branch, {}, seed)
    requires k < |branch| && branch[k] == Positive(Arith(z, e)) && z !in BranchVars(branch[..k])
    requires z in seed && !seed[z].Num? && IntegersRequested(branch[..k], {}, seed)
    requires EvalBranch(view, [map[]], branch[..k + 1]).Success?
    ensures EvalBranch(view, [map[]], branch[..k]).Success?
    ensures var us := EvalBranch(view, [map[]], branch[..k]).value;
      && EvalBranch(view, [seed], branch[..k]) == Success(MergeAll(us, seed))
      && (EvalBranch(view, [seed], branch[..k + 1]).Failure? <==>
            Coerce(seed[z]).None? && exists u :: u in us && Compatible(u, seed))
      && (EvalBranch(view, [seed], branch[..k + 1]).Success? ==>
            (EvalBranch(view, [seed], branch[..k + 1]).value != [] <==>
               Coerce(seed[z]).Some? && SomeComputes(us, seed, e, Coerce(seed[z]).value)))
  {
    var prefix := branch[..k];
    assert branch[..k + 1] == prefix + [branch[k]];
    EvalBranchSnoc(view, [map[]], prefix, branch[k]);
    EvalBranchSnoc(view, [seed], prefix, branch[k]);
    PrefixSeeded(view, branch, seed, k);
    PrefixSafe(branch, {}, seed, k);
    var us := EvalBranch(view, [map[]], prefix).value;
    assert {} + BranchVars(prefix) == BranchVars(prefix);
    FrontierChecked(view, us, seed, z, e, BranchVars(prefix));
    MergeEmpty(us, seed);
  }

  lemma {:induction false} MergeEmpty(envs: seq<Env>, seed: Env)
    ensures MergeAll(envs, seed) == [] <==> forall u :: u in envs ==> !Compatible(u, seed)
  {
    if envs != [] {
      MergeEmpty(envs[1..], seed);
      assert forall u :: u in envs <==> u == envs[0] || u in envs[1..];
    }
  }
}
