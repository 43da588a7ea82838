/** How frontiers and bodies are put together from single environments and branches. */
module Frontiers {
  import opened Wrappers
  import opened WhereEval

  lemma {:induction false} EvalBranchSnoc(view: View, envs: seq<Env>, prefix: seq<Atom>, a: Atom)
    ensures EvalBranch(view, envs, prefix + [a])
         == var f := EvalBranch(view, envs, prefix); if f.Failure? then f else ExtendFrontier(view, f.value, a)
    decreases |prefix|
  {
    var all := prefix + [a];
    if envs == [] {
    } else if prefix == [] {
      assert all[1..] == [];
    } else {
      assert all[1..] == prefix[1..] + [a];
      var next := ExtendFrontier(view, envs, prefix[0]);
      if next.Success? {
        EvalBranchSnoc(view, next.value, prefix[1..], a);
      }
    }
  }

  lemma {:induction false} FrontierElements(view: View, envs: seq<Env>, a: Atom)
    ensures ExtendFrontier(view, envs, a).Success? <==> forall e :: e in envs ==> ExtendAtom(view, e, a).Success?
    ensures ExtendFrontier(view, envs, a).Success? ==>
      forall x :: x in ExtendFrontier(view, envs, a).value <==> exists e :: e in envs && x in ExtendAtom(view, e, a).value
  {
    if envs != [] {
      FrontierElements(view, envs[1..], a);
      assert forall e :: e in envs <==> e == envs[0] || e in envs[1..];
    }
  }

  lemma {:induction false} DedupeElements(envs: seq<Env>)
    ensures forall e :: e in Dedupe(envs) <==> e in envs
  {
    if envs != [] {
      DedupeElements(envs[..|envs| - 1]);
      assert envs == envs[..|envs| - 1] + [envs[|envs| - 1]];
    }
  }

  predicate DistinctEnvs(envs: seq<Env>) {
    forall i, j :: 0 <= i < j < |envs| ==> envs[i] != envs[j]
  }

  lemma {:induction false} DedupeDistinct(envs: seq<Env>)
    ensures DistinctEnvs(Dedupe(envs))
  {
    if envs != [] {
      DedupeDistinct(envs[..|envs| - 1]);
    }
  }

  lemma {:induction false} BranchesElements(view: View, where: seq<seq<Atom>>, i: nat)
    requires EvalBranches(view, where).Success? && i < |where|
    ensures EvalBranch(view, [map[]], where[i]).Success?
    ensures forall e :: e in EvalBranch(view, [map[]], where[i]).value ==> e in EvalBranches(view, where).value
  {
    if i < |where| - 1 {
      BranchesElements(view, where[..|where| - 1], i);
    }
  }

  /** Evaluating a branch is evaluating a prefix and then the rest. */
  lemma {:induction false} EvalBranchSplit(view: View, envs: seq<Env>, branch: seq<Atom>, k: nat)
    requires k <= |branch|
    ensures EvalBranch(view, envs, branch)
         == var f := EvalBranch(view, envs, branch[..k]); if f.Failure? then f else EvalBranch(view, f.value, branch[k..])
    decreases k
  {
    if k == 0 {
      assert branch[..0] == [] && branch[0..] == branch;
    } else if envs != [] {
      assert branch[..k][0] == branch[0] && branch[..k][1..] == branch[1..][..k - 1] && branch[1..][k - 1..] == branch[k..];
      var next := ExtendFrontier(view, envs, branch[0]);
      if next.Success? {
        EvalBranchSplit(view, next.value, branch[1..], k - 1);
      }
    }
  }
}
