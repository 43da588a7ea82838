/**
 What winning cases and diagnosis report, in terms of satisfied atoms and solutions instead of the
 evaluator.
 */
module DiagnosisMeaning {
  import opened Wrappers
  import opened WhereEval
  import opened WinningCases
  import opened Diagnose
  import opened Semantics
  import opened AtomMeaning
  import opened BodyMeaning
  import opened WhereMeaning

  // ---------- checking a binding ----------

  lemma {:induction false} GroundExact(e: Env, terms: seq<Term>, row: Row)
    ensures Ground(e, terms) == Some(row) <==> FitsRow(e, terms, row)
  {
    if terms == [] {
    } else if |row| == |terms| {
      GroundExact(e, terms[1..], row[1..]);
      FitsRowCons(e, terms, row);
      DenotesLookup(e, terms[0]);
      assert row == [row[0]] + row[1..];
    } else {
      GroundLength(e, terms);
    }
  }

  lemma {:induction false} GroundLength(e: Env, terms: seq<Term>)
    ensures Ground(e, terms).Some? ==> |Ground(e, terms).value| == |terms|
  {
    if terms != [] {
      GroundLength(e, terms[1..]);
    }
  }

  lemma PredHoldsMeaning(view: View, e: Env, pred: string, terms: seq<Term>)
    ensures AtomHolds(view, e, Positive(Pred(pred, terms))) == Success(true) <==> Satisfies(view, e, Pred(pred, terms))
  {
    forall row
      ensures Ground(e, terms) == Some(row) <==> FitsRow(e, terms, row)
    {
      GroundExact(e, terms, row);
    }
  }

  /** A check of a positive atom that does not raise says whether the binding satisfies it. */
  lemma HoldsMeaning(view: View, e: Env, a: Simple)
    ensures AtomHolds(view, e, Positive(a)).Success? ==> (AtomHolds(view, e, Positive(a)).value <==> Satisfies(view, e, a))
  {
    match a
    case Pred(pred, terms) => PredHoldsMeaning(view, e, pred, terms);
    case Eq(l, r) =>
      DenotesLookup(e, l);
      DenotesLookup(e, r);
    case Ne(l, r) =>
      DenotesLookup(e, l);
      DenotesLookup(e, r);
    case Cmp(_, l, r) =>
      DenotesOperand(e, l);
      DenotesOperand(e, r);
    case In(_, _) =>
    case Arith(z, x) =>
      ComputedIs(e, x);
      DenotesOperand(e, Var(z));
  }

  /** A check of a `not` says whether no body has a satisfying extension, or raises as they do. */
  lemma NotHoldsMeaning(view: View, e: Env, bodies: seq<seq<Simple>>)
    requires forall b :: b in bodies ==> SafeBody(b, e.Keys)
    ensures AtomHolds(view, e, Not(bodies)).Failure? <==> exists j: nat :: AlternativeRaises(view, bodies, e, j)
    ensures AtomHolds(view, e, Not(bodies)).Success? ==>
      (AtomHolds(view, e, Not(bodies)).value <==> NoneExtensible(view, bodies, e))
  {
    AlternativesExact(view, e, bodies);
  }

  ghost predicate SatisfiesAll(view: View, e: Env, branch: seq<Atom>) {
    forall a :: a in branch ==> a.Positive? && Satisfies(view, e, a.atom)
  }

  lemma {:induction false} BranchHoldsMeaning(view: View, e: Env, branch: seq<Atom>)
    requires NotFree(branch) && BranchHolds(view, e, branch).Success?
    ensures BranchHolds(view, e, branch).value <==> SatisfiesAll(view, e, branch)
  {
    if branch != [] {
      assert branch[0] in branch;
      HoldsMeaning(view, e, branch[0].atom);
      assert forall a :: a in branch <==> a == branch[0] || a in branch[1..];
      if AtomHolds(view, e, branch[0]) == Success(true) {
        BranchHoldsMeaning(view, e, branch[1..]);
      }
    }
  }

  ghost predicate FirstSatisfied(view: View, e: Env, where: seq<seq<Atom>>, c: nat) {
    && c < |where| && SatisfiesAll(view, e, where[c])
    && forall j :: 0 <= j < c ==> !SatisfiesAll(view, e, where[j])
  }

  /** The winning case is the first branch all of whose atoms the binding satisfies. */
  lemma {:induction false} WinningMeaning(view: View, e: Env, where: seq<seq<Atom>>)
    requires forall b :: b in where ==> NotFree(b)
    requires WinningCase(view, e, where).Success?
    ensures FirstSatisfied(view, e, where, WinningCase(view, e, where).value)
  {
    assert where[0] in where;
    BranchHoldsMeaning(view, e, where[0]);
    if !BranchHolds(view, e, where[0]).value {
      var rest := where[1..];
      WinningMeaning(view, e, rest);
      var c := WinningCase(view, e, rest).value;
      assert rest[c] == where[c + 1];
      forall j | 0 <= j < c + 1
        ensures !SatisfiesAll(view, e, where[j])
      {
        assert j > 0 ==> rest[j - 1] == where[j];
      }
    }
  }

  // ---------- matches ----------

  // A solution that has every requested item.
  ghost predicate SolutionMatches(view: View, where: seq<seq<Atom>>, requested: Env, e: Env) {
    SolvesWhere(view, where, e) && forall x :: x in requested ==> x in e && e[x] == requested[x]
  }

  /** The matches of a diagnosis or overlay phase are the solutions that have every requested item. */
  lemma MatchedMeaning(view: View, where: seq<seq<Atom>>, requested: Env)
    requires EvaluateWhere(view, where).Success?
    ensures forall e :: e in Matched(view, where, requested) <==> SolutionMatches(view, where, requested, e)
  {
    EvaluationMeaning(view, where);
    MatchesOfElements(EvaluateWhere(view, where).value, requested);
  }

  /** Diagnosis passes exactly if some solution has every requested item. */
  lemma PassedMeaning(view: View, where: seq<seq<Atom>>, requested: Env, d: Diagnosis,
                      keyLeq: (Env, Env) -> bool, leq: (Env, Env) -> bool)
    requires EvaluateWhere(view, where).Success? && Reported(d, view, where, requested, keyLeq, leq)
    ensures d.Passed? <==> exists e :: SolutionMatches(view, where, requested, e)
    ensures d.Passed? ==> SolutionMatches(view, where, requested, d.matched)
  {
    MatchedMeaning(view, where, requested);
    var matches := Matched(view, where, requested);
    assert matches != [] ==> matches[0] in matches;
  }

  /** A branch is considered unless something is requested and none of it is a variable outside `not` of the branch. */
  lemma ConsideredMeans(branch: seq<Atom>, requested: Env)
    ensures Considered(branch, requested) <==>
      requested == map[] || exists v, a :: v in requested && a in branch && a.Positive? && Mentions(a.atom, v)
  {
    forall v
      ensures v in BranchVars(branch) <==> exists a :: a in branch && a.Positive? && Mentions(a.atom, v)
    {
      BranchVarsMean(branch, v);
    }
    if BranchVars(branch) * requested.Keys != {} {
      var v :| v in BranchVars(branch) * requested.Keys;
    }
    if v, a :| v in requested && a in branch && a.Positive? && Mentions(a.atom, v) {
      assert v in BranchVars(branch) * requested.Keys;
    }
  }

  // ---------- failing atoms ----------

  ghost predicate Solvable(view: View, branch: seq<Atom>, u: Env, k: nat)
    requires k <= |branch|
  {
    exists e :: SolvesFrom(view, branch, u, e, k)
  }

  /**
   A branch run from the request fails at atom k exactly if nothing up to and including that atom
   raises, something solves the atoms before it, and nothing solves it too.
   */
  lemma FailsMeaning(view: View, branch: seq<Atom>, requested: Env, k: nat)
    requires SafeBranch(branch, {}) && k < |branch|
    ensures FailsAt(view, branch, requested, k)
      <==> && !RaisesBeforeAtom(view, branch, requested, k + 1)
           && Solvable(view, branch, requested, k) && !Solvable(view, branch, requested, k + 1)
  {
    PrefixRaises(view, branch, requested, k);
    PrefixRaises(view, branch, requested, k + 1);
    if !RaisesBeforeAtom(view, branch, requested, k + 1) {
      PrefixExact(view, branch, requested, k);
      PrefixExact(view, branch, requested, k + 1);
      var f, g := FrontierBefore(view, branch, requested, k).value, FrontierBefore(view, branch, requested, k + 1).value;
      assert f != [] ==> f[0] in f;
      assert g != [] ==> g[0] in g;
    }
  }

  lemma RunsMeaning(view: View, branch: seq<Atom>, requested: Env)
    requires SafeBranch(branch, {})
    ensures RunsThrough(view, branch, requested)
      <==> !BranchRaisesFrom(view, branch, requested) && Solvable(view, branch, requested, |branch|)
  {
    BranchMeaning(view, branch, requested);
    if EvalBranch(view, [requested], branch).Success? {
      var f := EvalBranch(view, [requested], branch).value;
      assert f != [] ==> f[0] in f;
    }
  }

  // ---------- known variables ----------

  // Some atom mentions the variable, be it inside `not`.
  ghost predicate MentionedIn(where: seq<seq<Atom>>, v: string) {
    exists branch, a :: branch in where && a in branch && AtomMentions(a, v)
  }

  ghost predicate AtomMentions(a: Atom, v: string) {
    if a.Positive? then Mentions(a.atom, v) else exists b, s :: b in a.bodies && s in b && Mentions(s, v)
  }

  lemma NotVarsMean(bodies: seq<seq<Simple>>, v: string)
    ensures v in NotVars(bodies) <==> exists b, s :: b in bodies && s in b && Mentions(s, v)
  {
    forall b, s | b in bodies && s in b
      ensures v in SimpleVars(s) <==> Mentions(s, v)
    {
      VarsMean(s, v);
    }
    if v in NotVars(bodies) {
      var b :| b in bodies && v in BodyVars(b);
      var s :| s in b && v in SimpleVars(s);
    }
    if b, s :| b in bodies && s in b && Mentions(s, v) {
      assert v in BodyVars(b);
    }
  }

  /** A request is refused exactly if it names a variable that no atom mentions. */
  lemma KnownVariables(where: seq<seq<Atom>>, v: string)
    ensures v in BodyVariables(where) <==> MentionedIn(where, v)
  {
    forall branch, a | branch in where && a in branch
      ensures v in MentionedVars(a) <==> AtomMentions(a, v)
    {
      if a.Positive? {
        VarsMean(a.atom, v);
      } else {
        NotVarsMean(a.bodies, v);
      }
    }
  }
}
