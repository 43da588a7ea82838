/**
 Everything that an admitted verification reads from the captured relations: besides the tuples
 compared with a condition, the facts scanned by arity checks, put into look-up indexes and copied into
 views. The estimate does not cover these, but twice the estimate does.
 */
module FullScans {
  import opened Wrappers
  import opened WhereEval
  import opened SeededBranches
  import opened WinningCases
  import opened WorkGate
  import E = Estimate

  // The look-up indexes built while one branch is evaluated: a predicate and the positions of a key.
  type Indexes = set<(string, set<nat>)>

  datatype Scan = Scan(cost: nat, indexes: Indexes)

  // ---------- one atom ----------

  // The facts looked at until one has another arity.
  function ArityCost(rows: seq<Row>, arity: nat): nat {
    if rows == [] then 0 else if |rows[0]| != arity then 1 else 1 + ArityCost(rows[1..], arity)
  }

  // The positions of constants and bound variables.
  function KeyPositions(bound: set<string>, terms: seq<Term>): set<nat> {
    set i: nat | i < |terms| && TermVars(terms[i]) <= bound
  }

  // Without a key all facts are candidates; otherwise an index is built the first time a key is used.
  function LookUp(env: Env, pred: string, terms: seq<Term>, rows: seq<Row>, indexes: Indexes): Scan
    requires forall r :: r in rows ==> |r| == |terms|
  {
    var key := (pred, KeyPositions(env.Keys, terms));
    var tried := |Candidates(env, terms, rows)|;
    if key.1 == {} || key in indexes then Scan(tried, indexes) else Scan(|rows| + tried, indexes + {key})
  }

  function LookUps(envs: seq<Env>, pred: string, terms: seq<Term>, rows: seq<Row>, indexes: Indexes): Scan
    requires forall r :: r in rows ==> |r| == |terms|
  {
    if envs == [] then Scan(0, indexes)
    else
      var first := LookUp(envs[0], pred, terms, rows, indexes);
      var rest := LookUps(envs[1..], pred, terms, rows, first.indexes);
      Scan(first.cost + rest.cost, rest.indexes)
  }

  // Arities are checked once for all environments; other atoms outside `not` read no facts.
  function AtomScan(view: View, envs: seq<Env>, a: Atom, indexes: Indexes): Scan {
    match a
    case Positive(Pred(pred, terms)) =>
      if pred !in view then Scan(0, indexes)
      else if exists row :: row in view[pred] && |row| != |terms| then Scan(ArityCost(view[pred], |terms|), indexes)
      else
        var looked := LookUps(envs, pred, terms, view[pred], indexes);
        Scan(ArityCost(view[pred], |terms|) + looked.cost, looked.indexes)
    case _ => Scan(0, indexes)
  }

  function BranchScan(view: View, envs: seq<Env>, branch: seq<Atom>, indexes: Indexes): nat
    decreases |branch|
  {
    if envs == [] || branch == [] then 0
    else
      var next, here := ExtendFrontier(view, envs, branch[0]), AtomScan(view, envs, branch[0], indexes);
      here.cost + if next.Failure? then 0 else BranchScan(view, next.value, branch[1..], here.indexes)
  }

  // ---------- a whole verification ----------

  // Indexes are not shared between branches.
  function EvaluationScan(view: View, where: seq<seq<Atom>>): nat {
    if where == [] then 0
    else
      var before := where[..|where| - 1];
      EvaluationScan(view, before)
      + if EvalBranches(view, before).Failure? then 0 else BranchScan(view, [map[]], where[|where| - 1], {})
  }

  // The search for a winning branch first copies all facts into a view.
  ghost function BindingsScan(view: View, bindings: seq<Env>, where: seq<seq<Atom>>): nat {
    if bindings == [] then 0
    else
      var winner := WinningCase(view, bindings[0], where);
      E.FactTotal(CountsOf(view)) + WinningCost(view, bindings[0], where)
      + if winner.Failure? || winner.value >= |where| then 0
        else RebuildCost(view, where[winner.value]) + BindingsScan(view, bindings[1..], where)
  }

  ghost function Scanned(view: View, where: seq<seq<Atom>>, cases: seq<nat>): nat
    requires CasesExist(cases, where)
  {
    RowsCost(view, cases, where) + EvaluationScan(view, where) + BindingsScan(view, BindingsOf(view, where), where)
  }

  // ---------- the bound ----------

  lemma {:induction false} ArityShort(rows: seq<Row>, arity: nat)
    ensures ArityCost(rows, arity) <= |rows|
  {
    if rows != [] {
      ArityShort(rows[1..], arity);
    }
  }

  // Environments of one frontier bind the same variables, so at most one index is built.
  lemma {:induction false} LookUpsCheap(view: View, envs: seq<Env>, pred: string, terms: seq<Term>, indexes: Indexes,
                                        bound: set<string>)
    requires pred in view && forall r :: r in view[pred] ==> |r| == |terms|
    requires forall e :: e in envs ==> e.Keys == bound
    ensures LookUps(envs, pred, terms, view[pred], indexes).cost
         <= FrontierCost(view, envs, Positive(Pred(pred, terms)))
            + if KeyPositions(bound, terms) == {} || (pred, KeyPositions(bound, terms)) in indexes then 0 else |view[pred]|
  {
    if envs != [] {
      assert envs[0] in envs;
      var first := LookUp(envs[0], pred, terms, view[pred], indexes);
      LookUpsCheap(view, envs[1..], pred, terms, first.indexes, bound);
    }
  }

  lemma AtomScanCheap(view: View, envs: seq<Env>, a: Atom, indexes: Indexes, bound: set<string>)
    requires forall e :: e in envs ==> e.Keys == bound
    ensures AtomScan(view, envs, a, indexes).cost <= FrontierCost(view, envs, a) + 2 * Facts(view)
  {
    if a.Positive? && a.atom.Pred? && a.atom.pred in view {
      var rows, arity := view[a.atom.pred], |a.atom.terms|;
      ArityShort(rows, arity);
      RelationSmall(view, a.atom.pred);
      if forall r :: r in rows ==> |r| == arity {
        LookUpsCheap(view, envs, a.atom.pred, a.atom.terms, indexes, bound);
      }
    }
  }

  // One unit for each of n, added up.
  function Times(n: nat, unit: nat): nat {
    if n == 0 then 0 else unit + Times(n - 1, unit)
  }

  lemma {:induction false} TimesAdd(a: nat, b: nat, unit: nat)
    ensures Times(a + b, unit) == Times(a, unit) + Times(b, unit)
  {
    if a > 0 {
      TimesAdd(a - 1, b, unit);
    }
  }

  lemma {:induction false} TimesIsProduct(n: nat, unit: nat)
    ensures Times(n, unit) == n * unit
  {
    if n > 0 {
      TimesIsProduct(n - 1, unit);
      Distribute(n - 1, 1, unit);
    }
  }

  lemma BranchScanStep(view: View, envs: seq<Env>, branch: seq<Atom>, indexes: Indexes, next: Envs, here: Scan)
    requires envs != [] && branch != []
    requires next == ExtendFrontier(view, envs, branch[0]) && here == AtomScan(view, envs, branch[0], indexes)
    ensures BranchScan(view, envs, branch, indexes)
         == here.cost + if next.Failure? then 0 else BranchScan(view, next.value, branch[1..], here.indexes)
    ensures BranchCost(view, envs, branch)
         == FrontierCost(view, envs, branch[0]) + if next.Failure? then 0 else BranchCost(view, next.value, branch[1..])
  {
  }

  lemma {:induction false} BranchScanCheap(view: View, envs: seq<Env>, branch: seq<Atom>, indexes: Indexes, bound: set<string>,
                                           unit: nat)
    requires forall e :: e in envs ==> e.Keys == bound
    requires 2 * Facts(view) <= unit
    ensures BranchScan(view, envs, branch, indexes) <= BranchCost(view, envs, branch) + Times(|branch|, unit)
    decreases |branch|
  {
    if envs == [] || branch == [] {
    } else {
      var next, here := ExtendFrontier(view, envs, branch[0]), AtomScan(view, envs, branch[0], indexes);
      var rest := branch[1..];
      BranchScanStep(view, envs, branch, indexes, next, here);
      AtomScanCheap(view, envs, branch[0], indexes, bound);
      if next.Success? {
        FrontierGrows(view, envs, branch[0], bound);
        BranchScanCheap(view, next.value, rest, here.indexes, bound + AtomVars(branch[0]), unit);
      }
    }
  }

  lemma EvaluationScanStep(view: View, where: seq<seq<Atom>>, before: seq<seq<Atom>>, last: seq<Atom>, evaluated: Envs)
    requires where != [] && before == where[..|where| - 1] && last == where[|where| - 1] && evaluated == EvalBranches(view, before)
    ensures EvaluationScan(view, where)
         == EvaluationScan(view, before) + if evaluated.Failure? then 0 else BranchScan(view, [map[]], last, {})
    ensures EvaluationCost(view, where)
         == EvaluationCost(view, before) + if evaluated.Failure? then 0 else BranchCost(view, [map[]], last)
  {
  }

  lemma {:induction false} EvaluationScanCheap(view: View, where: seq<seq<Atom>>, unit: nat)
    requires 2 * Facts(view) <= unit
    ensures EvaluationScan(view, where) <= EvaluationCost(view, where) + Times(Size(where), unit)
  {
    if where != [] {
      var before, last := where[..|where| - 1], where[|where| - 1];
      var evaluated := EvalBranches(view, before);
      SizeSnoc(where);
      EvaluationScanStep(view, where, before, last, evaluated);
      EvaluationScanCheap(view, before, unit);
      BranchScanCheap(view, [map[]], last, {}, {}, unit);
      TimesAdd(Size(before), |last|, unit);
    }
  }

  // Both costs of the first binding, and whether its winning branch is missing.
  lemma BindingsScanStep(view: View, bindings: seq<Env>, where: seq<seq<Atom>>) returns (own: nat, stops: bool)
    requires bindings != []
    ensures BindingsCost(view, bindings, where) == own + if stops then 0 else BindingsCost(view, bindings[1..], where)
    ensures BindingsScan(view, bindings, where)
         == E.FactTotal(CountsOf(view)) + own + if stops then 0 else BindingsScan(view, bindings[1..], where)
  {
    var winner := WinningCase(view, bindings[0], where);
    stops := winner.Failure? || winner.value >= |where|;
    own := WinningCost(view, bindings[0], where) + if stops then 0 else RebuildCost(view, where[winner.value]);
  }

  lemma {:induction false} BindingsScanCheap(view: View, bindings: seq<Env>, where: seq<seq<Atom>>, unit: nat)
    requires Facts(view) <= unit
    ensures BindingsScan(view, bindings, where) <= BindingsCost(view, bindings, where) + Times(|bindings|, unit)
  {
    if bindings != [] {
      var rest := bindings[1..];
      var own, stops := BindingsScanStep(view, bindings, where);
      BindingsScanCheap(view, rest, where, unit);
    }
  }

  lemma {:induction false} BodyBoundPositive(view: View, where: seq<seq<Atom>>)
    requires where != []
    ensures BodyBound(view, where) >= 1
  {
    var last := where[|where| - 1];
    BodyBoundSnoc(view, where);
    if last == [] {
      BoundEmpty(view);
    } else {
      BoundCons(view, last);
    }
  }

  lemma ExtraArithmetic(b: nat, rows: nat, n: nat, s: nat, c: nat, f: nat)
    requires n <= b && s <= c && c >= 1 && (s > 0 ==> b >= 1)
    ensures s * (2 * f) + n * f <= (b + rows) * (3 * (c * f))
  {
    var unit := c * f;
    E.ProductMonotone(s, f, c, f);
    assert s * (2 * f) == 2 * (s * f);
    if s > 0 {
      E.MultiplyMonotone(1, b, 2 * unit);
    }
    assert 2 * (s * f) <= b * (2 * unit);
    E.MultiplyMonotone(1, c, f);
    E.ProductMonotone(n, f, b, unit);
    assert b * (2 * unit) + b * unit == b * (3 * unit);
    Distribute(b, rows, 3 * unit);
  }

  /** All that is scanned, copied or indexed stays within twice the exact estimate. */
  lemma ScannedBounded(view: View, where: seq<seq<Atom>>, cases: seq<nat>)
    requires CasesExist(cases, where)
    ensures Scanned(view, where, cases) <= 2 * E.ExactWork(Ast(where), CountsOf(view), |cases|)
  {
    var bindings := BindingsOf(view, where);
    InspectionBounded(view, where, cases);
    InspectedParts(view, where, cases);
    EvaluationScanCheap(view, where, 2 * Facts(view));
    BindingsScanCheap(view, bindings, where, Facts(view));
    TimesIsProduct(Size(where), 2 * Facts(view));
    TimesIsProduct(|bindings|, Facts(view));
    if where != [] {
      BodyBoundPositive(view, where);
    }
    ExactWorkIs(view, where, |cases|);
    ExtraArithmetic(BodyBound(view, where), |cases|, |bindings|, Size(where), ConditionBound(where), Facts(view));
  }

  datatype Verdict = Admitted | Rejected(estimated: nat)

  /**
   A bundle is admitted exactly when the exact estimate is within the limit. An admitted verification
   compares at most that many tuples, and scans at most twice as many facts.
   */
  method Gate(view: View, where: seq<seq<Atom>>, cases: seq<nat>) returns (verdict: Verdict)
    requires CasesExist(cases, where)
    ensures verdict.Admitted? <==> E.ExactWork(Ast(where), CountsOf(view), |cases|) <= 100_000
    ensures verdict.Rejected? ==> verdict.estimated == 100_001
    ensures verdict.Admitted? ==> Inspected(view, where, cases) <= 100_000
    ensures verdict.Admitted? ==> Scanned(view, where, cases) <= 200_000
  {
    var estimate := E.EstimateVerificationWork(Ast(where), CountsOf(view), |cases|);
    InspectionBounded(view, where, cases);
    ScannedBounded(view, where, cases);
    verdict := if estimate.value > E.MAX_WORK then Rejected(estimate.value) else Admitted;
  }

  // ---------- the estimate alone is exceeded ----------

  const P_FIVE := Positive(Pred("p", [Const(Num(5))]))
  const FIVE_TERMS := [Const(Num(5))]
  const NOTHING: Env := map[]

  lemma FiveMatches()
    ensures |Candidates(NOTHING, FIVE_TERMS, ONE_FACT["p"])| == 1
    ensures ExtendAtom(ONE_FACT, NOTHING, P_FIVE) == Success([NOTHING])
  {
    var rows := ONE_FACT["p"];
    assert rows == [[Num(5)]] && rows[1..] == [] && FIVE_TERMS[1..] == [] && rows[0][1..] == [];
    assert Agrees(NOTHING, FIVE_TERMS, rows[0]);
    assert Candidates(NOTHING, FIVE_TERMS, rows[1..]) == [];
    assert Candidates(NOTHING, FIVE_TERMS, rows) == rows;
    assert MatchRow(NOTHING, FIVE_TERMS, rows[0]) == Some(NOTHING);
    assert MatchRows(NOTHING, FIVE_TERMS, rows[1..]) == [];
    assert [NOTHING] + [] == [NOTHING];
    assert MatchRows(NOTHING, FIVE_TERMS, rows) == [NOTHING];
  }

  // One fact checked for its arity, one put into an index, and one tried.
  lemma FiveEvaluated()
    ensures EvalBranch(ONE_FACT, [NOTHING], [P_FIVE]) == Success([NOTHING])
    ensures BranchScan(ONE_FACT, [NOTHING], [P_FIVE], {}) == 3
  {
    FiveMatches();
    var rows := ONE_FACT["p"];
    assert rows[1..] == [] && ArityCost(rows, 1) == 1;
    assert 0 in KeyPositions(NOTHING.Keys, FIVE_TERMS);
    assert LookUp(NOTHING, "p", FIVE_TERMS, rows, {}).cost == 2;
    assert [NOTHING][1..] == [];
    assert LookUps([NOTHING], "p", FIVE_TERMS, rows, {}).cost == 2;
    assert AtomScan(ONE_FACT, [NOTHING], P_FIVE, {}).cost == 3;
    assert ExtendFrontier(ONE_FACT, [NOTHING][1..], P_FIVE) == Success([]);
    assert [NOTHING] + [] == [NOTHING];
    assert ExtendFrontier(ONE_FACT, [NOTHING], P_FIVE) == Success([NOTHING]);
    assert [P_FIVE][1..] == [];
    assert EvalBranch(ONE_FACT, [NOTHING], [P_FIVE][1..]) == Success([NOTHING]);
  }

  // One fact copied, one scanned to check the binding, and one to rebuild its receipt.
  lemma FiveChecked()
    ensures BranchHolds(ONE_FACT, NOTHING, [P_FIVE]) == Success(true)
    ensures CheckCost(ONE_FACT, NOTHING, [P_FIVE]) == 1 && RebuildCost(ONE_FACT, [P_FIVE]) == 1
  {
    assert [P_FIVE][1..] == [] && FIVE_TERMS[1..] == [];
    assert Ground(NOTHING, FIVE_TERMS[1..]) == Some([]);
    var none: WhereEval.Row := [];
    assert [Num(5)] + none == [Num(5)];
    assert Ground(NOTHING, FIVE_TERMS) == Some([Num(5)]);
    assert AtomHolds(ONE_FACT, NOTHING, P_FIVE) == Success(true);
    assert RebuildCost(ONE_FACT, [P_FIVE][1..]) == 0;
  }

  lemma FiveBindings()
    ensures BindingsScan(ONE_FACT, [NOTHING], [[P_FIVE]]) == 3
  {
    FiveChecked();
    var counts := CountsOf(ONE_FACT);
    E.FactTotalTakes(counts, "p");
    assert counts - {"p"} == map[];
    assert E.FactTotal(counts) == 1;
    assert [NOTHING][1..] == [] && [[P_FIVE]][1..] == [];
    assert WinningCase(ONE_FACT, NOTHING, [[P_FIVE]]) == Success(0);
    assert BindingsScan(ONE_FACT, [NOTHING][1..], [[P_FIVE]]) == 0;
  }

  /** The fact p(5) and the condition p(5): twice the exact estimate is scanned, so the bound is met. */
  lemma EstimateExceeded()
    ensures Scanned(ONE_FACT, [[P_FIVE]], []) == 6
    ensures E.ExactWork(Ast([[P_FIVE]]), CountsOf(ONE_FACT), 0) == 3
  {
    var where := [[P_FIVE]];
    FiveEvaluated();
    FiveBindings();
    assert SafeBranch([P_FIVE], {}) by {
      assert [P_FIVE][1..] == [];
    }
    SingleBranch(ONE_FACT, [P_FIVE], NOTHING);
    assert where[..0] == [];
    assert EvalBranches(ONE_FACT, where[..0]) == Success([]) && EvaluationScan(ONE_FACT, where[..0]) == 0;
    assert EvaluationScan(ONE_FACT, where) == 3;
    assert BindingsOf(ONE_FACT, where) == [NOTHING];
    OneFactEstimate();
    assert AstBranch([P_FIVE]) == AstBranch([P_X]);
    assert Ast([[P_FIVE]]) == Ast([[P_X]]);
  }
}
