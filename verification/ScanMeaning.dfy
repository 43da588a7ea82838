/** What is scanned besides the compared tuples: arity checks, look-up indexes and copies, step by step. */
module ScanMeaning {
  import opened Wrappers
  import opened WhereEval
  import opened SeededBranches
  import opened WinningCases
  import opened WorkGate
  import opened FullScans
  import opened CostMeaning
  import E = Estimate

  // ---------- keys ----------

  // The positions of constants and of variables that are bound.
  ghost function FixedPositions(bound: set<string>, terms: seq<Term>): set<nat> {
    set i: nat | i < |terms| && (terms[i].Const? || terms[i].name in bound)
  }

  ghost predicate LookedUp(view: View, a: Atom) {
    && a.Positive? && a.atom.Pred? && a.atom.pred in view
    && forall i :: 0 <= i < |view[a.atom.pred]| ==> |view[a.atom.pred][i]| == |a.atom.terms|
  }

  // The index that an atom looks its rows up in: its predicate and its fixed positions, if it has any.
  ghost function KeyOf(view: View, a: Atom, bound: set<string>): Indexes {
    if LookedUp(view, a) && FixedPositions(bound, a.atom.terms) != {} then {(a.atom.pred, FixedPositions(bound, a.atom.terms))} else {}
  }

  lemma PositionsAre(bound: set<string>, terms: seq<Term>)
    ensures KeyPositions(bound, terms) == FixedPositions(bound, terms)
  {
    forall i: nat | i < |terms|
      ensures TermVars(terms[i]) <= bound <==> terms[i].Const? || terms[i].name in bound
    {
    }
  }

  lemma {:induction false} LookUpsExact(view: View, envs: seq<Env>, pred: string, terms: seq<Term>, indexes: Indexes,
                                        bound: set<string>, key: Indexes)
    requires pred in view && forall r :: r in view[pred] ==> |r| == |terms|
    requires forall e :: e in envs ==> e.Keys == bound
    requires key == if KeyPositions(bound, terms) == {} then {} else {(pred, KeyPositions(bound, terms))}
    ensures var looked := LookUps(envs, pred, terms, view[pred], indexes);
      && looked.cost == FrontierCost(view, envs, Positive(Pred(pred, terms)))
                        + (if envs == [] || key <= indexes then 0 else |view[pred]|)
      && looked.indexes == if envs == [] then indexes else indexes + key
  {
    if envs != [] {
      assert envs[0] in envs;
      var first := LookUp(envs[0], pred, terms, view[pred], indexes);
      assert first.indexes == indexes + key;
      LookUpsExact(view, envs[1..], pred, terms, first.indexes, bound, key);
      assert first.indexes + key == first.indexes;
    }
  }

  // ---------- one atom ----------

  ghost function OfArity(arity: nat): Row -> bool {
    row => |row| == arity
  }

  lemma {:induction false} ArityMeans(rows: seq<Row>, arity: nat)
    ensures Tried(rows, OfArity(arity), ArityCost(rows, arity))
  {
    if rows != [] && |rows[0]| == arity {
      ArityMeans(rows[1..], arity);
      var n := ArityCost(rows[1..], arity);
      forall j | 0 <= j < n
        ensures OfArity(arity)(rows[j])
      {
        assert j > 0 ==> rows[j] == rows[1..][j - 1];
      }
      assert n < |rows| - 1 ==> rows[n] == rows[1..][n - 1];
    }
  }

  // The rows checked for their arity, up to the first that differs; and all rows once for a new index.
  ghost predicate ExtraOfAtom(view: View, a: Atom, key: Indexes, known: bool, n: nat) {
    if a.Positive? && a.atom.Pred? && a.atom.pred in view
    then exists checked: nat :: Tried(view[a.atom.pred], OfArity(|a.atom.terms|), checked)
           && n == checked + if known then 0 else |view[a.atom.pred]|
    else n == 0
  }

  lemma AtomScanExact(view: View, envs: seq<Env>, a: Atom, indexes: Indexes, bound: set<string>) returns (extra: nat)
    requires envs != [] && forall e :: e in envs ==> e.Keys == bound
    ensures var here, key := AtomScan(view, envs, a, indexes), KeyOf(view, a, bound);
      && here.cost == FrontierCost(view, envs, a) + extra && here.indexes == indexes + key
      && ExtraOfAtom(view, a, key, key <= indexes, extra)
  {
    extra := 0;
    var key := KeyOf(view, a, bound);
    if a.Positive? && a.atom.Pred? {
      var pred, terms := a.atom.pred, a.atom.terms;
      PositionsAre(bound, terms);
      if pred in view {
        var rows := view[pred];
        ArityMeans(rows, |terms|);
        extra := ArityCost(rows, |terms|) + if key <= indexes then 0 else |rows|;
        if LookedUp(view, a) {
          assert forall r :: r in rows ==> |r| == |terms|;
          LookUpsExact(view, envs, pred, terms, indexes, bound, key);
        } else {
          var i :| 0 <= i < |rows| && |rows[i]| != |terms|;
          assert rows[i] in rows;
          assert ExtendPred(view, envs[0], pred, terms).Failure?;
        }
      }
    } else {
      NoScan(view, envs, a);
    }
  }

  lemma {:induction false} NoScan(view: View, envs: seq<Env>, a: Atom)
    requires !(a.Positive? && a.atom.Pred?)
    ensures FrontierCost(view, envs, a) == 0
  {
    if envs != [] {
      NoScan(view, envs[1..], a);
    }
  }

  // ---------- one branch ----------

  ghost function KeyAt(view: View, branch: seq<Atom>, bound: set<string>, k: nat): Indexes
    requires k < |branch|
  {
    KeyOf(view, branch[k], bound + BranchVars(branch[..k]))
  }

  // No index has to be built: there is no key, or the index was there before or built for an earlier atom.
  ghost predicate KnownAt(view: View, branch: seq<Atom>, bound: set<string>, indexes: Indexes, k: nat)
    requires k < |branch|
  {
    KeyAt(view, branch, bound, k) <= indexes || exists j :: 0 <= j < k && KeyAt(view, branch, bound, j) == KeyAt(view, branch, bound, k)
  }

  ghost predicate ExtraAt(view: View, branch: seq<Atom>, bound: set<string>, indexes: Indexes, k: nat, n: nat)
    requires k < |branch|
  {
    ExtraOfAtom(view, branch[k], KeyAt(view, branch, bound, k), KnownAt(view, branch, bound, indexes, k), n)
  }

  // The compared tuples and the extras of every atom that is run.
  ghost predicate ScanSteps(view: View, envs: seq<Env>, branch: seq<Atom>, bound: set<string>, indexes: Indexes,
                            m: nat, costs: seq<nat>, extras: seq<nat>) {
    BranchSteps(view, envs, branch, m, costs) && Extras(view, branch, bound, indexes, m, extras)
  }

  ghost predicate Extras(view: View, branch: seq<Atom>, bound: set<string>, indexes: Indexes, m: nat, extras: seq<nat>) {
    |extras| == m <= |branch| && forall k :: 0 <= k < m ==> ExtraAt(view, branch, bound, indexes, k, extras[k])
  }

  ghost predicate ScanOfBranch(view: View, envs: seq<Env>, branch: seq<Atom>, bound: set<string>, indexes: Indexes, n: nat) {
    exists m: nat, costs, extras :: ScanSteps(view, envs, branch, bound, indexes, m, costs, extras) && n == Total(costs) + Total(extras)
  }

  lemma LaterKey(view: View, branch: seq<Atom>, bound: set<string>, k: nat)
    requires k < |branch| - 1
    ensures KeyAt(view, branch[1..], bound + AtomVars(branch[0]), k) == KeyAt(view, branch, bound, k + 1)
  {
    BranchVarsCons(branch[..k + 1]);
    assert branch[..k + 1][1..] == branch[1..][..k];
    assert bound + AtomVars(branch[0]) + BranchVars(branch[1..][..k]) == bound + BranchVars(branch[..k + 1]);
  }

  lemma LaterKnown(view: View, branch: seq<Atom>, bound: set<string>, indexes: Indexes, k: nat)
    requires k < |branch| - 1
    ensures KnownAt(view, branch[1..], bound + AtomVars(branch[0]), indexes + KeyAt(view, branch, bound, 0), k)
      <==> KnownAt(view, branch, bound, indexes, k + 1)
  {
    var rest, bound' := branch[1..], bound + AtomVars(branch[0]);
    var key, first := KeyAt(view, branch, bound, k + 1), KeyAt(view, branch, bound, 0);
    LaterKey(view, branch, bound, k);
    assert key <= indexes + first <==> key <= indexes || key == first;
    forall j | 0 <= j < k
      ensures KeyAt(view, rest, bound', j) == KeyAt(view, branch, bound, j + 1)
    {
      LaterKey(view, branch, bound, j);
    }
    if j :| 0 <= j < k + 1 && KeyAt(view, branch, bound, j) == key {
      assert j > 0 ==> KeyAt(view, rest, bound', j - 1) == key;
    }
  }

  lemma LaterExtra(view: View, branch: seq<Atom>, bound: set<string>, indexes: Indexes, k: nat, n: nat)
    requires k < |branch| - 1
    requires ExtraAt(view, branch[1..], bound + AtomVars(branch[0]), indexes + KeyAt(view, branch, bound, 0), k, n)
    ensures ExtraAt(view, branch, bound, indexes, k + 1, n)
  {
    LaterKey(view, branch, bound, k);
    LaterKnown(view, branch, bound, indexes, k);
  }

  lemma FirstExtra(view: View, branch: seq<Atom>, bound: set<string>, indexes: Indexes, n: nat)
    requires branch != []
    ensures KeyAt(view, branch, bound, 0) == KeyOf(view, branch[0], bound)
    ensures ExtraOfAtom(view, branch[0], KeyOf(view, branch[0], bound), KeyOf(view, branch[0], bound) <= indexes, n)
      ==> ExtraAt(view, branch, bound, indexes, 0, n)
  {
    assert branch[..0] == [] && bound + BranchVars(branch[..0]) == bound;
  }

  lemma ExtrasNext(view: View, branch: seq<Atom>, bound: set<string>, indexes: Indexes, m: nat, extras: seq<nat>, extra: nat)
    requires branch != [] && ExtraAt(view, branch, bound, indexes, 0, extra)
    requires Extras(view, branch[1..], bound + AtomVars(branch[0]), indexes + KeyAt(view, branch, bound, 0), m, extras)
    ensures Extras(view, branch, bound, indexes, m + 1, [extra] + extras)
  {
    forall k | 0 <= k < m + 1
      ensures ExtraAt(view, branch, bound, indexes, k, ([extra] + extras)[k])
    {
      if k > 0 {
        LaterExtra(view, branch, bound, indexes, k - 1, extras[k - 1]);
      }
    }
  }

  lemma TotalCons(n: nat, rest: seq<nat>)
    ensures Total([n] + rest) == n + Total(rest)
  {
    assert ([n] + rest)[1..] == rest;
  }

  lemma ScanStops(view: View, envs: seq<Env>, branch: seq<Atom>, bound: set<string>, indexes: Indexes, extra: nat)
    requires branch != [] && envs != [] && ExtendFrontier(view, envs, branch[0]).Failure?
    requires ExtraAt(view, branch, bound, indexes, 0, extra)
    ensures ScanOfBranch(view, envs, branch, bound, indexes, FrontierCost(view, envs, branch[0]) + extra)
  {
    var none: seq<nat> := [];
    var here := FrontierCost(view, envs, branch[0]);
    FirstFrontier(view, envs, branch);
    assert branch[..1][0] == branch[0] && branch[..1][1..] == [];
    TotalCons(here, none);
    TotalCons(extra, none);
    assert [here] + none == [here] && [extra] + none == [extra];
    assert ScanSteps(view, envs, branch, bound, indexes, 1, [here], [extra]);
  }

  lemma NothingScanned(view: View, envs: seq<Env>, branch: seq<Atom>, bound: set<string>, indexes: Indexes)
    requires envs == [] || branch == []
    ensures ScanOfBranch(view, envs, branch, bound, indexes, 0)
  {
    var none: seq<nat> := [];
    assert branch[..0] == [];
    assert ScanSteps(view, envs, branch, bound, indexes, 0, none, none);
  }

  lemma {:induction false} BranchScanMeans(view: View, envs: seq<Env>, branch: seq<Atom>, bound: set<string>, indexes: Indexes)
    requires forall e :: e in envs ==> e.Keys == bound
    ensures ScanOfBranch(view, envs, branch, bound, indexes, BranchScan(view, envs, branch, indexes))
    decreases |branch|
  {
    if envs == [] || branch == [] {
      NothingScanned(view, envs, branch, bound, indexes);
    } else {
      var next, here := ExtendFrontier(view, envs, branch[0]), AtomScan(view, envs, branch[0], indexes);
      BranchScanStep(view, envs, branch, indexes, next, here);
      var extra := AtomScanExact(view, envs, branch[0], indexes, bound);
      FirstExtra(view, branch, bound, indexes, extra);
      if next.Success? {
        FrontierGrows(view, envs, branch[0], bound);
        BranchScanMeans(view, next.value, branch[1..], bound + AtomVars(branch[0]), here.indexes);
        ScanGoesOn(view, envs, branch, next.value, bound, indexes, extra, BranchScan(view, next.value, branch[1..], here.indexes));
      } else {
        ScanStops(view, envs, branch, bound, indexes, extra);
      }
    }
  }

  // Costs and extras of a run from one atom on.
  lemma StepsGoOn(view: View, envs: seq<Env>, branch: seq<Atom>, next: seq<Env>, bound: set<string>, indexes: Indexes,
                  extra: nat, m: nat, costs: seq<nat>, extras: seq<nat>)
    requires branch != [] && envs != [] && ExtendFrontier(view, envs, branch[0]) == Success(next)
    requires ExtraAt(view, branch, bound, indexes, 0, extra)
    requires BranchSteps(view, next, branch[1..], m, costs)
    requires Extras(view, branch[1..], bound + AtomVars(branch[0]), indexes + KeyAt(view, branch, bound, 0), m, extras)
    ensures ScanSteps(view, envs, branch, bound, indexes, m + 1, [FrontierCost(view, envs, branch[0])] + costs, [extra] + extras)
  {
    BranchStepsNext(view, envs, branch, next, m, costs, [FrontierCost(view, envs, branch[0])] + costs);
    ExtrasNext(view, branch, bound, indexes, m, extras, extra);
  }

  lemma ScanIs(view: View, envs: seq<Env>, branch: seq<Atom>, bound: set<string>, indexes: Indexes, m: nat,
               costs: seq<nat>, extras: seq<nat>, n: nat)
    requires ScanSteps(view, envs, branch, bound, indexes, m, costs, extras) && n == Total(costs) + Total(extras)
    ensures ScanOfBranch(view, envs, branch, bound, indexes, n)
  {
  }

  lemma ScanGoesOn(view: View, envs: seq<Env>, branch: seq<Atom>, next: seq<Env>, bound: set<string>, indexes: Indexes,
                   extra: nat, rest: nat)
    requires branch != [] && envs != [] && ExtendFrontier(view, envs, branch[0]) == Success(next)
    requires ExtraAt(view, branch, bound, indexes, 0, extra)
    requires ScanOfBranch(view, next, branch[1..], bound + AtomVars(branch[0]), indexes + KeyAt(view, branch, bound, 0), rest)
    ensures ScanOfBranch(view, envs, branch, bound, indexes, FrontierCost(view, envs, branch[0]) + extra + rest)
  {
    var bound', indexes' := bound + AtomVars(branch[0]), indexes + KeyAt(view, branch, bound, 0);
    var m: nat, costs, extras :| ScanSteps(view, next, branch[1..], bound', indexes', m, costs, extras)
      && rest == Total(costs) + Total(extras);
    StepsGoOn(view, envs, branch, next, bound, indexes, extra, m, costs, extras);
    var here := FrontierCost(view, envs, branch[0]);
    TotalCons(here, costs);
    TotalCons(extra, extras);
    ScanIs(view, envs, branch, bound, indexes, m + 1, [here] + costs, [extra] + extras, here + extra + rest);
  }

  // ---------- whole verifications ----------

  ghost function ScanOfRun(view: View): seq<Atom> -> nat {
    branch => BranchScan(view, [map[]], branch, {})
  }

  lemma ScanNext(view: View, where: seq<seq<Atom>>, before: seq<seq<Atom>>, last: seq<Atom>, n: nat, total: nat)
    requires where == before + [last] && CostOfTried(before, ScanOfRun(view), Runs(view), n)
    requires total == n + if EvalBranches(view, before).Failure? then 0 else BranchScan(view, [map[]], last, {})
    ensures CostOfTried(where, ScanOfRun(view), Runs(view), total)
  {
    AllRun(view, before);
    TriedSnoc(before, last, ScanOfRun(view), Runs(view), n);
  }

  lemma {:induction false} EvaluationScanMeans(view: View, where: seq<seq<Atom>>)
    ensures CostOfTried(where, ScanOfRun(view), Runs(view), EvaluationScan(view, where))
  {
    if where == [] {
      NothingTried(ScanOfRun(view), Runs(view));
    } else {
      var before, last := where[..|where| - 1], where[|where| - 1];
      EvaluationScanMeans(view, before);
      EvaluationScanStep(view, where, before, last, EvalBranches(view, before));
      ScanNext(view, where, before, last, EvaluationScan(view, before), EvaluationScan(view, where));
    }
  }

  // A binding costs a copy of all facts, the search for its branch, and rebuilding it.
  ghost function CopyAndSearch(view: View, where: seq<seq<Atom>>): Env -> nat {
    binding => E.FactTotal(CountsOf(view)) + SearchAndRebuild(view, where, binding)
  }

  lemma {:induction false} BindingsScanMeans(view: View, bindings: seq<Env>, where: seq<seq<Atom>>)
    ensures CostOfTried(bindings, CopyAndSearch(view, where), HasWinner(view, where), BindingsScan(view, bindings, where))
  {
    if bindings == [] {
      NothingTried(CopyAndSearch(view, where), HasWinner(view, where));
    } else {
      BindingsScanMeans(view, bindings[1..], where);
      OneBinding(view, bindings[0], where);
      TriedNext(bindings, CopyAndSearch(view, where), HasWinner(view, where), BindingsScan(view, bindings[1..], where));
      var winner := WinningCase(view, bindings[0], where);
      assert HasWinner(view, where)(bindings[0]) <==> winner.Success? && winner.value < |where| by {
        if winner.Success? && winner.value < |where| {
          assert Wins(view, bindings[0], where, winner.value);
        }
      }
    }
  }

  /**
   Everything scanned: the branch of every captured row rebuilt; branch by branch, until one raises, the compared
   tuples, arity checks and new indexes of its atoms; and for every binding a copy of all facts, the search and
   the rebuilding.
   */
  lemma ScannedMeans(view: View, where: seq<seq<Atom>>, cases: seq<nat>)
    requires CasesExist(cases, where)
    ensures Scanned(view, where, cases)
         == SumBy(cases, RebuildOf(view, where)) + EvaluationScan(view, where) + BindingsScan(view, BindingsOf(view, where), where)
    ensures CostOfTried(where, ScanOfRun(view), Runs(view), EvaluationScan(view, where))
    ensures forall i :: 0 <= i < |where| ==> ScanOfBranch(view, [map[]], where[i], {}, {}, BranchScan(view, [map[]], where[i], {}))
    ensures CostOfTried(BindingsOf(view, where), CopyAndSearch(view, where), HasWinner(view, where),
                        BindingsScan(view, BindingsOf(view, where), where))
  {
    RowsCostMeans(view, cases, where);
    EvaluationScanMeans(view, where);
    BindingsScanMeans(view, BindingsOf(view, where), where);
    forall i | 0 <= i < |where|
      ensures ScanOfBranch(view, [map[]], where[i], {}, {}, BranchScan(view, [map[]], where[i], {}))
    {
      BranchScanMeans(view, [map[]], where[i], {}, {});
    }
  }
}
