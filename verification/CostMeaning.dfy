/** What is counted as inspected: one tuple after the other, step by step, up to the first step that stops. */
module CostMeaning {
  import opened Wrappers
  import opened WhereEval
  import opened Positions
  import opened WinningCases
  import opened WorkGate

  // ---------- steps ----------

  ghost function SumBy<T>(items: seq<T>, cost: T -> nat): nat {
    if items == [] then 0 else cost(items[0]) + SumBy(items[1..], cost)
  }

  // The first m items are tried: all, or those up to the first that stops.
  ghost predicate Tried<T(!new)>(items: seq<T>, goes: T -> bool, m: nat) {
    && m <= |items| && (forall j :: 0 <= j < m - 1 ==> goes(items[j]))
    && (m < |items| ==> m > 0 && !goes(items[m - 1]))
  }

  ghost predicate CostOfTried<T(!new)>(items: seq<T>, cost: T -> nat, goes: T -> bool, n: nat) {
    exists m: nat :: Tried(items, goes, m) && n == SumBy(items[..m], cost)
  }

  lemma NothingTried<T(!new)>(cost: T -> nat, goes: T -> bool)
    ensures CostOfTried([], cost, goes, 0)
  {
    var none: seq<T> := [];
    assert Tried(none, goes, 0) && none[..0] == none;
  }

  lemma TriedNext<T(!new)>(items: seq<T>, cost: T -> nat, goes: T -> bool, rest: nat)
    requires items != [] && CostOfTried(items[1..], cost, goes, rest)
    ensures CostOfTried(items, cost, goes, cost(items[0]) + if goes(items[0]) then rest else 0)
  {
    if goes(items[0]) {
      var m: nat :| Tried(items[1..], goes, m) && rest == SumBy(items[1..][..m], cost);
      assert items[..m + 1][1..] == items[1..][..m];
      forall j | 0 <= j < m
        ensures goes(items[j])
      {
        assert j > 0 ==> items[j] == items[1..][j - 1];
      }
      assert m < |items| - 1 ==> items[m] == items[1..][m - 1];
      assert Tried(items, goes, m + 1);
    } else {
      assert items[..1][1..] == [] && items[..1][0] == items[0];
      assert Tried(items, goes, 1) && SumBy(items[..1], cost) == cost(items[0]);
    }
  }

  // ---------- evaluation ----------

  // Equal to the atom at every constant and every bound variable.
  ghost predicate Fitting(env: Env, terms: seq<Term>, row: Row) {
    |row| == |terms| && forall i :: 0 <= i < |terms| ==> FitsAt(env, terms[i], row[i])
  }

  ghost predicate FitsAt(env: Env, t: Term, v: Value) {
    match t
    case Const(c) => v == c
    case Var(x) => x in env ==> v == env[x]
  }

  ghost function FittingRow(env: Env, terms: seq<Term>): Row -> bool {
    row => Fitting(env, terms, row)
  }

  lemma AgreesMeans(env: Env, terms: seq<Term>, row: Row)
    requires |terms| == |row|
    ensures Agrees(env, terms, row) <==> Fitting(env, terms, row)
  {
    if Agrees(env, terms, row) {
      forall i | 0 <= i < |terms|
        ensures FitsAt(env, terms[i], row[i])
      {
        assert Lookup(env, terms[i]).Some? ==> Lookup(env, terms[i]).value == row[i];
      }
    }
    if Fitting(env, terms, row) {
      forall i | 0 <= i < |terms|
        ensures Lookup(env, terms[i]).Some? ==> Lookup(env, terms[i]).value == row[i]
      {
        assert FitsAt(env, terms[i], row[i]);
      }
    }
  }

  ghost predicate FittingTaken(env: Env, terms: seq<Term>, rows: seq<Row>, taken: seq<Row>) {
    exists at :: Picks(rows, FittingRow(env, terms), at) && TakenAt(rows, at, taken)
  }

  lemma FittingNext(env: Env, terms: seq<Term>, rows: seq<Row>, rest: seq<Row>)
    requires rows != [] && FittingTaken(env, terms, rows[1..], rest)
    ensures FittingTaken(env, terms, rows, (if Fitting(env, terms, rows[0]) then [rows[0]] else []) + rest)
  {
    var at :| Picks(rows[1..], FittingRow(env, terms), at) && TakenAt(rows[1..], at, rest);
    PicksShifted(rows, FittingRow(env, terms), at);
    TakenShifted(rows, at, rest, Fitting(env, terms, rows[0]));
  }

  /** The look-up index yields the rows that fit the atom at every constant and bound variable, in order. */
  lemma {:induction false} CandidatesMean(env: Env, terms: seq<Term>, rows: seq<Row>)
    requires forall r :: r in rows ==> |r| == |terms|
    ensures FittingTaken(env, terms, rows, Candidates(env, terms, rows))
  {
    if rows == [] {
      assert Picks(rows, FittingRow(env, terms), []) && TakenAt(rows, [], []);
    } else {
      CandidatesMean(env, terms, rows[1..]);
      AgreesMeans(env, terms, rows[0]);
      FittingNext(env, terms, rows, Candidates(env, terms, rows[1..]));
    }
  }

  // The number of rows an atom is compared with: those the index yields if the predicate can be looked up.
  ghost predicate Compared(view: View, env: Env, a: Atom, n: nat) {
    if a.Positive? && a.atom.Pred? && a.atom.pred in view
       && forall i :: 0 <= i < |view[a.atom.pred]| ==> |view[a.atom.pred][i]| == |a.atom.terms|
    then exists at :: Picks(view[a.atom.pred], FittingRow(env, a.atom.terms), at) && n == |at|
    else n == 0
  }

  lemma ExtensionMeans(view: View, env: Env, a: Atom)
    ensures Compared(view, env, a, ExtensionCost(view, env, a))
  {
    if a.Positive? && a.atom.Pred? && a.atom.pred in view {
      var rows, terms := view[a.atom.pred], a.atom.terms;
      if forall i :: 0 <= i < |rows| ==> |rows[i]| == |terms| {
        assert forall r :: r in rows ==> |r| == |terms|;
        CandidatesMean(env, terms, rows);
      } else {
        var i :| 0 <= i < |rows| && |rows[i]| != |terms|;
        assert rows[i] in rows;
      }
    }
  }

  ghost function ExtensionOf(view: View, a: Atom): Env -> nat {
    env => ExtensionCost(view, env, a)
  }

  ghost function Extendable(view: View, a: Atom): Env -> bool {
    env => ExtendAtom(view, env, a).Success?
  }

  // Environment after environment, up to the first that raises.
  lemma {:induction false} FrontierCostMeans(view: View, envs: seq<Env>, a: Atom)
    ensures CostOfTried(envs, ExtensionOf(view, a), Extendable(view, a), FrontierCost(view, envs, a))
  {
    if envs == [] {
      NothingTried(ExtensionOf(view, a), Extendable(view, a));
    } else {
      FrontierCostMeans(view, envs[1..], a);
      TriedNext(envs, ExtensionOf(view, a), Extendable(view, a), FrontierCost(view, envs[1..], a));
    }
  }

  ghost function Total(costs: seq<nat>): nat {
    if costs == [] then 0 else costs[0] + Total(costs[1..])
  }

  // Atom after atom, each on the frontier that the atoms before it leave.
  ghost predicate BranchSteps(view: View, envs: seq<Env>, branch: seq<Atom>, m: nat, costs: seq<nat>) {
    && m <= |branch| && |costs| == m
    && (forall k :: 0 <= k < m ==> FrontierAt(view, envs, branch, k, costs[k]))
    && (m < |branch| ==> Stops(view, envs, branch, m))
  }

  // The frontier before atom k is not empty, and running the atom on it costs n.
  ghost predicate FrontierAt(view: View, envs: seq<Env>, branch: seq<Atom>, k: nat, n: nat)
    requires k < |branch|
  {
    var before := EvalBranch(view, envs, branch[..k]);
    before.Success? && before.value != [] && n == FrontierCost(view, before.value, branch[k])
  }

  // No environment is left, or one raised.
  ghost predicate Stops(view: View, envs: seq<Env>, branch: seq<Atom>, m: nat)
    requires m <= |branch|
  {
    var after := EvalBranch(view, envs, branch[..m]);
    after.Failure? || after.value == []
  }

  ghost predicate CostOfBranch(view: View, envs: seq<Env>, branch: seq<Atom>, n: nat) {
    exists m: nat, costs :: BranchSteps(view, envs, branch, m, costs) && n == Total(costs)
  }

  lemma BranchAfter(view: View, envs: seq<Env>, branch: seq<Atom>, next: seq<Env>, k: nat)
    requires branch != [] && envs != [] && k < |branch| && ExtendFrontier(view, envs, branch[0]) == Success(next)
    ensures EvalBranch(view, envs, branch[..k + 1]) == EvalBranch(view, next, branch[1..][..k])
  {
    assert branch[..k + 1][1..] == branch[1..][..k];
  }

  lemma FirstFrontier(view: View, envs: seq<Env>, branch: seq<Atom>)
    requires branch != [] && envs != []
    ensures FrontierAt(view, envs, branch, 0, FrontierCost(view, envs, branch[0]))
  {
    assert branch[..0] == [];
  }

  lemma LaterFrontier(view: View, envs: seq<Env>, branch: seq<Atom>, next: seq<Env>, k: nat, n: nat)
    requires branch != [] && envs != [] && ExtendFrontier(view, envs, branch[0]) == Success(next)
    requires k < |branch| - 1 && FrontierAt(view, next, branch[1..], k, n)
    ensures FrontierAt(view, envs, branch, k + 1, n)
  {
    BranchAfter(view, envs, branch, next, k);
    assert branch[1..][k] == branch[k + 1];
  }

  lemma LaterStop(view: View, envs: seq<Env>, branch: seq<Atom>, next: seq<Env>, m: nat)
    requires branch != [] && envs != [] && ExtendFrontier(view, envs, branch[0]) == Success(next)
    requires m < |branch| - 1 && Stops(view, next, branch[1..], m)
    ensures Stops(view, envs, branch, m + 1)
  {
    BranchAfter(view, envs, branch, next, m);
  }

  lemma BranchStepsNext(view: View, envs: seq<Env>, branch: seq<Atom>, next: seq<Env>, m: nat, costs: seq<nat>, all: seq<nat>)
    requires branch != [] && envs != [] && ExtendFrontier(view, envs, branch[0]) == Success(next)
    requires BranchSteps(view, next, branch[1..], m, costs) && all == [FrontierCost(view, envs, branch[0])] + costs
    ensures BranchSteps(view, envs, branch, m + 1, all)
  {
    forall k | 0 <= k < m + 1
      ensures FrontierAt(view, envs, branch, k, all[k])
    {
      if k > 0 {
        LaterFrontier(view, envs, branch, next, k - 1, costs[k - 1]);
      } else {
        FirstFrontier(view, envs, branch);
      }
    }
    if m + 1 < |branch| {
      LaterStop(view, envs, branch, next, m);
    }
  }

  lemma {:induction false} BranchCostMeans(view: View, envs: seq<Env>, branch: seq<Atom>)
    ensures CostOfBranch(view, envs, branch, BranchCost(view, envs, branch))
    decreases |branch|
  {
    var none: seq<nat> := [];
    assert branch[..0] == [];
    if envs == [] || branch == [] {
      assert BranchSteps(view, envs, branch, 0, none);
    } else {
      var next := ExtendFrontier(view, envs, branch[0]);
      var here := FrontierCost(view, envs, branch[0]);
      if next.Success? {
        BranchCostMeans(view, next.value, branch[1..]);
        var m: nat, costs :| BranchSteps(view, next.value, branch[1..], m, costs)
          && BranchCost(view, next.value, branch[1..]) == Total(costs);
        BranchStepsNext(view, envs, branch, next.value, m, costs, [here] + costs);
        assert ([here] + costs)[1..] == costs;
      } else {
        assert branch[..1][0] == branch[0] && branch[..1][1..] == [] && [here][1..] == none;
        assert Total([here]) == here;
        assert BranchSteps(view, envs, branch, 1, [here]);
      }
    }
  }

  lemma {:induction false} SumBySnoc<T>(items: seq<T>, x: T, cost: T -> nat)
    ensures SumBy(items + [x], cost) == SumBy(items, cost) + cost(x)
  {
    if items == [] {
      assert (items + [x])[1..] == [];
    } else {
      assert (items + [x])[1..] == items[1..] + [x];
      SumBySnoc(items[1..], x, cost);
    }
  }

  lemma TriedSnoc<T(!new)>(items: seq<T>, x: T, cost: T -> nat, goes: T -> bool, n: nat)
    requires CostOfTried(items, cost, goes, n)
    ensures CostOfTried(items + [x], cost, goes, n + if forall i :: 0 <= i < |items| ==> goes(items[i]) then cost(x) else 0)
  {
    var m: nat :| Tried(items, goes, m) && n == SumBy(items[..m], cost);
    var all := items + [x];
    if forall i :: 0 <= i < |items| ==> goes(items[i]) {
      SumBySnoc(items, x, cost);
      assert items[..m] == items && all[..|items| + 1] == all;
      assert Tried(all, goes, |items| + 1);
    } else {
      assert all[..m] == items[..m];
      assert m > 0 ==> all[m - 1] == items[m - 1];
      assert Tried(all, goes, m);
    }
  }

  ghost function CostOfRun(view: View): seq<Atom> -> nat {
    branch => BranchCost(view, [map[]], branch)
  }

  ghost function Runs(view: View): seq<Atom> -> bool {
    branch => EvalBranch(view, [map[]], branch).Success?
  }

  lemma {:induction false} AllRun(view: View, where: seq<seq<Atom>>)
    ensures EvalBranches(view, where).Success? <==> forall i :: 0 <= i < |where| ==> Runs(view)(where[i])
  {
    if where != [] {
      AllRun(view, where[..|where| - 1]);
    }
  }

  lemma EvaluationNext(view: View, before: seq<seq<Atom>>, last: seq<Atom>, n: nat)
    requires CostOfTried(before, CostOfRun(view), Runs(view), n)
    ensures CostOfTried(before + [last], CostOfRun(view), Runs(view),
                        n + if EvalBranches(view, before).Success? then BranchCost(view, [map[]], last) else 0)
  {
    AllRun(view, before);
    TriedSnoc(before, last, CostOfRun(view), Runs(view), n);
  }

  // Branch after branch, up to the first that raises.
  lemma {:induction false} EvaluationCostMeans(view: View, where: seq<seq<Atom>>)
    ensures CostOfTried(where, CostOfRun(view), Runs(view), EvaluationCost(view, where))
  {
    if where == [] {
      NothingTried(CostOfRun(view), Runs(view));
    } else {
      var before, last := where[..|where| - 1], where[|where| - 1];
      EvaluationCostMeans(view, before);
      EvaluationNext(view, before, last, EvaluationCost(view, before));
      assert where == before + [last];
    }
  }

  // ---------- checking and rebuilding ----------

  // A scan looks at the rows up to the one searched for, or at all of them.
  ghost predicate ScannedTo(rows: seq<Row>, row: Row, n: nat) {
    && n <= |rows| && (forall i :: 0 <= i < n - 1 ==> rows[i] != row)
    && (n < |rows| ==> n > 0 && rows[n - 1] == row)
  }

  lemma {:induction false} ScanMeans(rows: seq<Row>, row: Row)
    ensures ScannedTo(rows, row, ScanCost(rows, row))
  {
    if rows != [] && rows[0] != row {
      ScanMeans(rows[1..], row);
      var n := ScanCost(rows[1..], row);
      forall i | 0 <= i < n
        ensures rows[i] != row
      {
        assert i > 0 ==> rows[i] == rows[1..][i - 1];
      }
    }
  }

  ghost function RowsFor(view: View, pred: string): seq<Row> {
    if pred in view then view[pred] else []
  }

  // Checking an atom scans for its grounded tuple; other atoms scan nothing.
  ghost predicate ChecksAtom(view: View, binding: Env, a: Atom, n: nat) {
    if a.Positive? && a.atom.Pred? && Ground(binding, a.atom.terms).Some?
    then ScannedTo(RowsFor(view, a.atom.pred), Ground(binding, a.atom.terms).value, n)
    else n == 0
  }

  ghost function CheckOf(view: View, binding: Env): Atom -> nat {
    (a: Atom) => if a.Positive? && a.atom.Pred? && Ground(binding, a.atom.terms).Some?
         then ScanCost(RowsFor(view, a.atom.pred), Ground(binding, a.atom.terms).value) else 0
  }

  lemma CheckMeans(view: View, binding: Env, a: Atom)
    ensures ChecksAtom(view, binding, a, CheckOf(view, binding)(a))
  {
    if a.Positive? && a.atom.Pred? && Ground(binding, a.atom.terms).Some? {
      ScanMeans(RowsFor(view, a.atom.pred), Ground(binding, a.atom.terms).value);
    }
  }

  ghost function Holding(view: View, binding: Env): Atom -> bool {
    a => AtomHolds(view, binding, a) == Success(true)
  }

  // Atom after atom, up to the first that does not hold.
  lemma {:induction false} CheckCostMeans(view: View, binding: Env, branch: seq<Atom>)
    ensures CostOfTried(branch, CheckOf(view, binding), Holding(view, binding), CheckCost(view, binding, branch))
  {
    if branch == [] {
      NothingTried(CheckOf(view, binding), Holding(view, binding));
    } else {
      CheckCostMeans(view, binding, branch[1..]);
      TriedNext(branch, CheckOf(view, binding), Holding(view, binding), CheckCost(view, binding, branch[1..]));
    }
  }

  ghost function CheckOfBranch(view: View, binding: Env): seq<Atom> -> nat {
    branch => CheckCost(view, binding, branch)
  }

  ghost function Loses(view: View, binding: Env): seq<Atom> -> bool {
    branch => BranchHolds(view, binding, branch) == Success(false)
  }

  // Branch after branch, up to the first that holds or raises.
  lemma {:induction false} WinningCostMeans(view: View, binding: Env, where: seq<seq<Atom>>)
    ensures CostOfTried(where, CheckOfBranch(view, binding), Loses(view, binding), WinningCost(view, binding, where))
  {
    if where == [] {
      NothingTried(CheckOfBranch(view, binding), Loses(view, binding));
    } else {
      WinningCostMeans(view, binding, where[1..]);
      TriedNext(where, CheckOfBranch(view, binding), Loses(view, binding), WinningCost(view, binding, where[1..]));
    }
  }

  // Rebuilding reads the whole relation of every predicate atom.
  ghost function Read(view: View): Atom -> nat {
    (a: Atom) => if a.Positive? && a.atom.Pred? then |RowsFor(view, a.atom.pred)| else 0
  }

  lemma {:induction false} RebuildMeans(view: View, branch: seq<Atom>)
    ensures RebuildCost(view, branch) == SumBy(branch, Read(view))
  {
    if branch != [] {
      RebuildMeans(view, branch[1..]);
    }
  }

  ghost function RebuildOf(view: View, where: seq<seq<Atom>>): nat -> nat {
    (c: nat) => if c < |where| then SumBy(where[c], Read(view)) else 0
  }

  lemma {:induction false} RowsCostMeans(view: View, cases: seq<nat>, where: seq<seq<Atom>>)
    requires CasesExist(cases, where)
    ensures RowsCost(view, cases, where) == SumBy(cases, RebuildOf(view, where))
  {
    if cases != [] {
      RebuildMeans(view, where[cases[0]]);
      RowsCostMeans(view, cases[1..], where);
    }
  }

  ghost predicate Wins(view: View, binding: Env, where: seq<seq<Atom>>, c: nat) {
    WinningCase(view, binding, where) == Success(c) && c < |where|
  }

  // A binding costs the search for its branch and, if there is one, rebuilding it.
  ghost function SearchAndRebuild(view: View, where: seq<seq<Atom>>, binding: Env): nat {
    var winner := WinningCase(view, binding, where);
    WinningCost(view, binding, where) + if winner.Success? then RebuildOf(view, where)(winner.value) else 0
  }

  ghost function CostOfBinding(view: View, where: seq<seq<Atom>>): Env -> nat {
    binding => SearchAndRebuild(view, where, binding)
  }

  ghost function HasWinner(view: View, where: seq<seq<Atom>>): Env -> bool {
    binding => exists c: nat :: Wins(view, binding, where, c)
  }

  lemma OneBinding(view: View, binding: Env, where: seq<seq<Atom>>)
    ensures BindingCost(view, binding, where) == CostOfBinding(view, where)(binding)
  {
    var winner := WinningCase(view, binding, where);
    if winner.Success? && winner.value < |where| {
      RebuildMeans(view, where[winner.value]);
    }
  }

  // Binding after binding, up to the first without a branch that holds.
  lemma {:induction false} BindingsCostMeans(view: View, bindings: seq<Env>, where: seq<seq<Atom>>)
    ensures CostOfTried(bindings, CostOfBinding(view, where), HasWinner(view, where), BindingsCost(view, bindings, where))
  {
    if bindings == [] {
      NothingTried(CostOfBinding(view, where), HasWinner(view, where));
    } else {
      BindingsCostMeans(view, bindings[1..], where);
      OneBinding(view, bindings[0], where);
      TriedNext(bindings, CostOfBinding(view, where), HasWinner(view, where), BindingsCost(view, bindings[1..], where));
      var winner := WinningCase(view, bindings[0], where);
      assert HasWinner(view, where)(bindings[0]) <==> winner.Success? && winner.value < |where| by {
        if winner.Success? && winner.value < |where| {
          assert Wins(view, bindings[0], where, winner.value);
        }
      }
    }
  }

  /**
   What verification inspects: the branch of every captured row rebuilt, the body evaluated branch by branch, and,
   if it evaluates, the branch of every binding searched and rebuilt.
   */
  lemma InspectedMeans(view: View, where: seq<seq<Atom>>, cases: seq<nat>)
    requires CasesExist(cases, where)
    ensures Inspected(view, where, cases)
         == SumBy(cases, RebuildOf(view, where)) + EvaluationCost(view, where) + BindingsCost(view, BindingsOf(view, where), where)
    ensures CostOfTried(where, CostOfRun(view), Runs(view), EvaluationCost(view, where))
    ensures CostOfTried(BindingsOf(view, where), CostOfBinding(view, where), HasWinner(view, where),
                        BindingsCost(view, BindingsOf(view, where), where))
  {
    RowsCostMeans(view, cases, where);
    EvaluationCostMeans(view, where);
    BindingsCostMeans(view, BindingsOf(view, where), where);
    InspectedParts(view, where, cases);
  }
}
