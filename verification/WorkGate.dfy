/**
 The work gate in front of bundle verification: what the admitted verification inspects never
 exceeds the estimate. Counted are the captured tuples that evaluation, the search for a winning
 branch and the rebuilding of receipts compare with a condition.
 */
module WorkGate {
  import opened Wrappers
  import opened WhereEval
  import opened Seeding
  import opened WinningCases
  import E = Estimate

  // ---------- the parsed form of a body ----------

  function Plains(n: nat): seq<E.Term> {
    seq(n, i => E.Plain)
  }

  function AstSimple(a: Simple): E.Atom {
    match a
    case Pred(pred, terms) => E.PredAtom(pred, Plains(|terms|))
    case Eq(_, _) => E.CmpAtom(Plains(2))
    case Ne(_, _) => E.CmpAtom(Plains(2))
    case Cmp(_, _, _) => E.CmpAtom(Plains(2))
    case In(_, values) => E.InAtom(|values|)
    case Arith(_, e) => E.BuiltinAtom(Plains(if e.Neg? then 2 else 3))
  }

  function AstBody(body: seq<Simple>): E.Conjunction {
    E.Conjunction(seq(|body|, i requires 0 <= i < |body| => AstSimple(body[i])))
  }

  function AstAtom(a: Atom): E.Atom {
    match a
    case Positive(s) => AstSimple(s)
    case Not(bodies) => E.NotAtom(E.Or(seq(|bodies|, i requires 0 <= i < |bodies| => AstBody(bodies[i]))))
  }

  function AstBranch(branch: seq<Atom>): E.Conjunction {
    E.Conjunction(seq(|branch|, i requires 0 <= i < |branch| => AstAtom(branch[i])))
  }

  function Ast(where: seq<seq<Atom>>): E.Body {
    E.Or(seq(|where|, i requires 0 <= i < |where| => AstBranch(where[i])))
  }

  function CountsOf(view: View): E.Counts {
    map p | p in view :: |view[p]|
  }

  function Factor(view: View, a: Atom): (r: nat)
    ensures r >= 1
  {
    E.AtomFactor(AstAtom(a), CountsOf(view))
  }

  function Bound(view: View, branch: seq<Atom>): nat {
    E.AtomsBound(AstBranch(branch).atoms, CountsOf(view))
  }

  function BodyBound(view: View, where: seq<seq<Atom>>): nat {
    E.BodyBound(Ast(where), CountsOf(view))
  }

  // ---------- the number of environments ----------

  lemma {:induction false} PlainFactor(n: nat, counts: E.Counts)
    ensures E.TermsFactor(Plains(n), counts) == 1
  {
    if n > 0 {
      assert Plains(n)[..n - 1] == Plains(n - 1);
      PlainFactor(n - 1, counts);
    }
  }

  lemma {:induction false} MatchRowsShort(env: Env, terms: seq<Term>, rows: seq<Row>)
    requires forall r :: r in rows ==> |r| == |terms|
    ensures |MatchRows(env, terms, rows)| <= |rows|
  {
    if rows != [] {
      MatchRowsShort(env, terms, rows[1..]);
    }
  }

  lemma ExtendBounded(view: View, env: Env, a: Atom)
    requires ExtendAtom(view, env, a).Success?
    ensures |ExtendAtom(view, env, a).value| <= Factor(view, a)
  {
    if a.Positive? && a.atom.Pred? {
      var terms, rows := a.atom.terms, view[a.atom.pred];
      MatchRowsShort(env, terms, Candidates(env, terms, rows));
      PlainFactor(|terms|, CountsOf(view));
    }
  }

  lemma AddProduct(a: nat, b: nat, n: nat, f: nat)
    requires a <= f && b <= n * f
    ensures a + b <= (n + 1) * f
  {
  }

  lemma {:induction false} FrontierBounded(view: View, envs: seq<Env>, a: Atom)
    requires ExtendFrontier(view, envs, a).Success?
    ensures |ExtendFrontier(view, envs, a).value| <= |envs| * Factor(view, a)
  {
    if envs != [] {
      ExtendBounded(view, envs[0], a);
      FrontierBounded(view, envs[1..], a);
      AddProduct(|ExtendAtom(view, envs[0], a).value|, |ExtendFrontier(view, envs[1..], a).value|, |envs| - 1, Factor(view, a));
    }
  }

  lemma BoundEmpty(view: View)
    ensures Bound(view, []) == 1
  {
  }

  lemma {:induction false} BoundCons(view: View, branch: seq<Atom>)
    requires branch != []
    ensures Bound(view, branch) == Factor(view, branch[0]) * Bound(view, branch[1..])
    ensures Bound(view, branch) >= 1
  {
    var n := |branch| - 1;
    var atoms, rest := AstBranch(branch).atoms, AstBranch(branch[1..]).atoms;
    assert atoms[..n] == AstBranch(branch[..n]).atoms;
    if n == 0 {
      assert atoms[..0] == [] && branch[1..] == [];
    } else {
      BoundCons(view, branch[..n]);
      assert branch[..n][1..] == branch[1..][..n - 1];
      assert rest[..n - 1] == AstBranch(branch[1..][..n - 1]).atoms;
      assert rest[n - 1] == atoms[n];
      Associate(Factor(view, branch[0]), Bound(view, branch[1..][..n - 1]), Factor(view, branch[n]));
    }
  }

  lemma Associate(a: nat, b: nat, c: nat)
    ensures (a * b) * c == a * (b * c)
  {
  }

  /** After any prefix there are at most as many environments as the product of the prefix's factors. */
  lemma {:induction false} EnvironmentsBounded(view: View, envs: seq<Env>, branch: seq<Atom>)
    requires EvalBranch(view, envs, branch).Success?
    ensures |EvalBranch(view, envs, branch).value| <= |envs| * Bound(view, branch)
    decreases |branch|
  {
    if branch == [] {
      BoundEmpty(view);
    } else {
      BoundCons(view, branch);
      if envs != [] {
        var next := ExtendFrontier(view, envs, branch[0]).value;
        FrontierBounded(view, envs, branch[0]);
        EnvironmentsBounded(view, next, branch[1..]);
        E.MultiplyMonotone(|next|, |envs| * Factor(view, branch[0]), Bound(view, branch[1..]));
        Associate(|envs|, Factor(view, branch[0]), Bound(view, branch[1..]));
      }
    }
  }

  lemma PrefixBounded(view: View, branch: seq<Atom>, k: nat)
    requires k <= |branch| && EvalBranch(view, [map[]], branch[..k]).Success?
    ensures |EvalBranch(view, [map[]], branch[..k]).value| <= Bound(view, branch[..k])
  {
    EnvironmentsBounded(view, [map[]], branch[..k]);
  }

  lemma BodyBoundSnoc(view: View, where: seq<seq<Atom>>)
    requires where != []
    ensures BodyBound(view, where)
         == BodyBound(view, where[..|where| - 1]) + Bound(view, where[|where| - 1])
  {
    var n := |where| - 1;
    var branches, counts := Ast(where).branches, CountsOf(view);
    assert branches[..n] == Ast(where[..n]).branches;
    assert E.BranchesBound(branches, counts) == E.BranchesBound(branches[..n], counts) + E.AtomsBound(branches[n].atoms, counts);
  }

  lemma {:induction false} BranchesBounded(view: View, where: seq<seq<Atom>>)
    requires EvalBranches(view, where).Success?
    ensures |EvalBranches(view, where).value| <= BodyBound(view, where)
  {
    if where != [] {
      var n := |where| - 1;
      BranchesBounded(view, where[..n]);
      EnvironmentsBounded(view, [map[]], where[n]);
      BodyBoundSnoc(view, where);
    }
  }

  lemma {:induction false} DedupeShort(envs: seq<Env>)
    ensures |Dedupe(envs)| <= |envs|
  {
    if envs != [] {
      DedupeShort(envs[..|envs| - 1]);
    }
  }

  /** A body yields at most as many bindings as the estimate's binding bound. */
  lemma BindingsBounded(view: View, where: seq<seq<Atom>>)
    requires EvaluateWhere(view, where).Success?
    ensures |EvaluateWhere(view, where).value| <= BodyBound(view, where)
  {
    BranchesBounded(view, where);
    DedupeShort(EvalBranches(view, where).value);
  }

  // ---------- what verification inspects ----------

  // Tuples tried while one environment is extended.
  function ExtensionCost(view: View, env: Env, a: Atom): nat {
    match a
    case Positive(Pred(pred, terms)) =>
      if ExtendPred(view, env, pred, terms).Failure? then 0 else |Candidates(env, terms, view[pred])|
    case _ => 0
  }

  function FrontierCost(view: View, envs: seq<Env>, a: Atom): nat {
    if envs == [] then 0
    else
      ExtensionCost(view, envs[0], a)
      + if ExtendAtom(view, envs[0], a).Failure? then 0 else FrontierCost(view, envs[1..], a)
  }

  function BranchCost(view: View, envs: seq<Env>, branch: seq<Atom>): nat
    decreases |branch|
  {
    if envs == [] || branch == [] then 0
    else
      var next := ExtendFrontier(view, envs, branch[0]);
      FrontierCost(view, envs, branch[0]) + if next.Failure? then 0 else BranchCost(view, next.value, branch[1..])
  }

  // Branches are evaluated first to last, up to the first that raises.
  function EvaluationCost(view: View, where: seq<seq<Atom>>): nat {
    if where == [] then 0
    else
      var before := where[..|where| - 1];
      EvaluationCost(view, before)
      + if EvalBranches(view, before).Failure? then 0 else BranchCost(view, [map[]], where[|where| - 1])
  }

  function ScanCost(rows: seq<Row>, row: Row): nat {
    if rows == [] then 0 else if rows[0] == row then 1 else 1 + ScanCost(rows[1..], row)
  }

  // Tuples scanned until the grounded one is found.
  function CheckCost(view: View, binding: Env, branch: seq<Atom>): nat {
    if branch == [] then 0
    else
      (match branch[0]
       case Positive(Pred(pred, terms)) =>
         (var row := Ground(binding, terms); if row.None? then 0 else ScanCost(RowsOf(view, pred), row.value))
       case _ => 0)
      + if AtomHolds(view, binding, branch[0]) == Success(true) then CheckCost(view, binding, branch[1..]) else 0
  }

  function WinningCost(view: View, binding: Env, where: seq<seq<Atom>>): nat {
    if where == [] then 0
    else
      CheckCost(view, binding, where[0])
      + if BranchHolds(view, binding, where[0]) == Success(false) then WinningCost(view, binding, where[1..]) else 0
  }

  // A rebuilt witness collects every assertion of its tuple, so the whole relation is scanned.
  function RebuildCost(view: View, branch: seq<Atom>): nat {
    if branch == [] then 0
    else
      (match branch[0]
       case Positive(Pred(pred, _)) => |RowsOf(view, pred)|
       case _ => 0)
      + RebuildCost(view, branch[1..])
  }

  function BindingsCost(view: View, bindings: seq<Env>, where: seq<seq<Atom>>): nat {
    if bindings == [] then 0
    else
      var winner := WinningCase(view, bindings[0], where);
      WinningCost(view, bindings[0], where)
      + if winner.Failure? || winner.value >= |where| then 0
        else RebuildCost(view, where[winner.value]) + BindingsCost(view, bindings[1..], where)
  }

  predicate CasesExist(cases: seq<nat>, where: seq<seq<Atom>>) {
    forall i :: 0 <= i < |cases| ==> cases[i] < |where|
  }

  // The branch of every captured row's receipt is rebuilt once before replay.
  function RowsCost(view: View, cases: seq<nat>, where: seq<seq<Atom>>): nat
    requires CasesExist(cases, where)
  {
    if cases == [] then 0 else RebuildCost(view, where[cases[0]]) + RowsCost(view, cases[1..], where)
  }

  function Inspected(view: View, where: seq<seq<Atom>>, cases: seq<nat>): nat
    requires CasesExist(cases, where)
  {
    var bindings := EvaluateWhere(view, where);
    RowsCost(view, cases, where) + EvaluationCost(view, where)
    + if bindings.Failure? then 0 else BindingsCost(view, bindings.value, where)
  }

  // ---------- the bound ----------

  ghost function Facts(view: View): (r: nat)
    ensures r >= 1
  {
    E.Max(1, E.FactTotal(CountsOf(view)))
  }

  function Size(where: seq<seq<Atom>>): nat {
    if where == [] then 0 else |where[0]| + Size(where[1..])
  }

  lemma {:induction false} SizeSnoc(where: seq<seq<Atom>>)
    requires where != []
    ensures Size(where) == Size(where[..|where| - 1]) + |where[|where| - 1]|
  {
    var n := |where| - 1;
    if n > 0 {
      assert where[..n][1..] == where[1..][..n - 1];
      SizeSnoc(where[1..]);
    } else {
      assert where[1..] == [];
    }
  }

  lemma {:induction false} SizeContains(where: seq<seq<Atom>>, i: nat)
    requires i < |where|
    ensures |where[i]| <= Size(where)
  {
    if i > 0 {
      SizeContains(where[1..], i - 1);
    }
  }

  lemma {:induction false} SizeIsConditions(where: seq<seq<Atom>>)
    ensures Size(where) <= E.Conditions(Ast(where))
  {
    if where != [] {
      var n := |where| - 1;
      SizeSnoc(where);
      SizeIsConditions(where[..n]);
      assert Ast(where).branches[..n] == Ast(where[..n]).branches;
      AtomsAreConditions(AstBranch(where[n]).atoms);
    }
  }

  lemma {:induction false} AtomsAreConditions(atoms: seq<E.Atom>)
    ensures |atoms| <= E.AtomsConditions(atoms)
  {
    if atoms != [] {
      AtomsAreConditions(atoms[..|atoms| - 1]);
    }
  }

  lemma RelationSmall(view: View, pred: string)
    ensures |RowsOf(view, pred)| <= Facts(view)
  {
    if pred in view {
      E.FactTotalTakes(CountsOf(view), pred);
    }
  }

  lemma ExtensionCheap(view: View, env: Env, a: Atom)
    ensures ExtensionCost(view, env, a) <= Factor(view, a)
  {
    if a.Positive? && a.atom.Pred? {
      PlainFactor(|a.atom.terms|, CountsOf(view));
    }
  }

  lemma {:induction false} FrontierCheap(view: View, envs: seq<Env>, a: Atom)
    ensures FrontierCost(view, envs, a) <= |envs| * Factor(view, a)
  {
    if envs != [] {
      ExtensionCheap(view, envs[0], a);
      FrontierCheap(view, envs[1..], a);
      AddProduct(ExtensionCost(view, envs[0], a), FrontierCost(view, envs[1..], a), |envs| - 1, Factor(view, a));
    }
  }

  lemma StepArithmetic(here: nat, later: nat, envs: nat, next: nat, factor: nat, rest: nat, n: nat)
    requires here <= envs * factor && next <= envs * factor && later <= n * (next * rest) && rest >= 1
    ensures here + later <= (n + 1) * (envs * (factor * rest))
  {
    var all := envs * factor;
    E.ProductMonotone(next, rest, all, rest);
    E.ProductMonotone(n, next * rest, n, all * rest);
    E.ProductMonotone(all, 1, all, rest);
    Associate(envs, factor, rest);
    assert (n + 1) * (all * rest) == n * (all * rest) + all * rest;
  }

  lemma {:induction false} BranchCheap(view: View, envs: seq<Env>, branch: seq<Atom>)
    ensures BranchCost(view, envs, branch) <= |branch| * (|envs| * Bound(view, branch))
    decreases |branch|
  {
    if branch == [] {
    } else {
      BoundCons(view, branch);
      if branch[1..] == [] { BoundEmpty(view); } else { BoundCons(view, branch[1..]); }
      FrontierCheap(view, envs, branch[0]);
      var here := FrontierCost(view, envs, branch[0]);
      var rest, factor := Bound(view, branch[1..]), Factor(view, branch[0]);
      if envs != [] {
        var next := ExtendFrontier(view, envs, branch[0]);
        if next.Success? {
          FrontierBounded(view, envs, branch[0]);
          BranchCheap(view, next.value, branch[1..]);
          StepArithmetic(here, BranchCost(view, next.value, branch[1..]), |envs|, |next.value|, factor, rest, |branch| - 1);
        } else {
          StepArithmetic(here, 0, |envs|, 0, factor, rest, |branch| - 1);
        }
      }
    }
  }

  lemma SumOfProducts(s: nat, b: nat, s': nat, b': nat)
    ensures s * b + s' * b' <= (s + s') * (b + b')
  {
    assert (s + s') * (b + b') == s * b + s * b' + s' * b + s' * b';
  }

  lemma Distribute(a: nat, b: nat, f: nat)
    ensures (a + b) * f == a * f + b * f
  {
  }

  lemma {:induction false} EvaluationCheap(view: View, where: seq<seq<Atom>>)
    ensures EvaluationCost(view, where) <= Size(where) * BodyBound(view, where)
  {
    if where != [] {
      var n := |where| - 1;
      SizeSnoc(where);
      BodyBoundSnoc(view, where);
      EvaluationCheap(view, where[..n]);
      BranchCheap(view, [map[]], where[n]);
      SumOfProducts(Size(where[..n]), BodyBound(view, where[..n]), |where[n]|, Bound(view, where[n]));
    }
  }

  lemma {:induction false} ScanShort(rows: seq<Row>, row: Row)
    ensures ScanCost(rows, row) <= |rows|
  {
    if rows != [] {
      ScanShort(rows[1..], row);
    }
  }

  lemma {:induction false} CheckCheap(view: View, binding: Env, branch: seq<Atom>)
    ensures CheckCost(view, binding, branch) <= |branch| * Facts(view)
  {
    if branch != [] {
      CheckCheap(view, binding, branch[1..]);
      if branch[0].Positive? && branch[0].atom.Pred? {
        var row := Ground(binding, branch[0].atom.terms);
        RelationSmall(view, branch[0].atom.pred);
        if row.Some? {
          ScanShort(RowsOf(view, branch[0].atom.pred), row.value);
        }
      }
      assert |branch| * Facts(view) == (|branch| - 1) * Facts(view) + Facts(view);
    }
  }

  lemma {:induction false} WinningCheap(view: View, binding: Env, where: seq<seq<Atom>>)
    ensures WinningCost(view, binding, where) <= Size(where) * Facts(view)
  {
    if where != [] {
      CheckCheap(view, binding, where[0]);
      WinningCheap(view, binding, where[1..]);
      Distribute(|where[0]|, Size(where[1..]), Facts(view));
    }
  }

  lemma {:induction false} RebuildCheap(view: View, branch: seq<Atom>)
    ensures RebuildCost(view, branch) <= |branch| * Facts(view)
  {
    if branch != [] {
      RebuildCheap(view, branch[1..]);
      if branch[0].Positive? && branch[0].atom.Pred? {
        RelationSmall(view, branch[0].atom.pred);
      }
      assert |branch| * Facts(view) == (|branch| - 1) * Facts(view) + Facts(view);
    }
  }

  lemma OneRebuildCheap(view: View, where: seq<seq<Atom>>, i: nat)
    requires i < |where|
    ensures RebuildCost(view, where[i]) <= Size(where) * Facts(view)
  {
    RebuildCheap(view, where[i]);
    SizeContains(where, i);
    E.MultiplyMonotone(|where[i]|, Size(where), Facts(view));
  }

  // What one binding costs: the search for its branch, and one rebuilt receipt.
  function BindingCost(view: View, binding: Env, where: seq<seq<Atom>>): nat {
    var winner := WinningCase(view, binding, where);
    WinningCost(view, binding, where)
    + if winner.Failure? || winner.value >= |where| then 0 else RebuildCost(view, where[winner.value])
  }

  lemma BindingCheap(view: View, binding: Env, where: seq<seq<Atom>>, unit: nat)
    requires Size(where) * Facts(view) <= unit
    ensures BindingCost(view, binding, where) <= 2 * unit
  {
    var winner := WinningCase(view, binding, where);
    WinningCheap(view, binding, where);
    if winner.Success? && winner.value < |where| {
      OneRebuildCheap(view, where, winner.value);
    }
  }

  lemma BindingsCostCons(view: View, bindings: seq<Env>, where: seq<seq<Atom>>)
    requires bindings != []
    ensures BindingsCost(view, bindings, where) <= BindingCost(view, bindings[0], where) + BindingsCost(view, bindings[1..], where)
  {
  }

  lemma {:induction false} BindingsCheap(view: View, bindings: seq<Env>, where: seq<seq<Atom>>, unit: nat)
    requires Size(where) * Facts(view) <= unit
    ensures BindingsCost(view, bindings, where) <= |bindings| * (2 * unit)
  {
    if bindings != [] {
      BindingsCostCons(view, bindings, where);
      BindingCheap(view, bindings[0], where, unit);
      BindingsCheap(view, bindings[1..], where, unit);
      Distribute(|bindings| - 1, 1, 2 * unit);
    }
  }

  lemma {:induction false} RowsCheap(view: View, cases: seq<nat>, where: seq<seq<Atom>>)
    requires CasesExist(cases, where)
    ensures RowsCost(view, cases, where) <= |cases| * (Size(where) * Facts(view))
  {
    if cases != [] {
      OneRebuildCheap(view, where, cases[0]);
      RowsCheap(view, cases[1..], where);
      var each := Size(where) * Facts(view);
      assert |cases| * each == (|cases| - 1) * each + each;
    }
  }

  lemma TotalArithmetic(rows: nat, b: nat, n: nat, s: nat, c: nat, f: nat, rebuilt: nat, evaluated: nat, checked: nat)
    requires rebuilt <= rows * (s * f) && evaluated <= s * b && checked <= n * (2 * (s * f))
    requires n <= b && s <= c && f >= 1
    ensures rebuilt + evaluated + checked <= (b + rows) * (3 * (c * f))
  {
    var all := s * f;
    assert evaluated <= b * all by {
      E.MultiplyMonotone(1, f, s * b);
      assert (s * b) * f == b * (s * f);
    }
    assert checked <= 2 * (b * all) by {
      E.MultiplyMonotone(n, b, 2 * all);
      assert b * (2 * all) == 2 * (b * all);
    }
    E.MultiplyMonotone(s, c, f);
    E.ProductMonotone(b + rows, 3 * all, b + rows, 3 * (c * f));
    assert (b + rows) * (3 * all) == 3 * (b * all) + 3 * (rows * all);
  }

  ghost function ConditionBound(where: seq<seq<Atom>>): nat {
    E.Max(1, E.Conditions(Ast(where)))
  }

  lemma ExactWorkIs(view: View, where: seq<seq<Atom>>, rows: nat)
    ensures E.ExactWork(Ast(where), CountsOf(view), rows)
         == (BodyBound(view, where) + rows) * (3 * (ConditionBound(where) * Facts(view)))
    ensures Size(where) <= ConditionBound(where)
  {
    SizeIsConditions(where);
  }

  // The bindings of a body that evaluates; none otherwise.
  function BindingsOf(view: View, where: seq<seq<Atom>>): seq<Env> {
    var bindings := EvaluateWhere(view, where);
    if bindings.Failure? then [] else bindings.value
  }

  lemma InspectedParts(view: View, where: seq<seq<Atom>>, cases: seq<nat>)
    requires CasesExist(cases, where)
    ensures Inspected(view, where, cases)
         == RowsCost(view, cases, where) + EvaluationCost(view, where) + BindingsCost(view, BindingsOf(view, where), where)
    ensures |BindingsOf(view, where)| <= BodyBound(view, where)
  {
    if EvaluateWhere(view, where).Success? {
      BindingsBounded(view, where);
    }
  }

  lemma WithinExactWork(view: View, where: seq<seq<Atom>>, rows: nat, n: nat, rebuilt: nat, evaluated: nat, checked: nat)
    requires n <= BodyBound(view, where)
    requires rebuilt <= rows * (Size(where) * Facts(view))
    requires evaluated <= Size(where) * BodyBound(view, where)
    requires checked <= n * (2 * (Size(where) * Facts(view)))
    ensures rebuilt + evaluated + checked <= E.ExactWork(Ast(where), CountsOf(view), rows)
  {
    ExactWorkIs(view, where, rows);
    TotalArithmetic(rows, BodyBound(view, where), n, Size(where), ConditionBound(where), Facts(view), rebuilt, evaluated, checked);
  }

  /** Evaluation, branch checks and rebuilt receipts together stay below the exact estimate. */
  lemma InspectionBounded(view: View, where: seq<seq<Atom>>, cases: seq<nat>)
    requires CasesExist(cases, where)
    ensures Inspected(view, where, cases) <= E.ExactWork(Ast(where), CountsOf(view), |cases|)
  {
    var bindings := BindingsOf(view, where);
    InspectedParts(view, where, cases);
    RowsCheap(view, cases, where);
    EvaluationCheap(view, where);
    BindingsCheap(view, bindings, where, Size(where) * Facts(view));
    WithinExactWork(view, where, |cases|, |bindings|, RowsCost(view, cases, where), EvaluationCost(view, where),
                    BindingsCost(view, bindings, where));
  }

  // ---------- the bound is tight ----------

  const P_X := Positive(Pred("p", [Var("$x")]))
  const ONE_FACT: View := map["p" := [[Num(5)]]]
  const FOUND: Env := map["$x" := Num(5)]

  lemma OneFactEvaluated()
    ensures ExtendFrontier(ONE_FACT, [map[]], P_X) == Success([FOUND])
    ensures FrontierCost(ONE_FACT, [map[]], P_X) == 1
  {
    var terms, rows := [Var("$x")], [[Num(5)]];
    var start: Env := map[];
    assert rows[1..] == [] && terms[1..] == [] && rows[0][1..] == [];
    CandidatesEnough(start, terms, rows);
    assert MatchRow(start, terms, rows[0]) == Some(FOUND);
    assert MatchRows(start, terms, rows[1..]) == [];
    assert MatchRows(start, terms, rows) == [FOUND];
    assert |Candidates(start, terms, rows)| == 1 by {
      assert Agrees(start, terms, rows[0]);
    }
    assert ExtendAtom(ONE_FACT, start, P_X) == Success([FOUND]);
    assert [start][1..] == [];
    assert ExtendFrontier(ONE_FACT, [start][1..], P_X) == Success([]);
    assert FrontierCost(ONE_FACT, [start][1..], P_X) == 0;
  }

  lemma OneFactChecked()
    ensures BranchHolds(ONE_FACT, FOUND, [P_X]) == Success(true)
    ensures CheckCost(ONE_FACT, FOUND, [P_X]) == 1
    ensures RebuildCost(ONE_FACT, [P_X]) == 1
  {
    var terms := [Var("$x")];
    assert [P_X][1..] == [] && terms[1..] == [];
    assert Ground(FOUND, terms[1..]) == Some([]);
    var none: Row := [];
    assert [Num(5)] + none == [Num(5)];
    assert Ground(FOUND, terms) == Some([Num(5)]);
    assert AtomHolds(ONE_FACT, FOUND, P_X) == Success(true);
    assert RebuildCost(ONE_FACT, [P_X][1..]) == 0;
  }

  lemma OneFactBranch()
    ensures EvalBranch(ONE_FACT, [map[]], [P_X]) == Success([FOUND])
    ensures BranchCost(ONE_FACT, [map[]], [P_X]) == 1
  {
    OneFactEvaluated();
    assert [P_X][1..] == [];
    assert EvalBranch(ONE_FACT, [FOUND], [P_X][1..]) == Success([FOUND]);
    assert BranchCost(ONE_FACT, [FOUND], [P_X][1..]) == 0;
  }

  lemma SingleBranch(view: View, branch: seq<Atom>, found: Env)
    requires EvalBranch(view, [map[]], branch) == Success([found])
    requires branch != [] && SafeBranch(branch, {})
    ensures EvaluateWhere(view, [branch]) == Success([found])
    ensures EvaluationCost(view, [branch]) == BranchCost(view, [map[]], branch)
  {
    var where := [branch];
    assert where[..0] == [] && [found][..0] == [];
    var none: seq<Env> := [];
    assert none + [found] == [found];
    assert EvalBranches(view, where[..0]) == Success([]);
    assert EvaluationCost(view, where[..0]) == 0;
    assert EvalBranches(view, where) == Success([found]);
    assert Dedupe([found][..0]) == [];
    assert Dedupe([found]) == [found];
  }

  lemma SingleBinding(view: View, branch: seq<Atom>, found: Env)
    requires BranchHolds(view, found, branch) == Success(true)
    ensures BindingsCost(view, [found], [branch]) == CheckCost(view, found, branch) + RebuildCost(view, branch)
  {
    assert [found][1..] == [] && [branch][1..] == [];
    assert BindingsCost(view, [found][1..], [branch]) == 0;
    assert WinningCase(view, found, [branch]) == Success(0);
  }

  /** The bound is met with equality by one condition over one fact. */
  lemma EstimateIsTight()
    ensures Inspected(ONE_FACT, [[P_X]], []) == E.ExactWork(Ast([[P_X]]), CountsOf(ONE_FACT), 0) == 3
  {
    OneFactBranch();
    OneFactChecked();
    assert SafeBranch([P_X], {}) by {
      assert [P_X][1..] == [];
    }
    SingleBranch(ONE_FACT, [P_X], FOUND);
    SingleBinding(ONE_FACT, [P_X], FOUND);
    OneFactEstimate();
  }

  lemma OneFactEstimate()
    ensures E.ExactWork(Ast([[P_X]]), CountsOf(ONE_FACT), 0) == 3
  {
    var where, counts := [[P_X]], CountsOf(ONE_FACT);
    PlainFactor(1, counts);
    BodyBoundSnoc(ONE_FACT, where);
    BoundCons(ONE_FACT, [P_X]);
    BoundEmpty(ONE_FACT);
    assert where[..0] == [] && [P_X][1..] == [];
    E.FactTotalTakes(counts, "p");
    assert counts - {"p"} == map[];
    assert Ast(where).branches[..0] == [];
    var atoms := AstBranch([P_X]).atoms;
    assert atoms[..0] == [] && atoms[0] == AstSimple(P_X.atom);
    assert E.TermsConditions(Plains(1)) == 0 by {
      assert Plains(1)[..0] == [];
    }
    assert E.AtomsConditions(atoms) == 1;
    assert E.BranchesConditions(Ast(where).branches[..0]) == 0;
    assert E.Conditions(Ast(where)) == 1;
    assert E.FactTotal(counts) == 1;
    assert Factor(ONE_FACT, P_X) == 1;
    assert BodyBound(ONE_FACT, where) == 1;
  }
}
