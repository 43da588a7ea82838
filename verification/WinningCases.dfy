/**
 Checking a final binding against the branches of a body: terms are grounded with the binding and the
 facts scanned for the grounded tuple. The first branch that holds is the binding's winning case.
 */
module WinningCases {
  import opened Wrappers
  import opened WhereEval
  import opened Seeding
  import opened Frontiers

  // A receipt is rebuilt and a branch checked by grounding terms with a complete binding.
  function Ground(env: Env, terms: seq<Term>): Option<Row> {
    if terms == [] then Some([])
    else
      var first, rest := Lookup(env, terms[0]), Ground(env, terms[1..]);
      if first.None? || rest.None? then None else Some([first.value] + rest.value)
  }

  function RowsOf(view: View, pred: string): seq<Row> {
    if pred in view then view[pred] else []
  }

  // Whether a binding satisfies an atom, by scanning for the grounded tuple.
  function AtomHolds(view: View, binding: Env, a: Atom): Result<bool, string> {
    match a
    case Positive(Pred(pred, terms)) =>
      var row := Ground(binding, terms);
      Success(row.Some? && row.value in RowsOf(view, pred))
    case Positive(Eq(l, r)) =>
      var v, w := Lookup(binding, l), Lookup(binding, r);
      Success(v.Some? && w.Some? && v.value == w.value)
    case Positive(Arith(z, e)) =>
      if z !in binding then Success(false)
      else
        var envs :- Extend(view, binding, Arith(z, e));
        Success(envs != [])
    case Positive(s) =>
      var envs :- Extend(view, binding, s);
      Success(envs != [])
    case Not(bodies) =>
      var holds :- SomeBodyHolds(view, binding, bodies);
      Success(!holds)
  }

  function BranchHolds(view: View, binding: Env, branch: seq<Atom>): Result<bool, string> {
    if branch == [] then Success(true)
    else
      var first :- AtomHolds(view, binding, branch[0]);
      if first then BranchHolds(view, binding, branch[1..]) else Success(false)
  }

  /** The first branch that a binding satisfies. */
  function WinningCase(view: View, binding: Env, where: seq<seq<Atom>>): Result<nat, string> {
    if where == [] then Failure("NO_SATISFYING_BRANCH")
    else
      var first :- BranchHolds(view, binding, where[0]);
      if first then Success(0)
      else
        var rest :- WinningCase(view, binding, where[1..]);
        Success(rest + 1)
  }

  predicate NotFree(branch: seq<Atom>) {
    forall a :: a in branch ==> a.Positive?
  }

  // ---------- bindings satisfy the branch that yields them ----------

  lemma {:induction false} MatchGrounds(env: Env, terms: seq<Term>, row: Row, binding: Env)
    requires |terms| == |row| && MatchRow(env, terms, row).Some? && Extends(MatchRow(env, terms, row).value, binding)
    ensures Ground(binding, terms) == Some(row)
    decreases |terms|
  {
    if terms != [] {
      var env' := if terms[0].Var? && terms[0].name !in env then env[terms[0].name := row[0]] else env;
      MatchExtends(env', terms[1..], row[1..]);
      MatchGrounds(env', terms[1..], row[1..], binding);
      assert Lookup(binding, terms[0]) == Some(row[0]);
      assert row == [row[0]] + row[1..];
    }
  }

  lemma {:induction false} MatchRowsGround(env: Env, terms: seq<Term>, rows: seq<Row>, next: Env, binding: Env)
    requires forall r :: r in rows ==> |r| == |terms|
    requires next in MatchRows(env, terms, rows) && Extends(next, binding)
    ensures Ground(binding, terms).Some? && Ground(binding, terms).value in rows
  {
    if MatchRow(env, terms, rows[0]) == Some(next) {
      MatchGrounds(env, terms, rows[0], binding);
    } else {
      MatchRowsGround(env, terms, rows[1..], next, binding);
    }
  }

  lemma ArithmeticHolds(view: View, env: Env, z: string, e: Expr, next: Env, binding: Env)
    requires Extend(view, env, Arith(z, e)).Success? && next in Extend(view, env, Arith(z, e)).value && Extends(next, binding)
    ensures AtomHolds(view, binding, Positive(Arith(z, e))) == Success(true)
  {
    ExtendGrows(view, env, Arith(z, e));
    ComputeKnown(env, e);
    SameComputation(env, binding, e);
    assert z in next && z in binding && binding[z] == next[z];
  }

  lemma SameComputation(env: Env, binding: Env, e: Expr)
    requires Extends(env, binding) && Compute(env, e).Result?
    ensures Compute(binding, e) == Compute(env, e)
  {
  }

  lemma PredicateHolds(view: View, env: Env, pred: string, terms: seq<Term>, next: Env, binding: Env)
    requires ExtendPred(view, env, pred, terms).Success? && next in ExtendPred(view, env, pred, terms).value && Extends(next, binding)
    ensures AtomHolds(view, binding, Positive(Pred(pred, terms))) == Success(true)
  {
    CandidatesEnough(env, terms, view[pred]);
    MatchRowsGround(env, terms, view[pred], next, binding);
  }

  lemma ComparisonHolds(view: View, env: Env, a: Simple, next: Env, binding: Env)
    requires a.Eq? || a.Ne? || a.Cmp? || a.In?
    requires Extend(view, env, a).Success? && next in Extend(view, env, a).value && Extends(next, binding)
    ensures AtomHolds(view, binding, Positive(a)) == Success(true)
  {
  }

  lemma ExtensionHolds(view: View, env: Env, a: Simple, next: Env, binding: Env)
    requires Extend(view, env, a).Success? && next in Extend(view, env, a).value && Extends(next, binding)
    ensures AtomHolds(view, binding, Positive(a)) == Success(true)
  {
    ExtendGrows(view, env, a);
    match a
    case Pred(pred, terms) => PredicateHolds(view, env, pred, terms, next, binding);
    case Arith(z, e) => ArithmeticHolds(view, env, z, e, next, binding);
    case _ => ComparisonHolds(view, env, a, next, binding);
  }

  /** A binding that a branch yields satisfies every atom of the branch. */
  lemma {:induction false} OwnBranchHolds(view: View, envs: seq<Env>, branch: seq<Atom>, binding: Env)
    requires NotFree(branch) && EvalBranch(view, envs, branch).Success?
    requires binding in EvalBranch(view, envs, branch).value
    ensures BranchHolds(view, binding, branch) == Success(true)
    ensures exists env :: env in envs && Extends(env, binding)
    decreases |branch|
  {
    if branch == [] {
      assert Extends(binding, binding);
    } else {
      assert branch[0] in branch;
      var next := ExtendFrontier(view, envs, branch[0]).value;
      OwnBranchHolds(view, next, branch[1..], binding);
      FrontierElements(view, envs, branch[0]);
      var e1 :| e1 in next && Extends(e1, binding);
      var env :| env in envs && e1 in ExtendAtom(view, env, branch[0]).value;
      ExtensionHolds(view, env, branch[0].atom, e1, binding);
      ExtendGrows(view, env, branch[0].atom);
      assert Extends(env, binding);
    }
  }

  /** So replay finds a winning branch for it, unless checking an earlier branch raises. */
  lemma {:induction false} WinnerFound(view: View, where: seq<seq<Atom>>, binding: Env, i: nat)
    requires i < |where| && NotFree(where[i]) && EvalBranch(view, [map[]], where[i]).Success?
    requires binding in EvalBranch(view, [map[]], where[i]).value
    requires forall j :: 0 <= j < i ==> BranchHolds(view, binding, where[j]).Success?
    ensures WinningCase(view, binding, where).Success?
    ensures var w := WinningCase(view, binding, where).value; w <= i && BranchHolds(view, binding, where[w]) == Success(true)
  {
    OwnBranchHolds(view, [map[]], where[i], binding);
    WinnerScan(view, where, binding, i);
  }

  lemma {:induction false} WinnerScan(view: View, where: seq<seq<Atom>>, binding: Env, i: nat)
    requires i < |where| && BranchHolds(view, binding, where[i]) == Success(true)
    requires forall j :: 0 <= j < i ==> BranchHolds(view, binding, where[j]).Success?
    ensures WinningCase(view, binding, where).Success?
    ensures var w := WinningCase(view, binding, where).value; w <= i && BranchHolds(view, binding, where[w]) == Success(true)
  {
    if i > 0 && !BranchHolds(view, binding, where[0]).value {
      forall j | 0 <= j < i - 1
        ensures BranchHolds(view, binding, where[1..][j]).Success?
      {
        assert where[1..][j] == where[j + 1];
      }
      WinnerScan(view, where[1..], binding, i - 1);
    }
  }

  // ---------- when checking raises ----------

  // What checking an atom outside `not` raises on: a bound operand that is no integer.
  predicate AtomRaises(binding: Env, a: Simple) {
    match a
    case Cmp(_, l, r) =>
      var v, w := Lookup(binding, l), Lookup(binding, r);
      v.Some? && w.Some? && (Coerce(v.value).None? || Coerce(w.value).None?)
    case Arith(z, e) =>
      z in binding && (Compute(binding, e).Raises? || (Compute(binding, e).Result? && Coerce(binding[z]).None?))
    case _ => false
  }

  // A pred atom is checked without looking at arities, so it never raises.
  lemma AtomRaisesExactly(view: View, binding: Env, a: Simple)
    ensures AtomHolds(view, binding, Positive(a)).Failure? <==> AtomRaises(binding, a)
  {
  }

  // Every atom before k holds, and checking atom k raises.
  ghost predicate RaisesAt(view: View, binding: Env, branch: seq<Atom>, k: nat) {
    && k < |branch|
    && (forall j :: 0 <= j < k ==> AtomHolds(view, binding, branch[j]) == Success(true))
    && AtomHolds(view, binding, branch[k]).Failure?
  }

  lemma RaisesLater(view: View, binding: Env, branch: seq<Atom>, k: nat)
    requires branch != [] && AtomHolds(view, binding, branch[0]) == Success(true)
    ensures RaisesAt(view, binding, branch, k + 1) <==> RaisesAt(view, binding, branch[1..], k)
  {
    var rest := branch[1..];
    assert forall j :: 0 <= j < |rest| ==> rest[j] == branch[j + 1];
    if RaisesAt(view, binding, rest, k) {
      forall j | 0 <= j < k + 1
        ensures AtomHolds(view, binding, branch[j]) == Success(true)
      {
        assert j > 0 ==> rest[j - 1] == branch[j];
      }
    }
  }

  /** Checking a branch raises exactly if the first atom that does not hold raises. */
  lemma {:induction false} BranchRaises(view: View, binding: Env, branch: seq<Atom>)
    ensures BranchHolds(view, binding, branch).Failure? <==> exists k: nat :: RaisesAt(view, binding, branch, k)
  {
    if branch != [] {
      var first := AtomHolds(view, binding, branch[0]);
      BranchRaises(view, binding, branch[1..]);
      if first.Failure? {
        assert RaisesAt(view, binding, branch, 0);
      } else if first.value {
        if k: nat :| RaisesAt(view, binding, branch, k) {
          RaisesLater(view, binding, branch, k - 1);
        }
        if k: nat :| RaisesAt(view, binding, branch[1..], k) {
          RaisesLater(view, binding, branch, k);
        }
      }
    }
  }
}
