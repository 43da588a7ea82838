/**
 The overlay check: the body is evaluated before and after the actions. Removing facts from under a
 body without negation only ever loses bindings.
 */
module OverlayCheck {
  import opened Wrappers
  import opened WhereEval
  import opened Frontiers
  import opened Seeding
  import opened SeededBranches
  import opened Diagnose
  import opened Overlay
  import opened OverlayAlgebra

  datatype Phase = Failed | Passed(count: nat, primary: Env)

  datatype Diff = Diff(statusChanged: bool, countDelta: int, added: seq<Env>, removed: seq<Env>)

  datatype CheckResult = InvalidRequest(errors: seq<OverlayError>) | Checked(before: Phase, after: Phase, diff: Diff)

  function Tuples(rows: seq<Projected>): seq<Row> {
    seq(|rows|, i requires 0 <= i < |rows| => rows[i].tuple)
  }

  function ViewOf(relation: Relation): View {
    map p | p in relation :: Tuples(relation[p])
  }

  // What one phase reports, given the matching bindings in evaluation order.
  ghost predicate Reports(phase: Phase, matches: seq<Env>, leq: (Env, Env) -> bool) {
    match phase
    case Failed => matches == []
    case Passed(count, primary) => count == |matches| && IsLeast(primary, matches, leq)
  }

  method RunPhase(relation: Relation, where: seq<seq<Atom>>, requested: Env, leq: (Env, Env) -> bool)
    returns (r: Result<Phase, string>)
    requires TotalOrder(leq)
    ensures r.Failure? <==> EvaluateWhere(ViewOf(relation), where).Failure?
    ensures r.Success? ==>
      Reports(r.value, MatchesOf(EvaluateWhere(ViewOf(relation), where).value, requested), leq)
  {
    var bindings :- EvaluateWhere(ViewOf(relation), where);
    var matches := MatchesOf(bindings, requested);
    if matches == [] {
      return Success(Phase.Failed);
    }
    // Sorting the matches cannot raise: evaluation has sorted them already.
    MatchesSortable(bindings, requested);
    var primary := PrimaryEnv(matches, leq);
    r := Success(Phase.Passed(|matches|, primary));
  }

  function PhaseBindings(phase: Phase): seq<Env> {
    match phase
    case Failed => []
    case Passed(_, primary) => [primary]
  }

  function CountOf(phase: Phase): nat {
    match phase
    case Failed => 0
    case Passed(count, _) => count
  }

  function Missing(left: seq<Env>, right: seq<Env>): seq<Env> {
    if left == [] then [] else (if left[0] in right then [] else [left[0]]) + Missing(left[1..], right)
  }

  function BuildDiff(before: Phase, after: Phase): Diff {
    Diff(before.Passed? != after.Passed?, CountOf(after) - CountOf(before),
         Missing(PhaseBindings(after), PhaseBindings(before)), Missing(PhaseBindings(before), PhaseBindings(after)))
  }

  function BindingsUnder(relation: Relation, where: seq<seq<Atom>>): Envs {
    EvaluateWhere(ViewOf(relation), where)
  }

  /** An empty overlay and actions with errors are refused; otherwise both phases run, or the check fails as a whole. */
  method CheckOverlay(relation: Relation, keys: GroupKeys, actions: seq<Action>, where: seq<seq<Atom>>, requested: Env,
                      leq: (Env, Env) -> bool) returns (r: Result<CheckResult, string>)
    requires TotalOrder(leq)
    ensures (r.Success? && r.value.InvalidRequest?) <==> actions == [] || !Accepted(actions, relation, keys)
    ensures r.Failure? <==>
      (&& actions != [] && Accepted(actions, relation, keys)
       && (BindingsUnder(relation, where).Failure? || BindingsUnder(Applied(actions, relation), where).Failure?))
    ensures r.Success? && r.value.Checked? ==>
      && Reports(r.value.before, MatchesOf(BindingsUnder(relation, where).value, requested), leq)
      && Reports(r.value.after, MatchesOf(BindingsUnder(Applied(actions, relation), where).value, requested), leq)
      && r.value.diff == BuildDiff(r.value.before, r.value.after)
  {
    if actions == [] {
      return Success(CheckResult.InvalidRequest([OverlayError(0, EmptyOverlay)]));
    }
    var errors := ValidateActions(actions, relation, keys);
    if errors != [] {
      return Success(CheckResult.InvalidRequest(errors));
    }
    var before :- RunPhase(relation, where, requested, leq);
    var overlaid := ApplyProjection(actions, relation);
    var after :- RunPhase(overlaid, where, requested, leq);
    r := Success(Checked(before, after, BuildDiff(before, after)));
  }

  // ---------- removal loses bindings ----------

  // The same predicates, with no row that was not there.
  predicate Fewer(less: View, more: View) {
    less.Keys == more.Keys && forall p :: p in less ==> forall row :: row in less[p] ==> row in more[p]
  }

  lemma {:induction false} MatchRowsElements(env: Env, terms: seq<Term>, rows: seq<Row>)
    requires forall r :: r in rows ==> |r| == |terms|
    ensures forall e :: e in MatchRows(env, terms, rows) <==>
      exists row :: row in rows && |row| == |terms| && MatchRow(env, terms, row) == Some(e)
  {
    if rows != [] {
      MatchRowsElements(env, terms, rows[1..]);
      assert forall r :: r in rows <==> r == rows[0] || r in rows[1..];
    }
  }

  lemma ExtendFewer(less: View, more: View, env: Env, a: Simple)
    requires Fewer(less, more) && Extend(more, env, a).Success?
    ensures Extend(less, env, a).Success?
    ensures forall e :: e in Extend(less, env, a).value ==> e in Extend(more, env, a).value
  {
    if a.Pred? {
      var few, many := less[a.pred], more[a.pred];
      CandidatesEnough(env, a.terms, few);
      CandidatesEnough(env, a.terms, many);
      MatchRowsElements(env, a.terms, few);
      MatchRowsElements(env, a.terms, many);
    }
  }

  lemma FrontierFewer(less: View, more: View, few: seq<Env>, many: seq<Env>, a: Atom)
    requires Fewer(less, more) && a.Positive? && ExtendFrontier(more, many, a).Success?
    requires forall e :: e in few ==> e in many
    ensures ExtendFrontier(less, few, a).Success?
    ensures forall e :: e in ExtendFrontier(less, few, a).value ==> e in ExtendFrontier(more, many, a).value
  {
    FrontierElements(less, few, a);
    FrontierElements(more, many, a);
    forall env | env in few
      ensures ExtendAtom(less, env, a).Success?
      ensures forall e :: e in ExtendAtom(less, env, a).value ==> e in ExtendAtom(more, env, a).value
    {
      ExtendFewer(less, more, env, a.atom);
    }
  }

  predicate Positive(where: seq<seq<Atom>>) {
    forall b, a :: b in where && a in b ==> a.Positive?
  }

  lemma {:induction false} BranchFewer(less: View, more: View, few: seq<Env>, many: seq<Env>, branch: seq<Atom>)
    requires Fewer(less, more) && EvalBranch(more, many, branch).Success?
    requires forall a :: a in branch ==> a.Positive?
    requires forall e :: e in few ==> e in many
    ensures EvalBranch(less, few, branch).Success?
    ensures forall e :: e in EvalBranch(less, few, branch).value ==> e in EvalBranch(more, many, branch).value
    decreases |branch|
  {
    if branch != [] && few != [] {
      assert few[0] in many;
      FrontierFewer(less, more, few, many, branch[0]);
      BranchFewer(less, more, ExtendFrontier(less, few, branch[0]).value, ExtendFrontier(more, many, branch[0]).value, branch[1..]);
    }
  }

  lemma {:induction false} BranchesFewer(less: View, more: View, where: seq<seq<Atom>>)
    requires Fewer(less, more) && Positive(where) && EvalBranches(more, where).Success?
    ensures EvalBranches(less, where).Success?
    ensures forall e :: e in EvalBranches(less, where).value ==> e in EvalBranches(more, where).value
  {
    if where != [] {
      var n := |where| - 1;
      BranchesFewer(less, more, where[..n]);
      BranchFewer(less, more, [map[]], [map[]], where[n]);
    }
  }

  lemma BindingsFewer(less: View, more: View, where: seq<seq<Atom>>)
    requires Fewer(less, more) && Positive(where) && EvaluateWhere(more, where).Success?
    ensures EvaluateWhere(less, where).Success?
    ensures forall e :: e in EvaluateWhere(less, where).value ==> e in EvaluateWhere(more, where).value
  {
    BranchesFewer(less, more, where);
    DedupeElements(EvalBranches(less, where).value);
    DedupeElements(EvalBranches(more, where).value);
  }

  // ---------- overlays that only remove ----------

  predicate OnlyRemovals(actions: seq<Action>) {
    forall a :: a in actions ==> a.RemoveFact?
  }

  lemma {:induction false} RemovedRowsFewer(actions: seq<Action>, pred: string, rows: seq<Projected>)
    requires OnlyRemovals(actions)
    ensures forall r :: r in AppliedRows(actions, pred, rows) ==> r in rows
  {
    if rows != [] {
      RemovedRowsFewer(actions, pred, rows[..|rows| - 1]);
      ActionForIsListed(actions, pred, rows[|rows| - 1].id);
    }
  }

  lemma RemovalIsFewer(actions: seq<Action>, relation: Relation)
    requires OnlyRemovals(actions)
    ensures Fewer(ViewOf(Applied(actions, relation)), ViewOf(relation))
  {
    forall p, row | p in relation && row in Tuples(AppliedRows(actions, p, relation[p]))
      ensures row in Tuples(relation[p])
    {
      RemovedRowsFewer(actions, p, relation[p]);
      var after := AppliedRows(actions, p, relation[p]);
      var i :| 0 <= i < |after| && after[i].tuple == row;
      assert after[i] in relation[p];
      var j :| 0 <= j < |relation[p]| && relation[p][j] == after[i];
      assert Tuples(relation[p])[j] == row;
    }
  }

  lemma {:induction false} MatchesDistinct(envs: seq<Env>, requested: Env)
    requires DistinctEnvs(envs)
    ensures DistinctEnvs(MatchesOf(envs, requested))
  {
    if envs != [] {
      assert forall i :: 0 <= i < |envs| - 1 ==> envs[1..][i] == envs[i + 1];
      MatchesDistinct(envs[1..], requested);
      MatchesOfElements(envs[1..], requested);
      assert forall e :: e in envs[1..] ==> e != envs[0];
    }
  }

  lemma {:induction false} DistinctIsShort(few: seq<Env>, many: seq<Env>)
    requires DistinctEnvs(few) && forall e :: e in few ==> e in many
    ensures |few| <= |many|
  {
    if few != [] {
      assert few[0] in many;
      var k :| 0 <= k < |many| && many[k] == few[0];
      var rest := many[..k] + many[k + 1..];
      forall e | e in few[1..]
        ensures e in rest
      {
        var i :| 0 <= i < |few[1..]| && few[1..][i] == e;
        assert few[i + 1] == e && e != few[0];
        assert many == many[..k] + [many[k]] + many[k + 1..];
        assert e in many;
      }
      assert forall i :: 0 <= i < |few| - 1 ==> few[1..][i] == few[i + 1];
      DistinctIsShort(few[1..], rest);
    }
  }

  /**
   An overlay that only removes facts, over a body without negation: nothing matches that did not
   match before, there are no more matches, and a failed check does not become a passed one.
   */
  lemma RemovalIsMonotone(actions: seq<Action>, relation: Relation, where: seq<seq<Atom>>, requested: Env)
    requires OnlyRemovals(actions) && Positive(where) && BindingsUnder(relation, where).Success?
    ensures BindingsUnder(Applied(actions, relation), where).Success?
    ensures var before := MatchesOf(BindingsUnder(relation, where).value, requested);
            var after := MatchesOf(BindingsUnder(Applied(actions, relation), where).value, requested);
      (forall e :: e in after ==> e in before) && |after| <= |before|
  {
    RemovalIsFewer(actions, relation);
    var less, more := ViewOf(Applied(actions, relation)), ViewOf(relation);
    BindingsFewer(less, more, where);
    var few, many := EvaluateWhere(less, where).value, EvaluateWhere(more, where).value;
    MatchesOfElements(few, requested);
    MatchesOfElements(many, requested);
    DedupeDistinct(EvalBranches(less, where).value);
    MatchesDistinct(few, requested);
    DistinctIsShort(MatchesOf(few, requested), MatchesOf(many, requested));
  }

  lemma MissingSingle(e: Env, right: seq<Env>)
    ensures Missing([e], right) == if e in right then [] else [e]
  {
    assert [e][1..] == [];
  }

  /**
   What the reported difference may still call added: another binding that matched all along and
   only became the primary one. It does so exactly when the former primary binding is gone and
   something still matches.
   */
  lemma RemovalDiff(actions: seq<Action>, relation: Relation, where: seq<seq<Atom>>, requested: Env,
                    leq: (Env, Env) -> bool, before: Phase, after: Phase)
    requires TotalOrder(leq) && OnlyRemovals(actions) && Positive(where) && BindingsUnder(relation, where).Success?
    requires Reports(before, MatchesOf(BindingsUnder(relation, where).value, requested), leq)
    requires BindingsUnder(Applied(actions, relation), where).Success?
    requires Reports(after, MatchesOf(BindingsUnder(Applied(actions, relation), where).value, requested), leq)
    ensures before.Failed? ==> after.Failed?
    ensures BuildDiff(before, after).countDelta <= 0
    ensures forall e :: e in BuildDiff(before, after).added ==>
      e in MatchesOf(BindingsUnder(relation, where).value, requested)
    ensures BuildDiff(before, after).added != [] ==>
      before.Passed? && after.Passed? && BuildDiff(before, after).removed == [before.primary]
    ensures BuildDiff(before, after).added != [] <==>
      before.Passed? && after.Passed?
      && before.primary !in MatchesOf(BindingsUnder(Applied(actions, relation), where).value, requested)
  {
    RemovalIsMonotone(actions, relation, where, requested);
    if before.Passed? && after.Passed? {
      MissingSingle(after.primary, [before.primary]);
      MissingSingle(before.primary, [after.primary]);
    }
  }

  // ---------- a removal that is reported as an addition ----------

  const X_TERMS := [Var("$x")]
  const P_X := Atom.Positive(Pred("p", X_TERMS))

  function Found(n: int): Env {
    map["$x" := Num(n)]
  }

  function FoundAll(numbers: seq<int>): seq<Env> {
    if numbers == [] then [] else [Found(numbers[0])] + FoundAll(numbers[1..])
  }

  function NumberRows(numbers: seq<int>): seq<Row> {
    if numbers == [] then [] else [[Num(numbers[0])]] + NumberRows(numbers[1..])
  }

  lemma {:induction false} NumbersFound(numbers: seq<int>)
    ensures forall r :: r in NumberRows(numbers) ==> |r| == |X_TERMS|
    ensures MatchRows(map[], X_TERMS, NumberRows(numbers)) == FoundAll(numbers)
  {
    if numbers != [] {
      NumbersFound(numbers[1..]);
      var rows := NumberRows(numbers);
      assert rows[1..] == NumberRows(numbers[1..]);
      assert X_TERMS[1..] == [] && rows[0][1..] == [];
      assert MatchRow(map[], X_TERMS, rows[0]) == Some(Found(numbers[0]));
    }
  }

  lemma BranchFinds(view: View, numbers: seq<int>)
    requires "p" in view && view["p"] == NumberRows(numbers)
    ensures EvalBranch(view, [map[]], [P_X]) == Success(FoundAll(numbers))
  {
    var start: Env := map[];
    NumbersFound(numbers);
    CandidatesEnough(start, X_TERMS, view["p"]);
    assert ExtendAtom(view, start, P_X) == Success(FoundAll(numbers));
    assert ExtendFrontier(view, [start][1..], P_X) == Success([]);
    assert FoundAll(numbers) + [] == FoundAll(numbers);
    assert ExtendFrontier(view, [start], P_X) == Success(FoundAll(numbers));
    assert [P_X][1..] == [];
    assert EvalBranch(view, FoundAll(numbers), [P_X][1..]) == Success(FoundAll(numbers));
  }

  lemma BodyFinds(view: View, numbers: seq<int>)
    requires "p" in view && view["p"] == NumberRows(numbers)
    requires Dedupe(FoundAll(numbers)) == FoundAll(numbers) && Sortable(FoundAll(numbers))
    ensures EvaluateWhere(view, [[P_X]]) == Success(FoundAll(numbers))
  {
    var where := [[P_X]];
    BranchFinds(view, numbers);
    assert where[..0] == [] && [P_X][1..] == [];
    assert SafeBranch([P_X], {});
    assert EvalBranches(view, where[..0]) == Success([]);
    var none: seq<Env> := [];
    assert none + FoundAll(numbers) == FoundAll(numbers);
  }

  lemma {:induction false} MatchesEmptyRequest(envs: seq<Env>)
    ensures MatchesOf(envs, map[]) == envs
  {
    if envs != [] {
      MatchesEmptyRequest(envs[1..]);
    }
  }

  lemma DedupeTwo(x: Env, y: Env)
    requires x != y
    ensures Dedupe([y]) == [y] && Dedupe([x, y]) == [x, y]
  {
    assert [y][..0] == [] && [x][..0] == [] && [x, y][..1] == [x];
    assert Dedupe([x]) == [x];
  }

  lemma {:induction false} NumbersAreNumbers(numbers: seq<int>)
    ensures forall e :: e in FoundAll(numbers) ==> e.Keys == {"$x"} && e["$x"].Num?
  {
    if numbers != [] {
      NumbersAreNumbers(numbers[1..]);
    }
  }

  // What evaluation finds over p(1) and p(2), and over p(2) alone.
  lemma TwoFound(view: View, less: View)
    requires "p" in view && view["p"] == NumberRows([1, 2])
    requires "p" in less && less["p"] == NumberRows([2])
    ensures EvaluateWhere(view, [[P_X]]) == Success([Found(1), Found(2)])
    ensures EvaluateWhere(less, [[P_X]]) == Success([Found(2)])
  {
    assert Found(1)["$x"] != Found(2)["$x"];
    DedupeTwo(Found(1), Found(2));
    TwoListed();
    NumbersAreNumbers([1, 2]);
    NumbersAreNumbers([2]);
    BodyFinds(view, [1, 2]);
    BodyFinds(less, [2]);
  }

  lemma TwoListed()
    ensures FoundAll([1, 2]) == [Found(1), Found(2)] && FoundAll([2]) == [Found(2)]
    ensures NumberRows([1, 2]) == [[Num(1)], [Num(2)]] && NumberRows([2]) == [[Num(2)]]
  {
    assert [1, 2][1..] == [2] && [2][1..] == [];
  }

  lemma FirstRemoved(actions: seq<Action>, rows: seq<Projected>)
    requires actions == [RemoveFact("p", "a1", Num(1), [Num(1)])]
    requires rows == [Projected("a1", [Num(1)]), Projected("a2", [Num(2)])]
    ensures AppliedRows(actions, "p", rows) == [rows[1]]
  {
    assert actions[..0] == [];
    assert ActionFor(actions, "p", "a1") == Some(actions[0]) && ActionFor(actions[..0], "p", "a2") == None;
    var first := rows[..1];
    assert first == [rows[0]] && first[..0] == [];
    assert AppliedRows(actions, "p", first[..0]) == [];
    assert AppliedRow(actions, "p", rows[0]) == [];
    assert AppliedRows(actions, "p", first) == [];
    assert AppliedRow(actions, "p", rows[1]) == [rows[1]];
  }

  /**
   Facts p(1) and p(2), the branch p(x), an empty request and the removal of p(1): x = 2 is reported
   as added.
   */
  lemma AdditionReported(leq: (Env, Env) -> bool)
    returns (actions: seq<Action>, relation: Relation, where: seq<seq<Atom>>, before: Phase, after: Phase)
    requires TotalOrder(leq) && leq(Found(1), Found(2))
    ensures OnlyRemovals(actions) && Accepted(actions, relation, map[]) && Positive(where)
    ensures BindingsUnder(relation, where).Success? && BindingsUnder(Applied(actions, relation), where).Success?
    ensures Reports(before, MatchesOf(BindingsUnder(relation, where).value, map[]), leq)
    ensures Reports(after, MatchesOf(BindingsUnder(Applied(actions, relation), where).value, map[]), leq)
    ensures BuildDiff(before, after).added == [Found(2)]
  {
    actions, relation, where := ExampleOverlay();
    before, after := Phase.Passed(2, Found(1)), Phase.Passed(1, Found(2));
    MatchesEmptyRequest(BindingsUnder(relation, where).value);
    MatchesEmptyRequest(BindingsUnder(Applied(actions, relation), where).value);
    ExampleReports(before, after, leq);
  }

  lemma ExampleReports(before: Phase, after: Phase, leq: (Env, Env) -> bool)
    requires before == Phase.Passed(2, Found(1)) && after == Phase.Passed(1, Found(2))
    requires TotalOrder(leq) && leq(Found(1), Found(2))
    ensures Reports(before, [Found(1), Found(2)], leq) && Reports(after, [Found(2)], leq)
    ensures BuildDiff(before, after).added == [Found(2)]
  {
    AddedIs(before, after);
  }

  lemma ExampleOverlay() returns (actions: seq<Action>, relation: Relation, where: seq<seq<Atom>>)
    ensures OnlyRemovals(actions) && Accepted(actions, relation, map[]) && Positive(where)
    ensures BindingsUnder(relation, where) == Success([Found(1), Found(2)])
    ensures BindingsUnder(Applied(actions, relation), where) == Success([Found(2)])
  {
    var rows := [Projected("a1", [Num(1)]), Projected("a2", [Num(2)])];
    actions := [RemoveFact("p", "a1", Num(1), [Num(1)])];
    relation := map["p" := rows];
    where := [[P_X]];
    RemovalAccepted(actions, relation, rows);
    BothPhases(actions, relation, rows);
  }

  lemma BothPhases(actions: seq<Action>, relation: Relation, rows: seq<Projected>)
    requires actions == [RemoveFact("p", "a1", Num(1), [Num(1)])] && relation == map["p" := rows]
    requires rows == [Projected("a1", [Num(1)]), Projected("a2", [Num(2)])]
    ensures BindingsUnder(relation, [[P_X]]) == Success([Found(1), Found(2)])
    ensures BindingsUnder(Applied(actions, relation), [[P_X]]) == Success([Found(2)])
  {
    FirstRemoved(actions, rows);
    TwoListed();
    assert Tuples(rows) == NumberRows([1, 2]) && Tuples([rows[1]]) == NumberRows([2]);
    TwoFound(ViewOf(relation), ViewOf(Applied(actions, relation)));
  }

  lemma AddedIs(before: Phase, after: Phase)
    requires before == Phase.Passed(2, Found(1)) && after == Phase.Passed(1, Found(2))
    ensures BuildDiff(before, after).added == [Found(2)]
  {
    MissingSingle(Found(2), [Found(1)]);
    assert Found(1)["$x"] != Found(2)["$x"];
  }

  lemma RemovalAccepted(actions: seq<Action>, relation: Relation, rows: seq<Projected>)
    requires actions == [RemoveFact("p", "a1", Num(1), [Num(1)])] && relation == map["p" := rows]
    requires rows == [Projected("a1", [Num(1)]), Projected("a2", [Num(2)])]
    ensures Accepted(actions, relation, map[])
  {
    var first := rows[..1];
    assert first == [rows[0]];
    assert LastRow(first, "a1") == Some(rows[0]) && LastRow(rows, "a1") == Some(rows[0]);
  }
}
