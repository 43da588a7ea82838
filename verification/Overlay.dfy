/** Hypothetical replacement and removal of visible facts: validation and projection. */
module Overlay {
  import opened Wrappers
  import opened WhereEval

  datatype Projected = Projected(id: string, tuple: Row)

  type Relation = map<string, seq<Projected>>

  // The positions a predicate's facts are grouped by, for the predicates the schema declares.
  type GroupKeys = map<string, seq<int>>

  datatype Action =
    | ReplaceFact(pred: string, id: string, entity: Value, oldTuple: Row, newTuple: Row)
    | RemoveFact(pred: string, id: string, entity: Value, oldTuple: Row)

  datatype Code =
    | EmptyOverlay
    | DuplicateId
    | NotVisible
    | StaleTuple
    | ArityMismatch
    | EntityMismatch
    | GroupKeyChanged

  datatype OverlayError = OverlayError(index: nat, code: Code)

  predicate UniqueRows(rows: seq<Projected>) {
    forall i, j :: 0 <= i < j < |rows| ==> rows[i].id != rows[j].id
  }

  predicate UniqueIds(relation: Relation) {
    forall p :: p in relation ==> UniqueRows(relation[p])
  }

  // ---------- validation ----------

  function LastRow(rows: seq<Projected>, id: string): Option<Projected> {
    if rows == [] then None
    else if rows[|rows| - 1].id == id then Some(rows[|rows| - 1])
    else LastRow(rows[..|rows| - 1], id)
  }

  function VisibleRow(relation: Relation, pred: string, id: string): Option<Projected> {
    if pred in relation then LastRow(relation[pred], id) else None
  }

  predicate EntityMatches(a: Action, current: Row) {
    && current != [] && current[0] == a.entity
    && a.oldTuple != [] && a.oldTuple[0] == a.entity
    && (a.ReplaceFact? ==> a.newTuple != [] && a.newTuple[0] == a.entity)
  }

  // An index outside either tuple is skipped.
  predicate KeyKept(indexes: seq<int>, current: Row, next: Row) {
    forall k :: k in indexes && 0 <= k < |current| && k < |next| ==> current[k] == next[k]
  }

  predicate GroupKeyMoved(keys: GroupKeys, a: Action, current: Row) {
    a.ReplaceFact? && a.pred in keys && !KeyKept(keys[a.pred], current, a.newTuple)
  }

  function Report(index: nat, wrong: bool, code: Code): seq<OverlayError> {
    if wrong then [OverlayError(index, code)] else []
  }

  function RowErrors(a: Action, current: Row, keys: GroupKeys, i: nat): seq<OverlayError> {
    Report(i, a.oldTuple != current, StaleTuple)
    + Report(i, |a.oldTuple| != |current| || (a.ReplaceFact? && |a.newTuple| != |current|), ArityMismatch)
    + Report(i, !EntityMatches(a, current), EntityMismatch)
    + Report(i, GroupKeyMoved(keys, a, current), GroupKeyChanged)
  }

  function ErrorsAt(actions: seq<Action>, i: nat, relation: Relation, keys: GroupKeys): seq<OverlayError>
    requires i < |actions|
  {
    var a := actions[i];
    var row := VisibleRow(relation, a.pred, a.id);
    Report(i, exists j :: 0 <= j < i && actions[j].id == a.id, DuplicateId)
    + if row.None? then [OverlayError(i, NotVisible)] else RowErrors(a, row.value.tuple, keys, i)
  }

  function AllErrors(actions: seq<Action>, n: nat, relation: Relation, keys: GroupKeys): seq<OverlayError>
    requires n <= |actions|
  {
    if n == 0 then [] else AllErrors(actions, n - 1, relation, keys) + ErrorsAt(actions, n - 1, relation, keys)
  }

  method ValidateRow(a: Action, current: Row, keys: GroupKeys, i: nat) returns (errors: seq<OverlayError>)
    ensures errors == RowErrors(a, current, keys, i)
  {
    errors := [];
    if a.oldTuple != current {
      errors := errors + [OverlayError(i, StaleTuple)];
    }
    if |a.oldTuple| != |current| || (a.ReplaceFact? && |a.newTuple| != |current|) {
      errors := errors + [OverlayError(i, ArityMismatch)];
    }
    if !EntityMatches(a, current) {
      errors := errors + [OverlayError(i, EntityMismatch)];
    }
    if GroupKeyMoved(keys, a, current) {
      errors := errors + [OverlayError(i, GroupKeyChanged)];
    }
  }

  /** The errors of all actions, in order; there are none exactly for accepted actions. */
  method ValidateActions(actions: seq<Action>, relation: Relation, keys: GroupKeys) returns (errors: seq<OverlayError>)
    ensures errors == AllErrors(actions, |actions|, relation, keys)
    ensures errors == [] <==> Accepted(actions, relation, keys)
  {
    errors := [];
    var seen: set<string> := {};
    for i := 0 to |actions|
      invariant errors == AllErrors(actions, i, relation, keys)
      invariant forall id :: id in seen <==> exists j :: 0 <= j < i && actions[j].id == id
    {
      var a := actions[i];
      var found := [];
      if a.id in seen {
        found := [OverlayError(i, DuplicateId)];
      }
      seen := seen + {a.id};
      var row := VisibleRow(relation, a.pred, a.id);
      if row.None? {
        found := found + [OverlayError(i, NotVisible)];
      } else {
        var rowErrors := ValidateRow(a, row.value.tuple, keys, i);
        found := found + rowErrors;
      }
      errors := errors + found;
    }
    AcceptedWithoutErrors(actions, relation, keys);
  }

  // What an accepted action says about the row it names.
  predicate Fits(a: Action, relation: Relation, keys: GroupKeys) {
    && VisibleRow(relation, a.pred, a.id) == Some(Projected(a.id, a.oldTuple))
    && a.oldTuple != [] && a.oldTuple[0] == a.entity
    && (a.ReplaceFact? ==> |a.newTuple| == |a.oldTuple| && a.newTuple[0] == a.entity)
    && (a.ReplaceFact? && a.pred in keys ==> KeyKept(keys[a.pred], a.oldTuple, a.newTuple))
  }

  predicate DistinctIds(actions: seq<Action>) {
    forall i, j :: 0 <= i < j < |actions| ==> actions[i].id != actions[j].id
  }

  predicate Accepted(actions: seq<Action>, relation: Relation, keys: GroupKeys) {
    DistinctIds(actions) && forall i :: 0 <= i < |actions| ==> Fits(actions[i], relation, keys)
  }

  lemma {:induction false} LastRowIs(rows: seq<Projected>, id: string)
    ensures LastRow(rows, id).Some? ==> LastRow(rows, id).value in rows && LastRow(rows, id).value.id == id
    ensures LastRow(rows, id).None? ==> forall i :: 0 <= i < |rows| ==> rows[i].id != id
  {
    if rows != [] {
      LastRowIs(rows[..|rows| - 1], id);
    }
  }

  lemma FitsWithoutErrors(actions: seq<Action>, i: nat, relation: Relation, keys: GroupKeys)
    requires i < |actions|
    ensures ErrorsAt(actions, i, relation, keys) == []
      <==> Fits(actions[i], relation, keys) && forall j :: 0 <= j < i ==> actions[j].id != actions[i].id
  {
    var a := actions[i];
    if a.pred in relation {
      LastRowIs(relation[a.pred], a.id);
    }
  }

  lemma {:induction false} NoErrors(actions: seq<Action>, n: nat, relation: Relation, keys: GroupKeys)
    requires n <= |actions|
    ensures AllErrors(actions, n, relation, keys) == []
      <==> forall i :: 0 <= i < n ==> ErrorsAt(actions, i, relation, keys) == []
  {
    if n > 0 {
      NoErrors(actions, n - 1, relation, keys);
    }
  }

  lemma AcceptedWithoutErrors(actions: seq<Action>, relation: Relation, keys: GroupKeys)
    ensures AllErrors(actions, |actions|, relation, keys) == [] <==> Accepted(actions, relation, keys)
  {
    NoErrors(actions, |actions|, relation, keys);
    forall i | 0 <= i < |actions|
      ensures ErrorsAt(actions, i, relation, keys) == []
        <==> Fits(actions[i], relation, keys) && forall j :: 0 <= j < i ==> actions[j].id != actions[i].id
    {
      FitsWithoutErrors(actions, i, relation, keys);
    }
  }

  // ---------- projection ----------

  // Later actions win in the lookup table.
  function ActionFor(actions: seq<Action>, pred: string, id: string): Option<Action> {
    if actions == [] then None
    else
      var last := actions[|actions| - 1];
      if last.pred == pred && last.id == id then Some(last) else ActionFor(actions[..|actions| - 1], pred, id)
  }

  function AppliedRow(actions: seq<Action>, pred: string, row: Projected): seq<Projected> {
    match ActionFor(actions, pred, row.id)
    case None => [row]
    case Some(RemoveFact(_, _, _, _)) => []
    case Some(ReplaceFact(_, _, _, _, newTuple)) => [Projected(row.id, newTuple)]
  }

  function AppliedRows(actions: seq<Action>, pred: string, rows: seq<Projected>): seq<Projected> {
    if rows == [] then []
    else AppliedRows(actions, pred, rows[..|rows| - 1]) + AppliedRow(actions, pred, rows[|rows| - 1])
  }

  function Applied(actions: seq<Action>, relation: Relation): Relation {
    map p | p in relation :: AppliedRows(actions, p, relation[p])
  }

  // The look-up table of the actions.
  ghost predicate Tabled(table: map<(string, string), Action>, actions: seq<Action>) {
    forall p, id :: ActionFor(actions, p, id) == if (p, id) in table then Some(table[(p, id)]) else None
  }

  method TableActions(actions: seq<Action>) returns (table: map<(string, string), Action>)
    ensures Tabled(table, actions)
  {
    table := map[];
    for n := 0 to |actions|
      invariant Tabled(table, actions[..n])
    {
      assert actions[..n + 1][..n] == actions[..n];
      table := table[(actions[n].pred, actions[n].id) := actions[n]];
    }
    assert actions[..|actions|] == actions;
  }

  method ApplyToRows(table: map<(string, string), Action>, pred: string, rows: seq<Projected>, ghost actions: seq<Action>)
    returns (copied: seq<Projected>)
    requires Tabled(table, actions)
    ensures copied == AppliedRows(actions, pred, rows)
  {
    copied := [];
    for n := 0 to |rows|
      invariant copied == AppliedRows(actions, pred, rows[..n])
    {
      assert rows[..n + 1][..n] == rows[..n];
      var row := rows[n];
      if (pred, row.id) !in table {
        copied := copied + [row];
      } else if table[(pred, row.id)].ReplaceFact? {
        copied := copied + [Projected(row.id, table[(pred, row.id)].newTuple)];
      }
    }
    assert rows[..|rows|] == rows;
  }

  method ApplyProjection(actions: seq<Action>, relation: Relation) returns (output: Relation)
    ensures output == Applied(actions, relation)
  {
    var table := TableActions(actions);
    output := map[];
    var remaining := relation.Keys;
    while remaining != {}
      invariant remaining <= relation.Keys && output.Keys == relation.Keys - remaining
      invariant forall p :: p in output ==> output[p] == AppliedRows(actions, p, relation[p])
      decreases |remaining|
    {
      var pred :| pred in remaining;
      var copied := ApplyToRows(table, pred, relation[pred], actions);
      output := output[pred := copied];
      remaining := remaining - {pred};
    }
  }
}
