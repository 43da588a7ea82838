/** When an action is accepted, which errors are reported, and what is then under every id. */
module OverlayMeaning {
  import opened Wrappers
  import opened WhereEval
  import opened Overlay
  import opened OverlayAlgebra

  // ---------- the row an action names ----------

  // The last row of the predicate with this id.
  ghost predicate Names(relation: Relation, pred: string, id: string, tuple: Row) {
    pred in relation && exists i: nat :: LastWithId(relation[pred], id, i) && relation[pred][i].tuple == tuple
  }

  ghost predicate LastWithId(rows: seq<Projected>, id: string, i: nat) {
    i < |rows| && rows[i].id == id && forall j :: i < j < |rows| ==> rows[j].id != id
  }

  lemma {:induction false} LastRowMeans(rows: seq<Projected>, id: string)
    ensures var r := LastRow(rows, id);
      if r.Some? then exists i: nat :: LastWithId(rows, id, i) && rows[i] == r.value else forall i :: 0 <= i < |rows| ==> rows[i].id != id
  {
    if rows != [] && rows[|rows| - 1].id != id {
      var before := rows[..|rows| - 1];
      LastRowMeans(before, id);
      var r := LastRow(before, id);
      if r.Some? {
        var i: nat :| LastWithId(before, id, i) && before[i] == r.value;
        assert LastWithId(rows, id, i) && rows[i] == r.value;
      } else {
        assert forall i :: 0 <= i < |before| ==> rows[i] == before[i];
      }
    } else if rows != [] {
      assert LastWithId(rows, id, |rows| - 1);
    }
  }

  lemma VisibleRowMeans(relation: Relation, pred: string, id: string, tuple: Row)
    ensures VisibleRow(relation, pred, id) == Some(Projected(id, tuple)) <==> Names(relation, pred, id, tuple)
    ensures VisibleRow(relation, pred, id).Some? ==> VisibleRow(relation, pred, id).value.id == id
  {
    if pred in relation {
      var rows := relation[pred];
      LastRowMeans(rows, id);
      var r := LastRow(rows, id);
      if r.Some? {
        var i: nat :| LastWithId(rows, id, i) && rows[i] == r.value;
        assert forall j: nat :: LastWithId(rows, id, j) ==> j == i;
      }
    }
  }

  // ---------- errors ----------

  ghost predicate GroupKeyDiffers(indexes: seq<int>, a: Row, b: Row) {
    exists n :: 0 <= n < |indexes| && 0 <= indexes[n] < |a| && indexes[n] < |b| && a[indexes[n]] != b[indexes[n]]
  }

  ghost predicate About(row: Row, entity: Value) {
    |row| > 0 && row[0] == entity
  }

  // What each code says about action i.
  ghost predicate Holds(actions: seq<Action>, i: nat, relation: Relation, keys: GroupKeys, code: Code)
    requires i < |actions|
  {
    var a := actions[i];
    if code == DuplicateId then exists j :: 0 <= j < i && actions[j].id == a.id
    else if code == NotVisible then forall tuple :: !Names(relation, a.pred, a.id, tuple)
    else exists current :: Names(relation, a.pred, a.id, current) && RowHolds(a, current, keys, code)
  }

  ghost predicate RowHolds(a: Action, current: Row, keys: GroupKeys, code: Code) {
    match code
    case StaleTuple => a.oldTuple != current
    case ArityMismatch => |a.oldTuple| != |current| || (a.ReplaceFact? && |a.newTuple| != |current|)
    case EntityMismatch =>
      !About(current, a.entity) || !About(a.oldTuple, a.entity) || (a.ReplaceFact? && !About(a.newTuple, a.entity))
    case GroupKeyChanged => a.ReplaceFact? && a.pred in keys && GroupKeyDiffers(keys[a.pred], current, a.newTuple)
    case _ => false
  }

  lemma GroupKeyMeans(indexes: seq<int>, a: Row, b: Row)
    ensures KeyKept(indexes, a, b) <==> !GroupKeyDiffers(indexes, a, b)
  {
    if k :| k in indexes && 0 <= k < |a| && k < |b| && a[k] != b[k] {
      var n :| 0 <= n < |indexes| && indexes[n] == k;
    }
    if n :| 0 <= n < |indexes| && 0 <= indexes[n] < |a| && indexes[n] < |b| && a[indexes[n]] != b[indexes[n]] {
      assert indexes[n] in indexes;
    }
  }

  lemma RowErrorsMean(a: Action, current: Row, keys: GroupKeys, i: nat, e: OverlayError)
    ensures e in RowErrors(a, current, keys, i) <==> e.index == i && RowHolds(a, current, keys, e.code)
  {
    if a.ReplaceFact? && a.pred in keys {
      GroupKeyMeans(keys[a.pred], current, a.newTuple);
    }
  }

  lemma ErrorsAtMean(actions: seq<Action>, i: nat, relation: Relation, keys: GroupKeys, e: OverlayError)
    requires i < |actions|
    ensures e in ErrorsAt(actions, i, relation, keys) <==> e.index == i && Holds(actions, i, relation, keys, e.code)
  {
    var a := actions[i];
    var row := VisibleRow(relation, a.pred, a.id);
    forall tuple
      ensures row == Some(Projected(a.id, tuple)) <==> Names(relation, a.pred, a.id, tuple)
    {
      VisibleRowMeans(relation, a.pred, a.id, tuple);
    }
    if row.Some? {
      VisibleRowMeans(relation, a.pred, a.id, row.value.tuple);
      RowErrorsMean(a, row.value.tuple, keys, i, e);
    }
  }

  ghost predicate Reportable(actions: seq<Action>, n: nat, relation: Relation, keys: GroupKeys, e: OverlayError)
    requires n <= |actions|
  {
    e.index < n && Holds(actions, e.index, relation, keys, e.code)
  }

  lemma ReportableNext(actions: seq<Action>, n: nat, relation: Relation, keys: GroupKeys, e: OverlayError,
                       before: seq<OverlayError>, at: seq<OverlayError>)
    requires n < |actions|
    requires e in before <==> Reportable(actions, n, relation, keys, e)
    requires e in at <==> e.index == n && Holds(actions, n, relation, keys, e.code)
    ensures e in before + at <==> Reportable(actions, n + 1, relation, keys, e)
  {
  }

  /** Exactly the errors that hold of some action are reported, each with the number of the action. */
  lemma {:induction false} ErrorsMean(actions: seq<Action>, n: nat, relation: Relation, keys: GroupKeys, e: OverlayError)
    requires n <= |actions|
    ensures e in AllErrors(actions, n, relation, keys) <==> Reportable(actions, n, relation, keys, e)
  {
    if n > 0 {
      ErrorsMean(actions, n - 1, relation, keys, e);
      ErrorsAtMean(actions, n - 1, relation, keys, e);
      ReportableNext(actions, n - 1, relation, keys, e, AllErrors(actions, n - 1, relation, keys), ErrorsAt(actions, n - 1, relation, keys));
    }
  }

  // ---------- rows ----------

  ghost predicate Untouched(actions: seq<Action>, pred: string, id: string) {
    forall i :: 0 <= i < |actions| ==> actions[i].pred != pred || actions[i].id != id
  }

  ghost predicate ReplacedBy(actions: seq<Action>, pred: string, row: Projected) {
    exists i :: 0 <= i < |actions| && actions[i].ReplaceFact? && actions[i].pred == pred && row == Projected(actions[i].id, actions[i].newTuple)
  }

  lemma AppliedRowMeans(actions: seq<Action>, pred: string, row: Projected, r: Projected)
    requires DistinctIds(actions)
    ensures r in AppliedRow(actions, pred, row) <==>
      r.id == row.id && ((Untouched(actions, pred, row.id) && r == row) || ReplacedBy(actions, pred, r))
  {
    ActionForIsListed(actions, pred, row.id);
    if i :| 0 <= i < |actions| && actions[i].pred == pred && actions[i].id == row.id {
      OneActionPerId(actions, actions[i]);
      assert forall j :: 0 <= j < |actions| && actions[j].id == row.id ==> actions[j] == actions[i];
    }
  }

  lemma {:induction false} AppliedRowsMean(actions: seq<Action>, pred: string, rows: seq<Projected>, r: Projected)
    requires DistinctIds(actions)
    ensures r in AppliedRows(actions, pred, rows) <==>
      (r in rows && Untouched(actions, pred, r.id)) || (ReplacedBy(actions, pred, r) && HasId(rows, r.id))
  {
    if rows != [] {
      AppliedRowsMean(actions, pred, rows[..|rows| - 1], r);
      AppliedRowMeans(actions, pred, rows[|rows| - 1], r);
      assert rows == rows[..|rows| - 1] + [rows[|rows| - 1]];
    }
  }

  ghost predicate HasId(rows: seq<Projected>, id: string) {
    exists row :: row in rows && row.id == id
  }

  /**
   After accepted actions a predicate holds the rows that no action names, unchanged, and for each replacement
   its new tuple under the same id. Nothing is under the id of a removal.
   */
  lemma AppliedMeans(actions: seq<Action>, relation: Relation, keys: GroupKeys, pred: string, r: Projected)
    requires Accepted(actions, relation, keys) && pred in relation
    ensures Applied(actions, relation).Keys == relation.Keys
    ensures r in Applied(actions, relation)[pred] <==>
      (r in relation[pred] && Untouched(actions, pred, r.id)) || ReplacedBy(actions, pred, r)
  {
    AppliedRowsMean(actions, pred, relation[pred], r);
    if i :| 0 <= i < |actions| && actions[i].ReplaceFact? && actions[i].pred == pred && r == Projected(actions[i].id, actions[i].newTuple) {
      assert Fits(actions[i], relation, keys);
      VisibleRowMeans(relation, pred, r.id, actions[i].oldTuple);
      var k: nat :| LastWithId(relation[pred], r.id, k) && relation[pred][k].tuple == actions[i].oldTuple;
      assert relation[pred][k] in relation[pred];
    }
  }
}
