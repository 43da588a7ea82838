/**
 Accepted actions commute: at once or one at a time, in any order, they give the same relation.
 What is not touched keeps its value, its place and its identifying columns.
 */
module OverlayAlgebra {
  import opened Wrappers
  import opened WhereEval
  import opened Overlay

  // ---------- one at a time ----------

  function ApplyEach(actions: seq<Action>, relation: Relation): Relation {
    if actions == [] then relation else ApplyEach(actions[1..], Applied([actions[0]], relation))
  }

  // Every action still fits the relation its predecessors leave.
  predicate AcceptedEach(actions: seq<Action>, relation: Relation, keys: GroupKeys) {
    actions != [] ==>
      && Accepted(actions, relation, keys)
      && AcceptedEach(actions[1..], Applied([actions[0]], relation), keys)
  }

  lemma {:induction false} ActionForIsListed(actions: seq<Action>, pred: string, id: string)
    ensures var found := ActionFor(actions, pred, id);
      found.Some? ==> found.value in actions && found.value.pred == pred && found.value.id == id
    ensures ActionFor(actions, pred, id).None? ==>
      forall i :: 0 <= i < |actions| ==> actions[i].pred != pred || actions[i].id != id
  {
    if actions != [] {
      ActionForIsListed(actions[..|actions| - 1], pred, id);
    }
  }

  lemma OneActionPerId(actions: seq<Action>, a: Action)
    requires DistinctIds(actions) && a in actions
    ensures ActionFor(actions, a.pred, a.id) == Some(a)
  {
    ActionForIsListed(actions, a.pred, a.id);
  }

  lemma SameActionFor(p: seq<Action>, q: seq<Action>, pred: string, id: string)
    requires DistinctIds(p) && DistinctIds(q)
    requires forall a :: a in p <==> a in q
    ensures ActionFor(p, pred, id) == ActionFor(q, pred, id)
  {
    ActionForIsListed(p, pred, id);
    ActionForIsListed(q, pred, id);
    if ActionFor(p, pred, id).Some? {
      OneActionPerId(q, ActionFor(p, pred, id).value);
    }
  }

  lemma {:induction false} SameRows(p: seq<Action>, q: seq<Action>, pred: string, rows: seq<Projected>)
    requires forall id :: ActionFor(p, pred, id) == ActionFor(q, pred, id)
    ensures AppliedRows(p, pred, rows) == AppliedRows(q, pred, rows)
  {
    if rows != [] {
      SameRows(p, q, pred, rows[..|rows| - 1]);
    }
  }

  lemma SameRelation(p: seq<Action>, q: seq<Action>, relation: Relation)
    requires DistinctIds(p) && DistinctIds(q)
    requires forall a :: a in p <==> a in q
    ensures Applied(p, relation) == Applied(q, relation)
  {
    forall pred | pred in relation
      ensures AppliedRows(p, pred, relation[pred]) == AppliedRows(q, pred, relation[pred])
    {
      forall id
        ensures ActionFor(p, pred, id) == ActionFor(q, pred, id)
      {
        SameActionFor(p, q, pred, id);
      }
      SameRows(p, q, pred, relation[pred]);
    }
  }

  // ---------- one action first ----------

  lemma {:induction false} ActionForFirst(a: Action, rest: seq<Action>, pred: string, id: string)
    ensures ActionFor([a] + rest, pred, id)
         == if ActionFor(rest, pred, id).Some? then ActionFor(rest, pred, id) else ActionFor([a], pred, id)
  {
    var all := [a] + rest;
    if rest == [] {
      assert all == [a];
    } else {
      assert all[..|all| - 1] == [a] + rest[..|rest| - 1];
      ActionForFirst(a, rest[..|rest| - 1], pred, id);
    }
  }

  lemma {:induction false} AppliedRowsConcat(actions: seq<Action>, pred: string, x: seq<Projected>, y: seq<Projected>)
    ensures AppliedRows(actions, pred, x + y) == AppliedRows(actions, pred, x) + AppliedRows(actions, pred, y)
  {
    if y == [] {
      assert x + y == x;
    } else {
      var n := |y| - 1;
      assert x + y == (x + y[..n]) + [y[n]] && y == y[..n] + [y[n]];
      AppliedRowsConcat(actions, pred, x, y[..n]);
      AppliedRowsSnoc(actions, pred, x + y[..n], y[n]);
      AppliedRowsSnoc(actions, pred, y[..n], y[n]);
    }
  }

  lemma AppliedRowsSnoc(actions: seq<Action>, pred: string, rows: seq<Projected>, row: Projected)
    ensures AppliedRows(actions, pred, rows + [row]) == AppliedRows(actions, pred, rows) + AppliedRow(actions, pred, row)
  {
    assert (rows + [row])[..|rows|] == rows;
  }

  lemma AppliedSingle(actions: seq<Action>, pred: string, row: Projected)
    ensures AppliedRows(actions, pred, [row]) == AppliedRow(actions, pred, row)
  {
    assert [row][..0] == [];
  }

  lemma SingleAction(a: Action, pred: string, id: string)
    ensures ActionFor([a], pred, id) == if a.pred == pred && a.id == id then Some(a) else None
  {
    assert [a][..0] == [];
  }

  lemma OthersElsewhere(a: Action, rest: seq<Action>)
    requires DistinctIds([a] + rest)
    ensures DistinctIds(rest) && forall i :: 0 <= i < |rest| ==> rest[i].id != a.id
  {
    var all := [a] + rest;
    assert all[0] == a && forall i :: 0 <= i < |rest| ==> rest[i] == all[i + 1];
  }

  lemma RowSplits(a: Action, rest: seq<Action>, pred: string, row: Projected)
    requires DistinctIds([a] + rest)
    ensures AppliedRow([a] + rest, pred, row) == AppliedRows(rest, pred, AppliedRow([a], pred, row))
  {
    OthersElsewhere(a, rest);
    ActionForFirst(a, rest, pred, row.id);
    SingleAction(a, pred, row.id);
    if a.pred == pred && a.id == row.id {
      ActionForIsListed(rest, pred, row.id);
      if a.ReplaceFact? {
        AppliedSingle(rest, pred, Projected(row.id, a.newTuple));
      }
    } else {
      AppliedSingle(rest, pred, row);
    }
  }

  lemma {:induction false} RowsSplit(a: Action, rest: seq<Action>, pred: string, rows: seq<Projected>)
    requires DistinctIds([a] + rest)
    ensures AppliedRows([a] + rest, pred, rows) == AppliedRows(rest, pred, AppliedRows([a], pred, rows))
  {
    if rows != [] {
      var before, last := rows[..|rows| - 1], rows[|rows| - 1];
      RowsSplit(a, rest, pred, before);
      RowSplits(a, rest, pred, last);
      AppliedRowsConcat(rest, pred, AppliedRows([a], pred, before), AppliedRow([a], pred, last));
    }
  }

  /** All at once is the first action and then the others. */
  lemma FirstThenRest(a: Action, rest: seq<Action>, relation: Relation)
    requires DistinctIds([a] + rest)
    ensures Applied([a] + rest, relation) == Applied(rest, Applied([a], relation))
  {
    forall p | p in relation
      ensures Applied([a] + rest, relation)[p] == Applied(rest, Applied([a], relation))[p]
    {
      RowsSplit(a, rest, p, relation[p]);
    }
  }

  lemma {:induction false} OtherRowStays(a: Action, pred: string, rows: seq<Projected>, id: string)
    requires a.id != id
    ensures LastRow(AppliedRows([a], pred, rows), id) == LastRow(rows, id)
  {
    if rows != [] {
      var before, last := AppliedRows([a], pred, rows[..|rows| - 1]), AppliedRow([a], pred, rows[|rows| - 1]);
      OtherRowStays(a, pred, rows[..|rows| - 1], id);
      ActionForIsListed([a], pred, rows[|rows| - 1].id);
      if last == [] {
        assert before + last == before;
      } else {
        assert (before + last)[..|before|] == before;
      }
    }
  }

  /** After an accepted action the others are still accepted. */
  lemma RestStillAccepted(a: Action, rest: seq<Action>, relation: Relation, keys: GroupKeys)
    requires Accepted([a] + rest, relation, keys)
    ensures Accepted(rest, Applied([a], relation), keys)
  {
    var all := [a] + rest;
    OthersElsewhere(a, rest);
    forall i | 0 <= i < |rest|
      ensures Fits(rest[i], Applied([a], relation), keys)
    {
      assert Fits(all[i + 1], relation, keys);
      OtherRowStays(a, rest[i].pred, relation[rest[i].pred], rest[i].id);
    }
  }

  lemma MovedElements(p: seq<Action>, k: nat, rest: seq<Action>)
    requires k < |p| && rest == p[..k] + p[k + 1..]
    ensures multiset(p) == multiset{p[k]} + multiset(rest)
    ensures forall a :: a in p <==> a in [p[k]] + rest
  {
    assert p == p[..k] + [p[k]] + p[k + 1..];
    assert forall a :: a in p <==> a in multiset(p);
    assert forall a :: a in rest <==> a in multiset(rest);
  }

  lemma MovedDistinct(p: seq<Action>, k: nat, rest: seq<Action>)
    requires k < |p| && rest == p[..k] + p[k + 1..] && DistinctIds(p)
    ensures DistinctIds([p[k]] + rest)
  {
    assert forall i :: 0 <= i < |rest| ==> rest[i] == p[if i < k then i else i + 1];
  }

  lemma MoveToFront(p: seq<Action>, k: nat)
    requires k < |p|
    ensures var rest := p[..k] + p[k + 1..];
      && multiset(p) == multiset{p[k]} + multiset(rest)
      && (forall a :: a in p <==> a in [p[k]] + rest)
      && (DistinctIds(p) ==> DistinctIds([p[k]] + rest))
  {
    MovedElements(p, k, p[..k] + p[k + 1..]);
    if DistinctIds(p) {
      MovedDistinct(p, k, p[..k] + p[k + 1..]);
    }
  }

  lemma SameRest(p: seq<Action>, q: seq<Action>, k: nat)
    requires multiset(p) == multiset(q) && q != [] && k < |p| && p[k] == q[0]
    ensures multiset(p[..k] + p[k + 1..]) == multiset(q[1..])
  {
    MoveToFront(p, k);
    assert q == [q[0]] + q[1..];
    assert multiset(q) == multiset{q[0]} + multiset(q[1..]);
    assert multiset(p[..k] + p[k + 1..]) == multiset(p) - multiset{p[k]};
    assert multiset(q[1..]) == multiset(q) - multiset{q[0]};
  }

  /** One action, wherever it stands in the list, can be applied first. */
  lemma AnyFirst(p: seq<Action>, k: nat, relation: Relation, keys: GroupKeys)
    requires k < |p| && Accepted(p, relation, keys)
    ensures Accepted(p[..k] + p[k + 1..], Applied([p[k]], relation), keys)
    ensures Applied(p, relation) == Applied(p[..k] + p[k + 1..], Applied([p[k]], relation))
  {
    var rest := p[..k] + p[k + 1..];
    var moved := [p[k]] + rest;
    MoveToFront(p, k);
    forall i | 0 <= i < |moved|
      ensures Fits(moved[i], relation, keys)
    {
      assert moved[i] in p;
    }
    SameRelation(p, moved, relation);
    FirstThenRest(p[k], rest, relation);
    RestStillAccepted(p[k], rest, relation, keys);
  }

  /** Any order, one at a time, is all at once; and every step is still accepted. */
  lemma {:induction false} AnyOrder(p: seq<Action>, q: seq<Action>, relation: Relation, keys: GroupKeys)
    requires multiset(p) == multiset(q) && Accepted(p, relation, keys)
    ensures AcceptedEach(q, relation, keys)
    ensures ApplyEach(q, relation) == Applied(p, relation)
    decreases |q|
  {
    if q == [] {
      assert p == [] by {
        assert |multiset(p)| == 0;
      }
      NothingApplied(relation);
    } else {
      assert q[0] in multiset(p);
      var k :| 0 <= k < |p| && p[k] == q[0];
      AnyFirst(p, k, relation, keys);
      SameRest(p, q, k);
      AcceptedPermutes(p, q, relation, keys);
      AnyOrder(p[..k] + p[k + 1..], q[1..], Applied([q[0]], relation), keys);
    }
  }

  lemma NothingApplied(relation: Relation)
    ensures Applied([], relation) == relation
  {
    forall p | p in relation
      ensures AppliedRows([], p, relation[p]) == relation[p]
    {
      NoRowChanges(p, relation[p]);
    }
  }

  lemma {:induction false} NoRowChanges(pred: string, rows: seq<Projected>)
    ensures AppliedRows([], pred, rows) == rows
  {
    if rows != [] {
      NoRowChanges(pred, rows[..|rows| - 1]);
    }
  }

  lemma AcceptedPermutes(p: seq<Action>, q: seq<Action>, relation: Relation, keys: GroupKeys)
    requires multiset(p) == multiset(q) && Accepted(p, relation, keys)
    ensures Accepted(q, relation, keys)
  {
    DistinctPermutes(p, q);
    forall i | 0 <= i < |q|
      ensures Fits(q[i], relation, keys)
    {
      assert q[i] in multiset(p);
    }
  }

  lemma {:induction false} DistinctPermutes(p: seq<Action>, q: seq<Action>)
    requires multiset(p) == multiset(q) && DistinctIds(p)
    ensures DistinctIds(q)
    decreases |q|
  {
    if q != [] {
      assert q[0] in multiset(p);
      var k :| 0 <= k < |p| && p[k] == q[0];
      var rest := p[..k] + p[k + 1..];
      MoveToFront(p, k);
      SameRest(p, q, k);
      OthersElsewhere(p[k], rest);
      DistinctPermutes(rest, q[1..]);
      forall i | 0 < i < |q|
        ensures q[i].id != q[0].id
      {
        assert q[1..][i - 1] in multiset(rest);
      }
      assert forall i :: 1 <= i < |q| ==> q[i] == q[1..][i - 1];
    }
  }

  // ---------- what stays ----------

  predicate Removed(actions: seq<Action>, pred: string, row: Projected) {
    exists a :: a in actions && a.RemoveFact? && a.pred == pred && a.id == row.id
  }

  function KeptRows(actions: seq<Action>, pred: string, rows: seq<Projected>): seq<Projected> {
    if rows == [] then []
    else
      KeptRows(actions, pred, rows[..|rows| - 1])
      + if Removed(actions, pred, rows[|rows| - 1]) then [] else [rows[|rows| - 1]]
  }

  // A row before and after: the same assertion, entity, arity and group key; the tuple is the new one of
  // the action that replaces it, and the same if none does.
  predicate SameRowAfter(actions: seq<Action>, keys: GroupKeys, pred: string, row: Projected, after: Projected) {
    && after.id == row.id
    && (forall a :: a in actions && a.pred == pred && a.id == row.id ==> a.ReplaceFact? && after.tuple == a.newTuple)
    && ((forall a :: a in actions ==> a.pred != pred || a.id != row.id) ==> after.tuple == row.tuple)
    && |after.tuple| == |row.tuple|
    && (row.tuple != [] ==> after.tuple[0] == row.tuple[0])
    && (pred in keys ==> KeyKept(keys[pred], row.tuple, after.tuple))
  }

  lemma {:induction false} UniqueLast(rows: seq<Projected>, i: nat)
    requires UniqueRows(rows) && i < |rows|
    ensures LastRow(rows, rows[i].id) == Some(rows[i])
  {
    if i < |rows| - 1 {
      UniqueLast(rows[..|rows| - 1], i);
    }
  }

  lemma ReplacedRow(actions: seq<Action>, relation: Relation, keys: GroupKeys, pred: string, i: nat)
    requires Accepted(actions, relation, keys) && pred in relation
    requires UniqueRows(relation[pred]) && i < |relation[pred]| && !Removed(actions, pred, relation[pred][i])
    ensures |AppliedRow(actions, pred, relation[pred][i])| == 1
    ensures SameRowAfter(actions, keys, pred, relation[pred][i], AppliedRow(actions, pred, relation[pred][i])[0])
  {
    var row := relation[pred][i];
    UniqueLast(relation[pred], i);
    ActionForIsListed(actions, pred, row.id);
    if a :| a in actions && a.pred == pred && a.id == row.id {
      OneActionPerId(actions, a);
      assert Fits(a, relation, keys);
      assert row.tuple == a.oldTuple;
    }
  }

  lemma RemovedRow(actions: seq<Action>, pred: string, row: Projected)
    requires DistinctIds(actions) && Removed(actions, pred, row)
    ensures AppliedRow(actions, pred, row) == []
  {
    var a :| a in actions && a.RemoveFact? && a.pred == pred && a.id == row.id;
    OneActionPerId(actions, a);
  }

  ghost predicate AllSame(actions: seq<Action>, keys: GroupKeys, pred: string, kept: seq<Projected>, after: seq<Projected>) {
    |after| == |kept| && forall i :: 0 <= i < |kept| ==> SameRowAfter(actions, keys, pred, kept[i], after[i])
  }

  lemma OneMoreSame(actions: seq<Action>, keys: GroupKeys, pred: string, kept: seq<Projected>, after: seq<Projected>,
                    row: Projected, rowAfter: Projected)
    requires AllSame(actions, keys, pred, kept, after) && SameRowAfter(actions, keys, pred, row, rowAfter)
    ensures AllSame(actions, keys, pred, kept + [row], after + [rowAfter])
  {
    assert forall i :: 0 <= i < |kept| ==> (kept + [row])[i] == kept[i] && (after + [rowAfter])[i] == after[i];
  }

  /** Row by row, the new relation is the old one without the removed rows, each row as it was or replaced. */
  lemma {:induction false} RowsKept(actions: seq<Action>, relation: Relation, keys: GroupKeys, pred: string, n: nat)
    requires Accepted(actions, relation, keys) && pred in relation && UniqueRows(relation[pred])
    requires n <= |relation[pred]|
    ensures AllSame(actions, keys, pred, KeptRows(actions, pred, relation[pred][..n]), AppliedRows(actions, pred, relation[pred][..n]))
  {
    if n > 0 {
      var rows := relation[pred];
      var before, row := rows[..n - 1], rows[n - 1];
      RowsKept(actions, relation, keys, pred, n - 1);
      assert rows[..n][..n - 1] == before && rows[..n][n - 1] == row;
      var kept, after := KeptRows(actions, pred, before), AppliedRows(actions, pred, before);
      if Removed(actions, pred, row) {
        RemovedRow(actions, pred, row);
        assert after + [] == after && kept + [] == kept;
      } else {
        ReplacedRow(actions, relation, keys, pred, n - 1);
        var rowAfter := AppliedRow(actions, pred, row);
        assert rowAfter == [rowAfter[0]];
        OneMoreSame(actions, keys, pred, kept, after, row, rowAfter[0]);
      }
    }
  }

  lemma RelationKept(actions: seq<Action>, relation: Relation, keys: GroupKeys, pred: string)
    requires Accepted(actions, relation, keys) && UniqueIds(relation) && pred in relation
    ensures var kept, after := KeptRows(actions, pred, relation[pred]), Applied(actions, relation)[pred];
      |after| == |kept| && forall i :: 0 <= i < |kept| ==> SameRowAfter(actions, keys, pred, kept[i], after[i])
  {
    assert relation[pred][..|relation[pred]|] == relation[pred];
    RowsKept(actions, relation, keys, pred, |relation[pred]|);
  }

  // ---------- counting removals ----------

  function Removals(actions: seq<Action>, pred: string): nat {
    if actions == [] then 0
    else (if actions[0].RemoveFact? && actions[0].pred == pred then 1 else 0) + Removals(actions[1..], pred)
  }

  function RowIds(rows: seq<Projected>): set<string> {
    set r | r in rows :: r.id
  }

  lemma RowIdsSnoc(rows: seq<Projected>, row: Projected)
    ensures RowIds(rows + [row]) == RowIds(rows) + {row.id}
    ensures UniqueRows(rows) && row.id !in RowIds(rows) ==> UniqueRows(rows + [row])
    ensures UniqueRows(rows + [row]) ==> UniqueRows(rows) && row.id !in RowIds(rows)
  {
    var all := rows + [row];
    assert forall r :: r in all <==> r in rows || r == row;
    assert forall i :: 0 <= i < |rows| ==> all[i] == rows[i] && rows[i] in rows;
    assert all[|rows|] == row;
  }

  lemma {:induction false} UniqueStays(a: Action, pred: string, rows: seq<Projected>)
    requires UniqueRows(rows)
    ensures UniqueRows(AppliedRows([a], pred, rows)) && RowIds(AppliedRows([a], pred, rows)) <= RowIds(rows)
  {
    if rows != [] {
      var before, last := rows[..|rows| - 1], rows[|rows| - 1];
      assert rows == before + [last];
      RowIdsSnoc(before, last);
      UniqueStays(a, pred, before);
      var done, row := AppliedRows([a], pred, before), AppliedRow([a], pred, last);
      if row == [] {
        assert done + row == done;
      } else {
        assert row == [row[0]] && row[0].id == last.id;
        RowIdsSnoc(done, row[0]);
      }
    }
  }

  lemma {:induction false} OneActionLength(a: Action, pred: string, rows: seq<Projected>)
    requires UniqueRows(rows)
    ensures |AppliedRows([a], pred, rows)|
         == |rows| - if a.RemoveFact? && a.pred == pred && LastRow(rows, a.id).Some? then 1 else 0
  {
    if rows != [] {
      var before, last := rows[..|rows| - 1], rows[|rows| - 1];
      OneActionLength(a, pred, before);
      LastRowIs(before, a.id);
      SingleAction(a, pred, last.id);
      assert forall j :: 0 <= j < |before| ==> before[j] == rows[j];
      if LastRow(before, a.id).Some? {
        var j :| 0 <= j < |before| && before[j] == LastRow(before, a.id).value;
        assert rows[j].id != last.id;
      }
    }
  }

  /** Exactly the removed rows are missing. */
  lemma {:induction false} RemovalsCounted(actions: seq<Action>, relation: Relation, keys: GroupKeys, pred: string)
    requires Accepted(actions, relation, keys) && UniqueIds(relation) && pred in relation
    ensures |Applied(actions, relation)[pred]| == |relation[pred]| - Removals(actions, pred)
    decreases |actions|
  {
    if actions == [] {
      NothingApplied(relation);
    } else {
      var a, rest := actions[0], actions[1..];
      assert actions == [a] + rest;
      FirstThenRest(a, rest, relation);
      RestStillAccepted(a, rest, relation, keys);
      forall p | p in relation
        ensures UniqueRows(AppliedRows([a], p, relation[p]))
      {
        UniqueStays(a, p, relation[p]);
      }
      assert Fits(a, relation, keys);
      OneActionLength(a, pred, relation[pred]);
      RemovalsCounted(rest, Applied([a], relation), keys, pred);
    }
  }
}
