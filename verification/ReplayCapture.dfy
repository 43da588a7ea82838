/** Whole worlds: every relation captured in predicate order, and restored with the same facts. */
module ReplayCapture {
  import opened Wrappers
  import Order = StringOrder
  import opened ReplayWorlds

  // Facts are kept in the order of their digests; no two may share one.
  function MakeRelation(schema: Schema, pred: string, tags: seq<string>, facts: seq<ReplayFact>): Result<ReplayRelation, string> {
    if tags == [] then Failure("RELATION_SHAPE")
    else if |set f | f in facts :: schema.digest(f)| != |facts| then Failure("DUPLICATE_FACT")
    else Success(ReplayRelation(pred, tags, SortFacts(schema, facts)))
  }

  function CaptureRelation(schema: Schema, pred: string, facts: seq<ProjectedFact>, seen: Seen)
    : Result<(ReplayRelation, Seen), string>
  {
    if pred !in schema.tags then Failure("UNKNOWN_PREDICATE")
    else
      var captured :- CaptureFacts(schema, schema.tags[pred], facts, seen);
      var relation :- MakeRelation(schema, pred, schema.tags[pred], captured.0);
      Success((relation, captured.1))
  }

  function CaptureRelations(schema: Schema, preds: seq<string>, relations: Relation, seen: Seen)
    : Result<(seq<ReplayRelation>, Seen), string>
    requires forall p :: p in preds ==> p in relations
    decreases |preds|
  {
    if preds == [] then Success(([], seen))
    else
      var first :- CaptureRelation(schema, preds[0], relations[preds[0]], seen);
      var rest :- CaptureRelations(schema, preds[1..], relations, first.1);
      Success(([first.0] + rest.0, rest.1))
  }

  /** A world holds every relation, sorted by predicate; witness ids may not repeat anywhere in it. */
  function CaptureWorld(schema: Schema, relations: Relation, closureTargets: seq<string>): Result<ReplayWorld, string> {
    var captured :- CaptureRelations(schema, Order.Sorted(relations.Keys), relations, {});
    Success(ReplayWorld(closureTargets, captured.0))
  }

  function RestoreRelation(schema: Schema, relation: ReplayRelation, seen: Seen): Result<(seq<ProjectedFact>, Seen), string> {
    if relation.pred !in schema.tags || relation.tags != schema.tags[relation.pred] then Failure("SCHEMA_MISMATCH")
    else RestoreFacts(relation.tags, relation.facts, seen)
  }

  function RestoreRelations(schema: Schema, relations: seq<ReplayRelation>, seen: Seen): Result<Relation, string>
    decreases |relations|
  {
    if relations == [] then Success(map[])
    else
      var first :- RestoreRelation(schema, relations[0], seen);
      var rest :- RestoreRelations(schema, relations[1..], first.1);
      Success(map[relations[0].pred := first.0] + rest)
  }

  function WorldRelation(schema: Schema, world: ReplayWorld): Result<Relation, string> {
    RestoreRelations(schema, world.relations, {})
  }

  // ---------- the loops ----------

  method CaptureFactsLoop(schema: Schema, tags: seq<string>, facts: seq<ProjectedFact>, before: Seen)
    returns (r: Result<(seq<ReplayFact>, Seen), string>)
    ensures r == CaptureFacts(schema, tags, facts, before)
  {
    var captured: seq<ReplayFact> := [];
    var seen := before;
    assert facts[0..] == facts;
    NothingAfter(CaptureFacts(schema, tags, facts, before));
    for k := 0 to |facts|
      invariant CaptureFacts(schema, tags, facts, before) == After(captured, CaptureFacts(schema, tags, facts[k..], seen))
    {
      assert facts[k..][0] == facts[k] && facts[k..][1..] == facts[k + 1..];
      if |facts[k].tuple| != |tags| {
        return Failure("SCHEMA_MISMATCH");
      }
      if facts[k].id in seen {
        return Failure("WITNESS_DUPLICATE");
      }
      var fact := CaptureFact(schema, tags, facts[k]);
      if fact.Failure? {
        return Failure(fact.error);
      }
      seen := seen + {facts[k].id};
      OneAfter(captured, fact.value, CaptureFacts(schema, tags, facts[k + 1..], seen));
      captured := captured + [fact.value];
    }
    assert captured + [] == captured;
    r := Success((captured, seen));
  }

  method RestoreFactsLoop(tags: seq<string>, facts: seq<ReplayFact>, before: Seen)
    returns (r: Result<(seq<ProjectedFact>, Seen), string>)
    ensures r == RestoreFacts(tags, facts, before)
  {
    var rows: seq<ProjectedFact> := [];
    var seen := before;
    assert facts[0..] == facts;
    NothingAfter(RestoreFacts(tags, facts, before));
    for k := 0 to |facts|
      invariant RestoreFacts(tags, facts, before) == After(rows, RestoreFacts(tags, facts[k..], seen))
    {
      assert facts[k..][0] == facts[k] && facts[k..][1..] == facts[k + 1..];
      if facts[k].id in seen {
        return Failure("WITNESS_DUPLICATE");
      }
      if TagsOf(facts[k].values) != tags {
        return Failure("SCHEMA_MISMATCH");
      }
      var row := RestoreFact(facts[k]);
      if row.Failure? {
        return Failure(row.error);
      }
      seen := seen + {facts[k].id};
      OneAfter(rows, row.value, RestoreFacts(tags, facts[k + 1..], seen));
      rows := rows + [row.value];
    }
    assert rows + [] == rows;
    r := Success((rows, seen));
  }

  function ItemsOf<T>(rest: Result<(seq<T>, Seen), string>): Result<seq<T>, string> {
    if rest.Failure? then Failure(rest.error) else Success(rest.value.0)
  }

  // What is collected so far, and the witnesses the rest of the loop leaves.
  function After<T>(done: seq<T>, rest: Result<(seq<T>, Seen), string>): Result<(seq<T>, Seen), string> {
    var items :- Behind(done, ItemsOf(rest));
    Success((items, rest.value.1))
  }

  lemma NothingAfter<T>(rest: Result<(seq<T>, Seen), string>)
    ensures After([], rest) == rest
  {
    BehindNothing(ItemsOf(rest));
  }

  lemma OneAfter<T>(done: seq<T>, item: T, rest: Result<(seq<T>, Seen), string>)
    ensures After(done + [item], rest) == After(done, After([item], rest))
  {
    BehindOne(done, item, ItemsOf(rest));
  }

  method CaptureRelationLoop(schema: Schema, pred: string, facts: seq<ProjectedFact>, seen: Seen)
    returns (r: Result<(ReplayRelation, Seen), string>)
    ensures r == CaptureRelation(schema, pred, facts, seen)
  {
    if pred !in schema.tags {
      return Failure("UNKNOWN_PREDICATE");
    }
    var captured := CaptureFactsLoop(schema, schema.tags[pred], facts, seen);
    if captured.Failure? {
      return Failure(captured.error);
    }
    var relation :- MakeRelation(schema, pred, schema.tags[pred], captured.value.0);
    r := Success((relation, captured.value.1));
  }

  method CaptureRelationsLoop(schema: Schema, preds: seq<string>, relations: Relation)
    returns (r: Result<(seq<ReplayRelation>, Seen), string>)
    requires forall p :: p in preds ==> p in relations
    ensures r == CaptureRelations(schema, preds, relations, {})
  {
    var captured: seq<ReplayRelation> := [];
    var seen: Seen := {};
    ghost var all := CaptureRelations(schema, preds, relations, {});
    assert preds[0..] == preds;
    NothingAfter(all);
    for k := 0 to |preds|
      invariant all == After(captured, CaptureRelations(schema, preds[k..], relations, seen))
    {
      assert preds[k..][0] == preds[k] && preds[k..][1..] == preds[k + 1..];
      var relation := CaptureRelationLoop(schema, preds[k], relations[preds[k]], seen);
      if relation.Failure? {
        return Failure(relation.error);
      }
      seen := relation.value.1;
      OneAfter(captured, relation.value.0, CaptureRelations(schema, preds[k + 1..], relations, seen));
      captured := captured + [relation.value.0];
    }
    assert captured + [] == captured;
    r := Success((captured, seen));
  }

  method CaptureWorldLoop(schema: Schema, relations: Relation, closureTargets: seq<string>) returns (r: Result<ReplayWorld, string>)
    ensures r == CaptureWorld(schema, relations, closureTargets)
  {
    var captured :- CaptureRelationsLoop(schema, Order.Sorted(relations.Keys), relations);
    r := Success(ReplayWorld(closureTargets, captured.0));
  }

  // ---------- restoring what was captured ----------

  predicate CanonicalRelation(schema: Schema, relations: Relation) {
    forall p :: p in relations && p in schema.tags ==>
      forall i :: 0 <= i < |relations[p]| ==> CanonicalTuple(schema, schema.tags[p], relations[p][i].tuple)
  }

  // The same predicates with the same facts, in whatever order.
  ghost predicate SameFacts(a: Relation, b: Relation) {
    a.Keys == b.Keys && forall p :: p in a ==> multiset(a[p]) == multiset(b[p])
  }

  lemma RelationRestored(schema: Schema, pred: string, facts: seq<ProjectedFact>, seen: Seen)
    requires CaptureRelation(schema, pred, facts, seen).Success?
    requires forall i :: 0 <= i < |facts| ==> pred in schema.tags ==> CanonicalTuple(schema, schema.tags[pred], facts[i].tuple)
    ensures var (relation, after) := CaptureRelation(schema, pred, facts, seen).value;
            var restored := RestoreRelation(schema, relation, seen);
      && relation.pred == pred && restored.Success?
      && multiset(restored.value.0) == multiset(facts) && restored.value.1 == after
  {
    var tags := schema.tags[pred];
    var (captured, after) := CaptureFacts(schema, tags, facts, seen).value;
    CapturedFacts(schema, tags, facts, seen, captured, after);
    SortedFactsRestore(schema, tags, captured, facts, seen);
  }

  lemma {:induction false} RelationsRestored(schema: Schema, preds: seq<string>, relations: Relation, seen: Seen)
    requires Order.Ascending(preds) && (forall p :: p in preds ==> p in relations) && CanonicalRelation(schema, relations)
    requires CaptureRelations(schema, preds, relations, seen).Success?
    ensures var restored := RestoreRelations(schema, CaptureRelations(schema, preds, relations, seen).value.0, seen);
      && restored.Success?
      && (forall p :: p in restored.value <==> p in preds)
      && (forall p :: p in preds ==> multiset(restored.value[p]) == multiset(relations[p]))
    decreases |preds|
  {
    if preds != [] {
      var p := preds[0];
      var (first, after) := CaptureRelation(schema, p, relations[p], seen).value;
      RelationRestored(schema, p, relations[p], seen);
      Order.AscendingTail(preds);
      RelationsRestored(schema, preds[1..], relations, after);
      var rest := CaptureRelations(schema, preds[1..], relations, after).value.0;
      assert CaptureRelations(schema, preds, relations, seen).value.0 == [first] + rest;
      assert ([first] + rest)[1..] == rest;
      assert forall q :: q in preds <==> q == p || q in preds[1..];
    }
  }

  /** A captured world restores to the same facts under the same predicates. */
  lemma WorldRestored(schema: Schema, relations: Relation, closureTargets: seq<string>)
    requires CanonicalRelation(schema, relations) && CaptureWorld(schema, relations, closureTargets).Success?
    ensures var restored := WorldRelation(schema, CaptureWorld(schema, relations, closureTargets).value);
      restored.Success? && SameFacts(restored.value, relations)
  {
    RelationsRestored(schema, Order.Sorted(relations.Keys), relations, {});
  }
}
