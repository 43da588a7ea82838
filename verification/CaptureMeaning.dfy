/** What a captured world holds and when a world can be captured. */
module CaptureMeaning {
  import opened Wrappers
  import opened ReplayWorlds
  import opened ReplayCapture
  import B = Base64Url
  import Order = StringOrder
  import WhereEval

  // ---------- facts ----------

  // Bytes are kept as base64url text under the tag "bytes", scalars in canonical form under any other.
  ghost predicate TermCaptured(schema: Schema, tag: string, raw: Raw, v: GoalValue) {
    && v.tag == tag
    && if raw.RawBytes? then tag == "bytes" && v.stored == WhereEval.Text(B.Encode(raw.bytes))
       else tag != "bytes" && schema.canonical(tag, raw.value) == Success(v.stored)
  }

  ghost predicate TermsCaptured(schema: Schema, tags: seq<string>, tuple: seq<Raw>, values: seq<GoalValue>) {
    && |values| == |tuple| == |tags|
    && forall i :: 0 <= i < |tags| ==> TermCaptured(schema, tags[i], tuple[i], values[i])
  }

  ghost predicate FactCaptured(schema: Schema, tags: seq<string>, fact: ProjectedFact, c: ReplayFact) {
    c.id == fact.id && TermsCaptured(schema, tags, fact.tuple, c.values)
  }

  lemma TermMeans(schema: Schema, tag: string, raw: Raw, v: GoalValue)
    ensures FromRaw(schema, tag, raw) == Success(v) <==> TermCaptured(schema, tag, raw, v)
  {
  }

  lemma TermsCons(schema: Schema, tags: seq<string>, tuple: seq<Raw>, values: seq<GoalValue>)
    requires |values| == |tuple| == |tags| > 0
    ensures TermsCaptured(schema, tags, tuple, values)
      <==> TermCaptured(schema, tags[0], tuple[0], values[0]) && TermsCaptured(schema, tags[1..], tuple[1..], values[1..])
  {
    if TermCaptured(schema, tags[0], tuple[0], values[0]) && TermsCaptured(schema, tags[1..], tuple[1..], values[1..]) {
      forall i | 0 <= i < |tags|
        ensures TermCaptured(schema, tags[i], tuple[i], values[i])
      {
        if i > 0 {
          assert TermCaptured(schema, tags[1..][i - 1], tuple[1..][i - 1], values[1..][i - 1]);
        }
      }
    }
  }

  lemma {:induction false} TupleMeans(schema: Schema, tags: seq<string>, tuple: seq<Raw>, values: seq<GoalValue>)
    requires |tags| == |tuple|
    ensures CaptureTuple(schema, tags, tuple) == Success(values) <==> TermsCaptured(schema, tags, tuple, values)
    decreases |tuple|
  {
    if tuple != [] && values != [] {
      TermMeans(schema, tags[0], tuple[0], values[0]);
      TupleMeans(schema, tags[1..], tuple[1..], values[1..]);
      if |values| == |tuple| {
        TermsCons(schema, tags, tuple, values);
      }
      assert values == [values[0]] + values[1..];
    }
  }

  lemma FactMeans(schema: Schema, tags: seq<string>, fact: ProjectedFact, c: ReplayFact)
    ensures CaptureFact(schema, tags, fact) == Success(c) <==> FactCaptured(schema, tags, fact, c)
  {
    if |fact.tuple| == |tags| {
      TupleMeans(schema, tags, fact.tuple, c.values);
    }
  }

  // ---------- the facts of a relation ----------

  ghost function IdsIn(facts: seq<ProjectedFact>): set<string> {
    set f | f in facts :: f.id
  }

  // No witness id was seen before, and none is repeated.
  ghost predicate Fresh(facts: seq<ProjectedFact>, seen: Seen) {
    && (forall i :: 0 <= i < |facts| ==> facts[i].id !in seen)
    && forall i, j :: 0 <= i < j < |facts| ==> facts[i].id != facts[j].id
  }

  ghost predicate FactsCaptured(schema: Schema, tags: seq<string>, facts: seq<ProjectedFact>, captured: seq<ReplayFact>) {
    |captured| == |facts| && forall i :: 0 <= i < |facts| ==> FactCaptured(schema, tags, facts[i], captured[i])
  }

  lemma FreshCons(facts: seq<ProjectedFact>, seen: Seen)
    requires facts != []
    ensures Fresh(facts, seen) <==> facts[0].id !in seen && Fresh(facts[1..], seen + {facts[0].id})
    ensures IdsIn(facts) == {facts[0].id} + IdsIn(facts[1..])
  {
    var rest := facts[1..];
    assert forall i :: 0 <= i < |rest| ==> rest[i] == facts[i + 1];
    assert facts == [facts[0]] + rest;
    assert forall f :: f in facts <==> f == facts[0] || f in rest;
    if facts[0].id !in seen && Fresh(rest, seen + {facts[0].id}) {
      forall i, j | 0 <= i < j < |facts|
        ensures facts[i].id != facts[j].id
      {
        assert rest[j - 1].id !in seen + {facts[0].id};
        assert i > 0 ==> rest[i - 1].id != rest[j - 1].id;
      }
      forall i | 0 <= i < |facts|
        ensures facts[i].id !in seen
      {
        assert i > 0 ==> rest[i - 1].id !in seen + {facts[0].id};
      }
    }
  }

  lemma FactsCons(schema: Schema, tags: seq<string>, facts: seq<ProjectedFact>, captured: seq<ReplayFact>)
    requires |facts| == |captured| > 0
    ensures FactsCaptured(schema, tags, facts, captured)
      <==> FactCaptured(schema, tags, facts[0], captured[0]) && FactsCaptured(schema, tags, facts[1..], captured[1..])
  {
    if FactCaptured(schema, tags, facts[0], captured[0]) && FactsCaptured(schema, tags, facts[1..], captured[1..]) {
      forall i | 0 <= i < |facts|
        ensures FactCaptured(schema, tags, facts[i], captured[i])
      {
        if i > 0 {
          assert FactCaptured(schema, tags, facts[1..][i - 1], captured[1..][i - 1]);
        }
      }
    }
  }

  // One step of the capture.
  lemma CapturesNext(schema: Schema, tags: seq<string>, facts: seq<ProjectedFact>, seen: Seen, captured: seq<ReplayFact>, after: Seen)
    requires facts != []
    ensures CaptureFacts(schema, tags, facts, seen) == Success((captured, after))
      <==> && captured != [] && facts[0].id !in seen && CaptureFact(schema, tags, facts[0]) == Success(captured[0])
           && CaptureFacts(schema, tags, facts[1..], seen + {facts[0].id}) == Success((captured[1..], after))
  {
    if captured != [] {
      assert captured == [captured[0]] + captured[1..];
    }
  }

  lemma {:induction false} FactsMean(schema: Schema, tags: seq<string>, facts: seq<ProjectedFact>, seen: Seen,
                                     captured: seq<ReplayFact>, after: Seen)
    ensures CaptureFacts(schema, tags, facts, seen) == Success((captured, after))
      <==> Fresh(facts, seen) && FactsCaptured(schema, tags, facts, captured) && after == seen + IdsIn(facts)
    decreases |facts|
  {
    if facts == [] {
      assert seen + IdsIn(facts) == seen;
    } else {
      CapturesNext(schema, tags, facts, seen, captured, after);
      FreshCons(facts, seen);
      if captured != [] {
        FactMeans(schema, tags, facts[0], captured[0]);
        FactsMean(schema, tags, facts[1..], seen + {facts[0].id}, captured[1..], after);
        if |captured| == |facts| {
          FactsCons(schema, tags, facts, captured);
        }
        assert seen + {facts[0].id} + IdsIn(facts[1..]) == seen + IdsIn(facts);
      }
    }
  }

  // ---------- one relation ----------

  // Strictly ascending by digest, so that no two facts share one.
  ghost predicate ByDigest(schema: Schema, facts: seq<ReplayFact>) {
    forall i, j :: 0 <= i < j < |facts| ==> Order.Less(schema.digest(facts[i]), schema.digest(facts[j]))
  }

  ghost predicate RelationCaptured(schema: Schema, pred: string, facts: seq<ProjectedFact>, r: ReplayRelation) {
    && pred in schema.tags && schema.tags[pred] != [] && r.pred == pred && r.tags == schema.tags[pred]
    && ByDigest(schema, r.facts)
    && exists captured :: FactsCaptured(schema, r.tags, facts, captured) && multiset(captured) == multiset(r.facts)
  }

  ghost predicate DigestsDiffer(schema: Schema, facts: seq<ReplayFact>) {
    forall i, j :: 0 <= i < j < |facts| ==> schema.digest(facts[i]) != schema.digest(facts[j])
  }

  ghost function Digests(schema: Schema, facts: seq<ReplayFact>): set<string> {
    set f | f in facts :: schema.digest(f)
  }

  lemma DigestsCons(schema: Schema, facts: seq<ReplayFact>)
    requires facts != []
    ensures Digests(schema, facts) == {schema.digest(facts[0])} + Digests(schema, facts[1..])
  {
    assert facts == [facts[0]] + facts[1..];
    assert forall f :: f in facts <==> f == facts[0] || f in facts[1..];
  }

  lemma DifferCons(schema: Schema, facts: seq<ReplayFact>)
    requires facts != []
    ensures DigestsDiffer(schema, facts) <==> schema.digest(facts[0]) !in Digests(schema, facts[1..]) && DigestsDiffer(schema, facts[1..])
  {
    var rest := facts[1..];
    assert forall i :: 0 <= i < |rest| ==> rest[i] == facts[i + 1];
    if schema.digest(facts[0]) !in Digests(schema, rest) && DigestsDiffer(schema, rest) {
      forall i, j | 0 <= i < j < |facts|
        ensures schema.digest(facts[i]) != schema.digest(facts[j])
      {
        assert facts[j] == rest[j - 1] && rest[j - 1] in rest;
        assert i > 0 ==> schema.digest(rest[i - 1]) != schema.digest(rest[j - 1]);
      }
    }
  }

  lemma {:induction false} DigestCount(schema: Schema, facts: seq<ReplayFact>)
    ensures |Digests(schema, facts)| <= |facts|
    ensures |Digests(schema, facts)| == |facts| <==> DigestsDiffer(schema, facts)
  {
    if facts != [] {
      DigestsCons(schema, facts);
      DifferCons(schema, facts);
      DigestCount(schema, facts[1..]);
    }
  }

  lemma SameDigests(schema: Schema, a: seq<ReplayFact>, b: seq<ReplayFact>)
    requires multiset(a) == multiset(b)
    ensures DigestsDiffer(schema, a) <==> DigestsDiffer(schema, b)
  {
    assert forall f :: f in a <==> f in multiset(a);
    assert forall f :: f in b <==> f in multiset(b);
    assert |a| == |multiset(a)| && |b| == |multiset(b)|;
    assert Digests(schema, a) == Digests(schema, b);
    DigestCount(schema, a);
    DigestCount(schema, b);
  }

  ghost predicate Ordered(schema: Schema, facts: seq<ReplayFact>) {
    forall i, j :: 0 <= i < j < |facts| ==> !Order.Less(schema.digest(facts[j]), schema.digest(facts[i]))
  }

  lemma NotLessTransitive(a: string, b: string, c: string)
    requires !Order.Less(b, a) && !Order.Less(c, b)
    ensures !Order.Less(c, a)
  {
    Order.LessTotal(b, a);
    Order.LessTotal(c, b);
    if Order.Less(c, a) {
      if a != b {
        Order.LessTransitive(c, a, b);
      }
    }
  }

  lemma OrderedCons(schema: Schema, first: ReplayFact, rest: seq<ReplayFact>)
    requires Ordered(schema, rest)
    requires forall f :: f in rest ==> !Order.Less(schema.digest(f), schema.digest(first))
    ensures Ordered(schema, [first] + rest)
  {
  }

  lemma {:induction false} InsertOrders(schema: Schema, fact: ReplayFact, facts: seq<ReplayFact>)
    requires Ordered(schema, facts)
    ensures Ordered(schema, InsertFact(schema, fact, facts))
    ensures forall f :: f in InsertFact(schema, fact, facts) <==> f == fact || f in facts
  {
    if facts != [] {
      var first, rest := facts[0], facts[1..];
      assert facts == [first] + rest;
      assert forall i :: 0 <= i < |rest| ==> rest[i] == facts[i + 1];
      if Order.Less(schema.digest(first), schema.digest(fact)) {
        InsertOrders(schema, fact, rest);
        Order.LessAsymmetric(schema.digest(first), schema.digest(fact));
        OrderedCons(schema, first, InsertFact(schema, fact, rest));
      } else {
        forall f | f in facts
          ensures !Order.Less(schema.digest(f), schema.digest(fact))
        {
          if f in rest {
            NotLessTransitive(schema.digest(fact), schema.digest(first), schema.digest(f));
          }
        }
        OrderedCons(schema, fact, facts);
      }
    }
  }

  lemma {:induction false} SortOrders(schema: Schema, facts: seq<ReplayFact>)
    ensures Ordered(schema, SortFacts(schema, facts))
  {
    if facts != [] {
      SortOrders(schema, facts[1..]);
      InsertOrders(schema, facts[0], SortFacts(schema, facts[1..]));
    }
  }

  lemma StrictlyOrdered(schema: Schema, facts: seq<ReplayFact>)
    requires Ordered(schema, facts) && DigestsDiffer(schema, facts)
    ensures ByDigest(schema, facts)
  {
    forall i, j | 0 <= i < j < |facts|
      ensures Order.Less(schema.digest(facts[i]), schema.digest(facts[j]))
    {
      Order.LessTotal(schema.digest(facts[i]), schema.digest(facts[j]));
    }
  }

  lemma ByDigestDiffer(schema: Schema, facts: seq<ReplayFact>)
    requires ByDigest(schema, facts)
    ensures DigestsDiffer(schema, facts)
  {
    forall i, j | 0 <= i < j < |facts|
      ensures schema.digest(facts[i]) != schema.digest(facts[j])
    {
      Order.LessIrreflexive(schema.digest(facts[i]));
    }
  }

  lemma MadeRelation(schema: Schema, pred: string, facts: seq<ReplayFact>)
    requires pred in schema.tags
    ensures MakeRelation(schema, pred, schema.tags[pred], facts).Success? <==> schema.tags[pred] != [] && DigestsDiffer(schema, facts)
    ensures MakeRelation(schema, pred, schema.tags[pred], facts).Success? ==>
      var r := MakeRelation(schema, pred, schema.tags[pred], facts).value;
      r.pred == pred && r.tags == schema.tags[pred] && ByDigest(schema, r.facts) && multiset(r.facts) == multiset(facts)
  {
    DigestCount(schema, facts);
    assert Digests(schema, facts) == set f | f in facts :: schema.digest(f);
    if DigestsDiffer(schema, facts) {
      var sorted := SortFacts(schema, facts);
      SortKeeps(schema, facts);
      SortOrders(schema, facts);
      SameDigests(schema, facts, sorted);
      StrictlyOrdered(schema, sorted);
    }
  }

  lemma CapturedRelation(schema: Schema, pred: string, facts: seq<ProjectedFact>, seen: Seen, r: ReplayRelation, after: Seen)
    requires CaptureRelation(schema, pred, facts, seen) == Success((r, after))
    ensures RelationCaptured(schema, pred, facts, r) && Fresh(facts, seen) && after == seen + IdsIn(facts)
  {
    var (captured, end) := CaptureFacts(schema, schema.tags[pred], facts, seen).value;
    FactsMean(schema, schema.tags[pred], facts, seen, captured, end);
    MadeRelation(schema, pred, captured);
  }

  lemma RelationCaptures(schema: Schema, pred: string, facts: seq<ProjectedFact>, seen: Seen, r: ReplayRelation)
    requires RelationCaptured(schema, pred, facts, r) && Fresh(facts, seen)
    ensures CaptureRelation(schema, pred, facts, seen).Success?
  {
    var captured :| FactsCaptured(schema, r.tags, facts, captured) && multiset(captured) == multiset(r.facts);
    FactsMean(schema, r.tags, facts, seen, captured, seen + IdsIn(facts));
    ByDigestDiffer(schema, r.facts);
    SameDigests(schema, captured, r.facts);
    MadeRelation(schema, pred, captured);
  }

  // ---------- worlds ----------

  ghost predicate PredsFresh(preds: seq<string>, relations: Relation, seen: Seen)
    requires forall p :: p in preds ==> p in relations
  {
    && (forall k :: 0 <= k < |preds| ==> Fresh(relations[preds[k]], seen))
    && forall j, k :: 0 <= j < k < |preds| ==> IdsIn(relations[preds[j]]) !! IdsIn(relations[preds[k]])
  }

  ghost predicate PredsCaptured(schema: Schema, preds: seq<string>, relations: Relation, rs: seq<ReplayRelation>)
    requires forall p :: p in preds ==> p in relations
  {
    |rs| == |preds| && forall k :: 0 <= k < |preds| ==> RelationCaptured(schema, preds[k], relations[preds[k]], rs[k])
  }

  lemma FreshMore(facts: seq<ProjectedFact>, seen: Seen, more: Seen)
    ensures Fresh(facts, seen + more) <==> Fresh(facts, seen) && IdsIn(facts) !! more
  {
    forall i | 0 <= i < |facts|
      ensures facts[i].id in IdsIn(facts)
    {
      assert facts[i] in facts;
    }
    if Fresh(facts, seen + more) {
      forall id | id in IdsIn(facts)
        ensures id !in more
      {
        var f :| f in facts && f.id == id;
        var i :| 0 <= i < |facts| && facts[i] == f;
        assert facts[i].id !in seen + more;
      }
    }
  }

  lemma PredsFreshCons(preds: seq<string>, relations: Relation, seen: Seen)
    requires preds != [] && forall p :: p in preds ==> p in relations
    ensures PredsFresh(preds, relations, seen) <==>
      Fresh(relations[preds[0]], seen) && PredsFresh(preds[1..], relations, seen + IdsIn(relations[preds[0]]))
  {
    var rest, more := preds[1..], IdsIn(relations[preds[0]]);
    assert forall k :: 0 <= k < |rest| ==> rest[k] == preds[k + 1];
    forall k | 0 <= k < |rest|
      ensures Fresh(relations[rest[k]], seen + more) <==> Fresh(relations[rest[k]], seen) && IdsIn(relations[rest[k]]) !! more
    {
      FreshMore(relations[rest[k]], seen, more);
    }
    if Fresh(relations[preds[0]], seen) && PredsFresh(rest, relations, seen + more) {
      forall j, k | 0 <= j < k < |preds|
        ensures IdsIn(relations[preds[j]]) !! IdsIn(relations[preds[k]])
      {
        assert preds[k] == rest[k - 1];
        assert Fresh(relations[rest[k - 1]], seen + more);
        assert j > 0 ==> IdsIn(relations[rest[j - 1]]) !! IdsIn(relations[rest[k - 1]]);
      }
      forall k | 0 <= k < |preds|
        ensures Fresh(relations[preds[k]], seen)
      {
        assert k > 0 ==> Fresh(relations[rest[k - 1]], seen + more);
      }
    }
  }

  lemma PredsCapturedCons(schema: Schema, preds: seq<string>, relations: Relation, first: ReplayRelation, rest: seq<ReplayRelation>)
    requires preds != [] && forall p :: p in preds ==> p in relations
    requires RelationCaptured(schema, preds[0], relations[preds[0]], first) && PredsCaptured(schema, preds[1..], relations, rest)
    ensures PredsCaptured(schema, preds, relations, [first] + rest)
  {
    forall k | 0 <= k < |preds|
      ensures RelationCaptured(schema, preds[k], relations[preds[k]], ([first] + rest)[k])
    {
      if k > 0 {
        assert RelationCaptured(schema, preds[1..][k - 1], relations[preds[1..][k - 1]], rest[k - 1]);
      }
    }
  }

  lemma {:induction false} CapturedRelations(schema: Schema, preds: seq<string>, relations: Relation, seen: Seen,
                                             rs: seq<ReplayRelation>, after: Seen)
    requires forall p :: p in preds ==> p in relations
    requires CaptureRelations(schema, preds, relations, seen) == Success((rs, after))
    ensures PredsCaptured(schema, preds, relations, rs) && PredsFresh(preds, relations, seen)
    decreases |preds|
  {
    if preds != [] {
      var (first, next) := CaptureRelation(schema, preds[0], relations[preds[0]], seen).value;
      var (rest, end) := CaptureRelations(schema, preds[1..], relations, next).value;
      CapturedRelation(schema, preds[0], relations[preds[0]], seen, first, next);
      CapturedRelations(schema, preds[1..], relations, next, rest, end);
      PredsCapturedCons(schema, preds, relations, first, rest);
      PredsFreshCons(preds, relations, seen);
    }
  }

  lemma {:induction false} RelationsCapture(schema: Schema, preds: seq<string>, relations: Relation, seen: Seen, rs: seq<ReplayRelation>)
    requires forall p :: p in preds ==> p in relations
    requires PredsCaptured(schema, preds, relations, rs) && PredsFresh(preds, relations, seen)
    ensures CaptureRelations(schema, preds, relations, seen).Success?
    decreases |preds|
  {
    if preds != [] {
      PredsFreshCons(preds, relations, seen);
      RelationCaptures(schema, preds[0], relations[preds[0]], seen, rs[0]);
      var (first, next) := CaptureRelation(schema, preds[0], relations[preds[0]], seen).value;
      CapturedRelation(schema, preds[0], relations[preds[0]], seen, first, next);
      var rest := rs[1..];
      assert forall k :: 0 <= k < |rest| ==> rest[k] == rs[k + 1] && preds[1..][k] == preds[k + 1];
      RelationsCapture(schema, preds[1..], relations, next, rest);
    }
  }

  // Every predicate once, in order, with its captured relation; no witness id occurs twice in the world.
  ghost predicate WorldCaptured(schema: Schema, relations: Relation, closureTargets: seq<string>, world: ReplayWorld) {
    && world.closureTargets == closureTargets
    && exists preds :: Order.Ascending(preds) && Lists(preds, relations)
         && PredsCaptured(schema, preds, relations, world.relations) && PredsFresh(preds, relations, {})
  }

  ghost predicate Lists(preds: seq<string>, relations: Relation) {
    forall p :: p in preds <==> p in relations
  }

  /** What a captured world holds. */
  lemma CapturedWorld(schema: Schema, relations: Relation, closureTargets: seq<string>)
    requires CaptureWorld(schema, relations, closureTargets).Success?
    ensures WorldCaptured(schema, relations, closureTargets, CaptureWorld(schema, relations, closureTargets).value)
  {
    var preds := Order.Sorted(relations.Keys);
    var (rs, after) := CaptureRelations(schema, preds, relations, {}).value;
    CapturedRelations(schema, preds, relations, {}, rs, after);
    assert Lists(preds, relations);
  }

  /** Relations can be captured exactly if such a world exists. */
  lemma CaptureSucceeds(schema: Schema, relations: Relation, closureTargets: seq<string>)
    ensures CaptureWorld(schema, relations, closureTargets).Success?
      <==> exists world :: WorldCaptured(schema, relations, closureTargets, world)
  {
    if CaptureWorld(schema, relations, closureTargets).Success? {
      CapturedWorld(schema, relations, closureTargets);
    }
    if world :| WorldCaptured(schema, relations, closureTargets, world) {
      var preds :| Order.Ascending(preds) && Lists(preds, relations)
        && PredsCaptured(schema, preds, relations, world.relations) && PredsFresh(preds, relations, {});
      assert Lists(Order.Sorted(relations.Keys), relations);
      Order.AscendingUnique(preds, Order.Sorted(relations.Keys));
      RelationsCapture(schema, preds, relations, {}, world.relations);
    }
  }
}
