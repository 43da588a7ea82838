/** Finite typed relations captured as sealed replay worlds, and restored from them. */
module ReplayWorlds {
  import opened Wrappers
  import B = Base64Url
  import Order = StringOrder
  import WhereEval

  type Value = WhereEval.Value

  // A raw term as an engine sees it.
  datatype Raw = RawBytes(bytes: seq<B.Byte>) | RawScalar(value: Value)

  // A captured term: canonical storage form under its tag; bytes are stored as base64url text.
  datatype GoalValue = GoalValue(tag: string, stored: Value)

  datatype ProjectedFact = ProjectedFact(id: string, tuple: seq<Raw>)

  datatype ReplayFact = ReplayFact(id: string, values: seq<GoalValue>)

  datatype ReplayRelation = ReplayRelation(pred: string, tags: seq<string>, facts: seq<ReplayFact>)

  datatype ReplayWorld = ReplayWorld(closureTargets: seq<string>, relations: seq<ReplayRelation>)

  type Relation = map<string, seq<ProjectedFact>>

  // Value tags per predicate, the canonical form of scalars, and an injective digest of facts.
  datatype Schema = Schema(tags: map<string, seq<string>>, canonical: (string, Value) -> Result<Value, string>,
                           digest: ReplayFact -> string)

  // ---------- terms ----------

  function FromRaw(schema: Schema, tag: string, raw: Raw): Result<GoalValue, string> {
    match raw
    case RawBytes(bytes) =>
      if tag == "bytes" then Success(GoalValue(tag, WhereEval.Text(B.Encode(bytes)))) else Failure("SCHEMA_MISMATCH")
    case RawScalar(value) =>
      if tag == "bytes" then Failure("SCHEMA_MISMATCH")
      else
        var stored :- schema.canonical(tag, value);
        Success(GoalValue(tag, stored))
  }

  function ToRaw(v: GoalValue): Result<Raw, string> {
    if v.tag == "bytes" then
      if !v.stored.Text? then Failure("SCHEMA_MISMATCH")
      else
        var bytes :- B.DecodeB64u(v.stored.s);
        Success(RawBytes(bytes))
    else Success(RawScalar(v.stored))
  }

  // A scalar already in canonical form; bytes always are.
  predicate CanonicalRaw(schema: Schema, tag: string, raw: Raw) {
    raw.RawScalar? ==> schema.canonical(tag, raw.value) == Success(raw.value)
  }

  lemma TermRestored(schema: Schema, tag: string, raw: Raw)
    requires CanonicalRaw(schema, tag, raw) && FromRaw(schema, tag, raw).Success?
    ensures FromRaw(schema, tag, raw).value.tag == tag && ToRaw(FromRaw(schema, tag, raw).value) == Success(raw)
  {
    if raw.RawBytes? {
      B.RoundTrip(raw.bytes);
    }
  }

  function CaptureTuple(schema: Schema, tags: seq<string>, tuple: seq<Raw>): Result<seq<GoalValue>, string>
    requires |tags| == |tuple|
  {
    if tuple == [] then Success([])
    else
      var first :- FromRaw(schema, tags[0], tuple[0]);
      var rest :- CaptureTuple(schema, tags[1..], tuple[1..]);
      Success([first] + rest)
  }

  function RestoreTuple(values: seq<GoalValue>): Result<seq<Raw>, string> {
    if values == [] then Success([])
    else
      var first :- ToRaw(values[0]);
      var rest :- RestoreTuple(values[1..]);
      Success([first] + rest)
  }

  function TagsOf(values: seq<GoalValue>): seq<string> {
    if values == [] then [] else [values[0].tag] + TagsOf(values[1..])
  }

  predicate CanonicalTuple(schema: Schema, tags: seq<string>, tuple: seq<Raw>) {
    |tags| == |tuple| ==> forall i :: 0 <= i < |tuple| ==> CanonicalRaw(schema, tags[i], tuple[i])
  }

  lemma RestoreTupleCons(v: GoalValue, values: seq<GoalValue>, raw: Raw, tuple: seq<Raw>)
    requires ToRaw(v) == Success(raw) && RestoreTuple(values) == Success(tuple)
    ensures RestoreTuple([v] + values) == Success([raw] + tuple)
    ensures TagsOf([v] + values) == [v.tag] + TagsOf(values)
  {
    assert ([v] + values)[1..] == values;
  }

  // The captured tuple of canonical terms has the schema's tags and restores to the terms.
  lemma {:induction false} TupleRestored(schema: Schema, tags: seq<string>, tuple: seq<Raw>, values: seq<GoalValue>)
    requires |tags| == |tuple| && CanonicalTuple(schema, tags, tuple) && CaptureTuple(schema, tags, tuple) == Success(values)
    ensures TagsOf(values) == tags && RestoreTuple(values) == Success(tuple)
    decreases |tuple|
  {
    if tuple == [] {
    } else {
      TermRestored(schema, tags[0], tuple[0]);
      var first, rest := FromRaw(schema, tags[0], tuple[0]).value, CaptureTuple(schema, tags[1..], tuple[1..]).value;
      TupleRestored(schema, tags[1..], tuple[1..], rest);
      RestoreTupleCons(first, rest, tuple[0], tuple[1..]);
      assert tuple == [tuple[0]] + tuple[1..] && tags == [tags[0]] + tags[1..];
    }
  }

  // ---------- facts of one relation ----------

  type Seen = set<string>

  function CaptureFact(schema: Schema, tags: seq<string>, fact: ProjectedFact): Result<ReplayFact, string> {
    if |fact.tuple| != |tags| then Failure("SCHEMA_MISMATCH")
    else
      var values :- CaptureTuple(schema, tags, fact.tuple);
      Success(ReplayFact(fact.id, values))
  }

  // Facts in order; a witness id seen before, in this relation or an earlier one, is an error.
  function CaptureFacts(schema: Schema, tags: seq<string>, facts: seq<ProjectedFact>, seen: Seen)
    : Result<(seq<ReplayFact>, Seen), string>
    decreases |facts|
  {
    if facts == [] then Success(([], seen))
    else if |facts[0].tuple| != |tags| then Failure("SCHEMA_MISMATCH")
    else if facts[0].id in seen then Failure("WITNESS_DUPLICATE")
    else
      var first :- CaptureFact(schema, tags, facts[0]);
      var rest :- CaptureFacts(schema, tags, facts[1..], seen + {facts[0].id});
      Success(([first] + rest.0, rest.1))
  }

  function RestoreFact(fact: ReplayFact): Result<ProjectedFact, string> {
    var tuple :- RestoreTuple(fact.values);
    Success(ProjectedFact(fact.id, tuple))
  }

  function RestoreFacts(tags: seq<string>, facts: seq<ReplayFact>, seen: Seen): Result<(seq<ProjectedFact>, Seen), string>
    decreases |facts|
  {
    if facts == [] then Success(([], seen))
    else if facts[0].id in seen then Failure("WITNESS_DUPLICATE")
    else if TagsOf(facts[0].values) != tags then Failure("SCHEMA_MISMATCH")
    else
      var first :- RestoreFact(facts[0]);
      var rest :- RestoreFacts(tags, facts[1..], seen + {facts[0].id});
      Success(([first] + rest.0, rest.1))
  }

  function Ids(facts: seq<ReplayFact>): Seen {
    set f | f in facts :: f.id
  }

  predicate DistinctIds(facts: seq<ReplayFact>) {
    facts != [] ==> facts[0].id !in Ids(facts[1..]) && DistinctIds(facts[1..])
  }

  lemma IdsCons(facts: seq<ReplayFact>)
    requires facts != []
    ensures Ids(facts) == {facts[0].id} + Ids(facts[1..])
  {
    assert facts == [facts[0]] + facts[1..];
    assert forall f :: f in facts <==> f == facts[0] || f in facts[1..];
  }

  // Ids are distinct when there are as many of them as facts.
  lemma {:induction false} DistinctCount(facts: seq<ReplayFact>)
    ensures |Ids(facts)| <= |facts|
    ensures DistinctIds(facts) <==> |Ids(facts)| == |facts|
  {
    if facts != [] {
      IdsCons(facts);
      DistinctCount(facts[1..]);
    }
  }

  // ---------- capture keeps what restore needs ----------

  // A captured fact that stands for a given projected one.
  predicate StandsFor(tags: seq<string>, captured: ReplayFact, fact: ProjectedFact) {
    RestoreFact(captured) == Success(fact) && TagsOf(captured.values) == tags
  }

  predicate AllStandFor(tags: seq<string>, captured: seq<ReplayFact>, facts: seq<ProjectedFact>) {
    |captured| == |facts| && forall i :: 0 <= i < |facts| ==> StandsFor(tags, captured[i], facts[i])
  }

  lemma CapturedFact(schema: Schema, tags: seq<string>, fact: ProjectedFact)
    requires CaptureFact(schema, tags, fact).Success? && CanonicalTuple(schema, tags, fact.tuple)
    ensures StandsFor(tags, CaptureFact(schema, tags, fact).value, fact) && CaptureFact(schema, tags, fact).value.id == fact.id
  {
    TupleRestored(schema, tags, fact.tuple, CaptureFact(schema, tags, fact).value.values);
  }

  lemma StandForCons(tags: seq<string>, c: ReplayFact, captured: seq<ReplayFact>, f: ProjectedFact, facts: seq<ProjectedFact>)
    requires StandsFor(tags, c, f) && AllStandFor(tags, captured, facts)
    ensures AllStandFor(tags, [c] + captured, [f] + facts)
  {
    forall i | 0 <= i < |facts| + 1
      ensures StandsFor(tags, ([c] + captured)[i], ([f] + facts)[i])
    {
      if i > 0 {
        assert StandsFor(tags, captured[i - 1], facts[i - 1]);
      }
    }
  }

  lemma DistinctOneMore(c: ReplayFact, captured: seq<ReplayFact>, seen: Seen)
    requires DistinctIds(captured) && Ids(captured) !! seen + {c.id} && c.id !in seen
    ensures DistinctIds([c] + captured) && Ids([c] + captured) !! seen
    ensures seen + {c.id} + Ids(captured) == seen + Ids([c] + captured)
  {
    assert ([c] + captured)[1..] == captured;
    IdsCons([c] + captured);
  }

  lemma {:induction false} CapturedFacts(schema: Schema, tags: seq<string>, facts: seq<ProjectedFact>, seen: Seen,
                                         captured: seq<ReplayFact>, after: Seen)
    requires CaptureFacts(schema, tags, facts, seen) == Success((captured, after))
    requires forall i :: 0 <= i < |facts| ==> CanonicalTuple(schema, tags, facts[i].tuple)
    ensures AllStandFor(tags, captured, facts) && DistinctIds(captured)
    ensures Ids(captured) !! seen && after == seen + Ids(captured)
    decreases |facts|
  {
    if facts == [] {
    } else {
      var (rest, end) := CaptureFacts(schema, tags, facts[1..], seen + {facts[0].id}).value;
      var first := CaptureFact(schema, tags, facts[0]).value;
      CapturedFact(schema, tags, facts[0]);
      CapturedFacts(schema, tags, facts[1..], seen + {facts[0].id}, rest, end);
      StandForCons(tags, first, rest, facts[0], facts[1..]);
      DistinctOneMore(first, rest, seen);
      assert facts == [facts[0]] + facts[1..];
    }
  }

  // ---------- sorting by digest ----------

  function InsertFact(schema: Schema, fact: ReplayFact, facts: seq<ReplayFact>): seq<ReplayFact> {
    if facts == [] then [fact]
    else if !Order.Less(schema.digest(facts[0]), schema.digest(fact)) then [fact] + facts
    else [facts[0]] + InsertFact(schema, fact, facts[1..])
  }

  function SortFacts(schema: Schema, facts: seq<ReplayFact>): seq<ReplayFact> {
    if facts == [] then [] else InsertFact(schema, facts[0], SortFacts(schema, facts[1..]))
  }

  lemma {:induction false} InsertKeeps(schema: Schema, fact: ReplayFact, facts: seq<ReplayFact>)
    ensures multiset(InsertFact(schema, fact, facts)) == multiset{fact} + multiset(facts)
  {
    if facts != [] && Order.Less(schema.digest(facts[0]), schema.digest(fact)) {
      InsertKeeps(schema, fact, facts[1..]);
      assert facts == [facts[0]] + facts[1..];
    }
  }

  lemma {:induction false} SortKeeps(schema: Schema, facts: seq<ReplayFact>)
    ensures multiset(SortFacts(schema, facts)) == multiset(facts)
  {
    if facts != [] {
      SortKeeps(schema, facts[1..]);
      InsertKeeps(schema, facts[0], SortFacts(schema, facts[1..]));
      assert facts == [facts[0]] + facts[1..];
    }
  }

  // ---------- restoring a permutation ----------

  // What a fact restores to; a fixed fact where it does not restore.
  function Restored(fact: ReplayFact): ProjectedFact {
    var r := RestoreFact(fact);
    if r.Success? then r.value else ProjectedFact("", [])
  }

  function RestoredAll(facts: seq<ReplayFact>): seq<ProjectedFact> {
    if facts == [] then [] else [Restored(facts[0])] + RestoredAll(facts[1..])
  }

  lemma RestoreStep(tags: seq<string>, facts: seq<ReplayFact>, seen: Seen, rest: seq<ProjectedFact>, end: Seen)
    requires facts != [] && facts[0].id !in seen && RestoreFact(facts[0]).Success? && TagsOf(facts[0].values) == tags
    requires RestoreFacts(tags, facts[1..], seen + {facts[0].id}) == Success((rest, end))
    ensures RestoreFacts(tags, facts, seen) == Success(([Restored(facts[0])] + rest, end))
  {
  }

  lemma {:induction false} RestoreSucceeds(tags: seq<string>, facts: seq<ReplayFact>, seen: Seen)
    requires DistinctIds(facts) && Ids(facts) !! seen
    requires forall i :: 0 <= i < |facts| ==> RestoreFact(facts[i]).Success? && TagsOf(facts[i].values) == tags
    ensures RestoreFacts(tags, facts, seen) == Success((RestoredAll(facts), seen + Ids(facts)))
    decreases |facts|
  {
    if facts == [] {
      assert seen + Ids(facts) == seen;
    } else {
      IdsCons(facts);
      assert facts[0].id in Ids(facts);
      RestoreSucceeds(tags, facts[1..], seen + {facts[0].id});
      RestoreStep(tags, facts, seen, RestoredAll(facts[1..]), seen + {facts[0].id} + Ids(facts[1..]));
      assert seen + {facts[0].id} + Ids(facts[1..]) == seen + Ids(facts);
    }
  }

  lemma {:induction false} RestoredInsert(schema: Schema, fact: ReplayFact, facts: seq<ReplayFact>)
    ensures multiset(RestoredAll(InsertFact(schema, fact, facts))) == multiset{Restored(fact)} + multiset(RestoredAll(facts))
  {
    var all := InsertFact(schema, fact, facts);
    if facts == [] {
      assert all[1..] == [];
    } else if !Order.Less(schema.digest(facts[0]), schema.digest(fact)) {
      assert all[1..] == facts;
    } else {
      assert all[1..] == InsertFact(schema, fact, facts[1..]);
      RestoredInsert(schema, fact, facts[1..]);
    }
  }

  lemma {:induction false} RestoredSort(schema: Schema, facts: seq<ReplayFact>)
    ensures multiset(RestoredAll(SortFacts(schema, facts))) == multiset(RestoredAll(facts))
  {
    if facts != [] {
      RestoredSort(schema, facts[1..]);
      RestoredInsert(schema, facts[0], SortFacts(schema, facts[1..]));
    }
  }

  lemma {:induction false} RestoredStandFor(tags: seq<string>, captured: seq<ReplayFact>, facts: seq<ProjectedFact>)
    requires AllStandFor(tags, captured, facts)
    ensures RestoredAll(captured) == facts
  {
    if captured != [] {
      assert StandsFor(tags, captured[0], facts[0]);
      assert forall i :: 0 <= i < |facts| - 1 ==> captured[1..][i] == captured[i + 1] && facts[1..][i] == facts[i + 1];
      RestoredStandFor(tags, captured[1..], facts[1..]);
      assert facts == [facts[0]] + facts[1..];
    }
  }

  /** Captured facts, sorted, restore to the same facts in some order. */
  lemma SortedFactsRestore(schema: Schema, tags: seq<string>, captured: seq<ReplayFact>, facts: seq<ProjectedFact>, seen: Seen)
    requires AllStandFor(tags, captured, facts) && DistinctIds(captured) && Ids(captured) !! seen
    ensures var r := RestoreFacts(tags, SortFacts(schema, captured), seen);
      r.Success? && multiset(r.value.0) == multiset(facts) && r.value.1 == seen + Ids(captured)
  {
    var sorted := SortFacts(schema, captured);
    SortKeeps(schema, captured);
    SameIds(captured, sorted);
    forall k | 0 <= k < |sorted|
      ensures RestoreFact(sorted[k]).Success? && TagsOf(sorted[k].values) == tags
    {
      assert sorted[k] in multiset(captured);
      var i :| 0 <= i < |captured| && captured[i] == sorted[k];
      assert StandsFor(tags, captured[i], facts[i]);
    }
    RestoreSucceeds(tags, sorted, seen);
    RestoredSort(schema, captured);
    RestoredStandFor(tags, captured, facts);
  }

  lemma SameIds(a: seq<ReplayFact>, b: seq<ReplayFact>)
    requires multiset(a) == multiset(b)
    ensures Ids(a) == Ids(b) && (DistinctIds(a) <==> DistinctIds(b))
  {
    assert forall f :: f in a <==> f in multiset(a);
    assert forall f :: f in b <==> f in multiset(b);
    assert |a| == |multiset(a)| && |b| == |multiset(b)|;
    DistinctCount(a);
    DistinctCount(b);
  }
}
