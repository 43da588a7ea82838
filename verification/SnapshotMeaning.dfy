/** Whole snapshots, lists of them and find requests, told by the rows and claims they are read from. */
module SnapshotMeaning {
  import opened Wrappers
  import opened EntityView
  import opened Positions
  import opened Traversals
  import opened SnapshotContents

  // ---------- assertion records ----------

  // A record repeats its claim; it has a value if the claim has a term.
  ghost predicate RecordMeans(context: Context, claim: ClaimRow, isRef: bool, r: Result<Record, ViewError>) {
    if claim.raw == None then r == Success(Record(claim.id, None, claim.active))
    else exists value :: ValueMeans(context, claim.raw.value, isRef, value)
           && r == if value.Failure? then Failure(value.error) else Success(Record(claim.id, Some(value.value), claim.active))
  }

  ghost function RecordMeaning(context: Context, isRef: bool): (ClaimRow, Result<Record, ViewError>) -> bool {
    (claim, r) => RecordMeans(context, claim, isRef, r)
  }

  lemma RecordOf(context: Context, claim: ClaimRow, isRef: bool, value: Result<Option<Hydrated>, ViewError>)
    requires value == if claim.raw.None? then Success(None) else OptionOf(HydrateValue(context, claim.raw.value, isRef))
    ensures RecordMeaning(context, isRef)(claim, if value.Failure? then Failure(value.error) else Success(Record(claim.id, value.value, claim.active)))
  {
    if claim.raw.Some? {
      HydrateValueMeans(context, claim.raw.value, isRef);
    }
  }

  lemma {:induction false} HydrateRecordsMean(context: Context, claims: seq<ClaimRow>, isRef: bool)
    ensures Traversed(claims, RecordMeaning(context, isRef), HydrateRecords(context, claims, isRef))
  {
    var means := RecordMeaning(context, isRef);
    if claims == [] {
      TraversedNone(means);
    } else {
      var claim := claims[0];
      var value := if claim.raw.None? then Success(None) else OptionOf(HydrateValue(context, claim.raw.value, isRef));
      RecordOf(context, claim, isRef, value);
      if value.Failure? {
        TraversedFails(claims, means, value.error);
      } else {
        HydrateRecordsMean(context, claims[1..], isRef);
        TraversedNext(claims, means, Record(claim.id, value.value, claim.active), HydrateRecords(context, claims[1..], isRef));
      }
    }
  }

  ghost function IsActive(): Record -> bool {
    (r: Record) => r.active
  }

  // The active ones among the records, in order.
  ghost predicate ActiveAmong(records: seq<Record>, active: seq<Record>) {
    exists at :: Picks(records, IsActive(), at) && TakenAt(records, at, active)
  }

  lemma {:induction false} ActiveRecordsMean(records: seq<Record>)
    ensures ActiveAmong(records, ActiveRecords(records))
  {
    if records == [] {
      assert Picks(records, IsActive(), []) && TakenAt(records, [], []);
    } else {
      ActiveRecordsMean(records[1..]);
      ActiveNext(records, ActiveRecords(records[1..]));
    }
  }

  lemma ActiveNext(records: seq<Record>, rest: seq<Record>)
    requires records != [] && ActiveAmong(records[1..], rest)
    ensures ActiveAmong(records, (if records[0].active then [records[0]] else []) + rest)
  {
    var at :| Picks(records[1..], IsActive(), at) && TakenAt(records[1..], at, rest);
    PicksShifted(records, IsActive(), at);
    TakenShifted(records, at, rest, records[0].active);
  }

  // ---------- fields ----------

  ghost predicate AssertionsShow(context: Context, records: seq<Record>, a: Assertions) {
    ActiveAmong(records, a.active) && a.history == if context.includeHistory then records else []
  }

  // The field's content, and its claims if they were asked for; the content's error comes first.
  ghost predicate FieldMeans(context: Context, eRef: string, field: Field, r: Result<FieldState, ViewError>) {
    exists content :: ContentMeans(context, eRef, field, content) && FieldWith(context, eRef, field, content, r)
  }

  ghost predicate FieldWith(context: Context, eRef: string, field: Field, content: Result<Content, ViewError>, r: Result<FieldState, ViewError>) {
    if content.Failure? then r == Failure(content.error)
    else if !context.includeAssertions then r == Success(FieldState(field.name, content.value, None))
    else exists records :: Traversed(context.claimsOf(field.pred, eRef), RecordMeaning(context, field.isRef), records)
           && FieldWithRecords(context, field, content.value, records, r)
  }

  ghost predicate FieldWithRecords(context: Context, field: Field, content: Content, records: Result<seq<Record>, ViewError>,
                                   r: Result<FieldState, ViewError>) {
    if records.Failure? then r == Failure(records.error)
    else r.Success? && r.value.name == field.name && r.value.content == content
         && r.value.assertions.Some? && AssertionsShow(context, records.value, r.value.assertions.value)
  }

  lemma HydrateFieldMeans(context: Context, eRef: string, field: Field)
    ensures FieldMeans(context, eRef, field, HydrateField(context, eRef, field))
  {
    HydrateContentMeans(context, eRef, field);
    var content := HydrateContent(context, RowsFor(context, field.pred, eRef), field);
    if content.Success? && context.includeAssertions {
      var claims := context.claimsOf(field.pred, eRef);
      HydrateRecordsMean(context, claims, field.isRef);
      var records := HydrateRecords(context, claims, field.isRef);
      if records.Success? {
        ActiveRecordsMean(records.value);
      }
      assert FieldWithRecords(context, field, content.value, records, HydrateField(context, eRef, field));
    }
    assert FieldWith(context, eRef, field, content, HydrateField(context, eRef, field));
  }

  ghost function FieldMeaning(context: Context, eRef: string): (Field, Result<FieldState, ViewError>) -> bool {
    (field, r) => FieldMeans(context, eRef, field, r)
  }

  lemma {:induction false} HydrateFieldsMean(context: Context, eRef: string, fields: seq<Field>)
    ensures Traversed(fields, FieldMeaning(context, eRef), HydrateFields(context, eRef, fields))
  {
    var means := FieldMeaning(context, eRef);
    if fields == [] {
      TraversedNone(means);
    } else {
      HydrateFieldMeans(context, eRef, fields[0]);
      var first := HydrateField(context, eRef, fields[0]);
      if first.Failure? {
        TraversedFails(fields, means, first.error);
      } else {
        HydrateFieldsMean(context, eRef, fields[1..]);
        TraversedNext(fields, means, first.value, HydrateFields(context, eRef, fields[1..]));
      }
    }
  }

  // ---------- snapshots ----------

  // Some row of the type's exists predicate, or of one of its fields, is about the reference.
  ghost predicate VisibleIn(context: Context, info: EntityInfo, eRef: string) {
    SpeaksOf(context, info.existsPred, eRef) || exists k :: 0 <= k < |info.fieldPreds| && SpeaksOf(context, info.fieldPreds[k], eRef)
  }

  lemma VisibleMeans(context: Context, info: EntityInfo, eRef: string)
    ensures EntityVisible(context, info, eRef) <==> VisibleIn(context, info, eRef)
  {
    RowsMean(context, info.existsPred, eRef, RowsFor(context, info.existsPred, eRef));
    forall p
      ensures RowsFor(context, p, eRef) != [] <==> SpeaksOf(context, p, eRef)
    {
      RowsMean(context, p, eRef, RowsFor(context, p, eRef));
    }
    if p :| p in info.fieldPreds && RowsFor(context, p, eRef) != [] {
      var k :| 0 <= k < |info.fieldPreds| && info.fieldPreds[k] == p;
    }
    if k :| 0 <= k < |info.fieldPreds| && SpeaksOf(context, info.fieldPreds[k], eRef) {
      assert info.fieldPreds[k] in info.fieldPreds;
    }
  }

  // The snapshot of a reference: its own reference and one state per field, or the first thing that fails.
  ghost predicate SnapshotMeans(context: Context, eRef: string, r: Result<Snapshot, ViewError>) {
    var entityType := context.typeOf(eRef);
    if entityType == None then r == Failure(ViewError("INVALID_ENTITY_REF", eRef))
    else if entityType.value !in context.entities then r == Failure(ViewError("UNKNOWN_ENTITY_TYPE", eRef))
    else if !VisibleIn(context, context.entities[entityType.value], eRef) then r == Failure(ViewError("ENTITY_NOT_FOUND", eRef))
    else PartsMean(context, eRef, context.entities[entityType.value].fields, r)
  }

  ghost predicate PartsMean(context: Context, eRef: string, fields: seq<Field>, r: Result<Snapshot, ViewError>) {
    exists ref, states :: RefMeans(context, eRef, ref) && Traversed(fields, FieldMeaning(context, eRef), states) && r == Together(ref, states)
  }

  ghost function Together(ref: Result<Ref, ViewError>, states: Result<seq<FieldState>, ViewError>): Result<Snapshot, ViewError> {
    if ref.Failure? then Failure(ref.error)
    else if states.Failure? then Failure(states.error)
    else Success(Snapshot(ref.value, states.value))
  }

  lemma HydratedParts(context: Context, eRef: string, fields: seq<Field>, ref: Result<Ref, ViewError>, states: Result<seq<FieldState>, ViewError>)
    requires ref == Recover(context, eRef) && states == HydrateFields(context, eRef, fields)
    ensures PartsMean(context, eRef, fields, Together(ref, states))
  {
    RecoverMeans(context, eRef);
    HydrateFieldsMean(context, eRef, fields);
  }

  /** What hydration returns, read off the view: the reference, one state per field, or the first error. */
  lemma HydrateMeans(context: Context, eRef: string)
    ensures SnapshotMeans(context, eRef, Hydrate(context, eRef))
  {
    var entityType := context.typeOf(eRef);
    if entityType.Some? && entityType.value in context.entities {
      var info := context.entities[entityType.value];
      VisibleMeans(context, info, eRef);
      HydratedParts(context, eRef, info.fields, Recover(context, eRef), HydrateFields(context, eRef, info.fields));
    }
  }

  ghost function MeaningIn(context: Context): (string, Result<Snapshot, ViewError>) -> bool {
    (eRef, r) => SnapshotMeans(context, eRef, r)
  }

  /** One snapshot per reference, in order, or the error of the first reference that has none. */
  lemma {:induction false} HydrateEachMeans(context: Context, eRefs: seq<string>)
    ensures Traversed(eRefs, MeaningIn(context), HydrateEach(context, eRefs))
  {
    var means := MeaningIn(context);
    if eRefs == [] {
      TraversedNone(means);
    } else {
      HydrateMeans(context, eRefs[0]);
      var first := Hydrate(context, eRefs[0]);
      if first.Failure? {
        TraversedFails(eRefs, means, first.error);
      } else {
        HydrateEachMeans(context, eRefs[1..]);
        TraversedNext(eRefs, means, first.value, HydrateEach(context, eRefs[1..]));
      }
    }
  }
}
