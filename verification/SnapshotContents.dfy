/**
 What hydration reads from the view: which rows, which of their terms, in which order, and the error it
 fails with when something cannot be read.
 */
module SnapshotContents {
  import opened Wrappers
  import opened EntityView
  import opened Positions
  import opened Traversals
  import WhereEval

  // ---------- rows ----------

  ghost function Table(context: Context, pred: string): seq<Row> {
    if pred in context.view then context.view[pred] else []
  }

  // A row whose first term is the encoded reference.
  ghost predicate IsAbout(row: Row, eRef: string) {
    |row| > 0 && row[0] == WhereEval.Text(eRef)
  }

  ghost function AboutIt(eRef: string): Row -> bool {
    row => IsAbout(row, eRef)
  }

  ghost predicate SpeaksOf(context: Context, pred: string, eRef: string) {
    exists i :: 0 <= i < |Table(context, pred)| && IsAbout(Table(context, pred)[i], eRef)
  }

  ghost predicate EndsWith(row: Row, raw: Value) {
    |row| > 0 && row[|row| - 1] == raw
  }

  // The last term of the first row about the reference.
  ghost predicate FirstCell(context: Context, pred: string, eRef: string, raw: Value) {
    exists i: nat :: IsFirstRow(Table(context, pred), eRef, i) && EndsWith(Table(context, pred)[i], raw)
  }

  ghost predicate IsFirstRow(rows: seq<Row>, eRef: string, i: nat) {
    i < |rows| && IsAbout(rows[i], eRef) && forall j :: 0 <= j < i ==> !IsAbout(rows[j], eRef)
  }

  // The last terms of all rows about the reference, in order.
  ghost predicate Cells(context: Context, pred: string, eRef: string, raws: seq<Value>) {
    exists at :: Picks(Table(context, pred), AboutIt(eRef), at) && CellsAt(Table(context, pred), at, raws)
  }

  ghost predicate CellsAt(rows: seq<Row>, at: seq<nat>, raws: seq<Value>) {
    |at| == |raws| && forall k :: 0 <= k < |at| ==> at[k] < |rows| && EndsWith(rows[at[k]], raws[k])
  }

  ghost predicate RowsTaken(table: seq<Row>, eRef: string, rows: seq<Row>) {
    exists at :: Picks(table, AboutIt(eRef), at) && TakenAt(table, at, rows)
  }

  lemma RowsTakenNext(table: seq<Row>, eRef: string, rest: seq<Row>)
    requires table != [] && RowsTaken(table[1..], eRef, rest)
    ensures RowsTaken(table, eRef, (if IsAbout(table[0], eRef) then [table[0]] else []) + rest)
  {
    var at :| Picks(table[1..], AboutIt(eRef), at) && TakenAt(table[1..], at, rest);
    PicksShifted(table, AboutIt(eRef), at);
    TakenShifted(table, at, rest, IsAbout(table[0], eRef));
  }

  lemma {:induction false} RowsAboutMean(table: seq<Row>, eRef: string)
    ensures RowsTaken(table, eRef, RowsAbout(table, eRef))
  {
    if table == [] {
      assert Picks(table, AboutIt(eRef), []) && TakenAt(table, [], []);
    } else {
      RowsAboutMean(table[1..], eRef);
      RowsTakenNext(table, eRef, RowsAbout(table[1..], eRef));
    }
  }

  ghost function LastTerms(rows: seq<Row>): seq<Value>
    requires Filled(rows)
  {
    seq(|rows|, k requires 0 <= k < |rows| => Last(rows[k]))
  }

  lemma TakenCells(table: seq<Row>, at: seq<nat>, rows: seq<Row>)
    requires TakenAt(table, at, rows) && Filled(rows)
    ensures CellsAt(table, at, LastTerms(rows))
  {
  }

  lemma FirstTaken(table: seq<Row>, eRef: string, at: seq<nat>)
    requires Picks(table, AboutIt(eRef), at)
    ensures at == [] ==> forall i :: 0 <= i < |table| ==> !IsAbout(table[i], eRef)
    ensures at != [] ==> IsFirstRow(table, eRef, at[0])
  {
    if at == [] {
      assert forall i: nat :: i in at <==> i < |table| && AboutIt(eRef)(table[i]);
    } else {
      assert at[0] in at;
      assert forall k :: 0 < k < |at| ==> at[0] < at[k];
      forall j: nat | j < at[0]
        ensures !IsAbout(table[j], eRef)
      {
        assert j in at <==> AboutIt(eRef)(table[j]);
      }
    }
  }

  lemma RowsMean(context: Context, pred: string, eRef: string, rows: seq<Row>)
    requires rows == RowsFor(context, pred, eRef)
    ensures Cells(context, pred, eRef, LastTerms(rows))
    ensures rows == [] <==> !SpeaksOf(context, pred, eRef)
    ensures rows != [] ==> FirstCell(context, pred, eRef, Last(rows[0]))
  {
    var table := Table(context, pred);
    RowsAboutMean(table, eRef);
    var at :| Picks(table, AboutIt(eRef), at) && TakenAt(table, at, rows);
    TakenCells(table, at, rows);
    FirstTaken(table, eRef, at);
  }

  // ---------- references ----------

  // The field cannot be read: it has no predicate, or the predicate has no row about the reference.
  ghost predicate Unreadable(context: Context, eRef: string, field: (string, Option<string>)) {
    field.1.Some? ==> !SpeaksOf(context, field.1.value, eRef)
  }

  // The last field of its name.
  ghost predicate LastNamed(fields: seq<(string, Option<string>)>, k: nat) {
    k < |fields| && forall j :: k < j < |fields| ==> fields[j].0 != fields[k].0
  }

  ghost predicate NameAmong(fields: seq<(string, Option<string>)>, name: string) {
    exists k :: 0 <= k < |fields| && fields[k].0 == name
  }

  // The value of every identity field, from the first row about the reference, over what was there before.
  ghost predicate IdentityRead(context: Context, eRef: string, fields: seq<(string, Option<string>)>,
                               before: map<string, Value>, values: map<string, Value>) {
    && (forall k :: 0 <= k < |fields| ==> !Unreadable(context, eRef, fields[k]))
    && (forall name :: name in values <==> name in before || NameAmong(fields, name))
    && (forall name :: name in before && !NameAmong(fields, name) ==> name in values && values[name] == before[name])
    && forall k: nat :: LastNamed(fields, k) ==> ReadField(context, eRef, fields[k], values)
  }

  ghost predicate ReadField(context: Context, eRef: string, field: (string, Option<string>), values: map<string, Value>) {
    field.1.Some? && field.0 in values && FirstCell(context, field.1.value, eRef, values[field.0])
  }

  ghost predicate FirstUnreadable(context: Context, eRef: string, fields: seq<(string, Option<string>)>, k: nat) {
    && k < |fields| && Unreadable(context, eRef, fields[k])
    && forall j :: 0 <= j < k ==> !Unreadable(context, eRef, fields[j])
  }

  ghost predicate IdentityMeans(context: Context, eRef: string, fields: seq<(string, Option<string>)>, before: map<string, Value>,
                                r: Result<map<string, Value>, ViewError>) {
    if r.Success? then IdentityRead(context, eRef, fields, before, r.value)
    else exists k: nat :: FirstUnreadable(context, eRef, fields, k) && UnreadableAs(fields[k], eRef, r.error)
  }

  ghost predicate UnreadableAs(field: (string, Option<string>), eRef: string, error: ViewError) {
    error == ViewError(if field.1.None? then "IDENTITY_PREDICATE_NOT_FOUND" else "IDENTITY_NOT_AVAILABLE", eRef)
  }

  lemma ReadNext(context: Context, eRef: string, fields: seq<(string, Option<string>)>, before: map<string, Value>, raw: Value,
                 values: map<string, Value>)
    requires fields != [] && fields[0].1.Some? && FirstCell(context, fields[0].1.value, eRef, raw)
    requires !Unreadable(context, eRef, fields[0])
    requires IdentityRead(context, eRef, fields[1..], before[fields[0].0 := raw], values)
    ensures IdentityRead(context, eRef, fields, before, values)
  {
    var rest := fields[1..];
    assert forall k :: 0 <= k < |rest| ==> rest[k] == fields[k + 1];
    forall name
      ensures NameAmong(fields, name) <==> name == fields[0].0 || NameAmong(rest, name)
    {
      if k :| 0 <= k < |rest| && rest[k].0 == name {
        assert fields[k + 1].0 == name;
      }
      if k :| 0 <= k < |fields| && fields[k].0 == name {
        assert k > 0 ==> rest[k - 1].0 == name;
      }
    }
    forall k: nat | LastNamed(fields, k)
      ensures ReadField(context, eRef, fields[k], values)
    {
      if k > 0 {
        assert LastNamed(rest, k - 1);
        assert ReadField(context, eRef, rest[k - 1], values);
      } else {
        assert !NameAmong(rest, fields[0].0);
      }
    }
    forall k | 0 <= k < |fields|
      ensures !Unreadable(context, eRef, fields[k])
    {
      assert k > 0 ==> !Unreadable(context, eRef, rest[k - 1]);
    }
  }

  lemma UnreadNext(context: Context, eRef: string, fields: seq<(string, Option<string>)>, error: ViewError, k: nat)
    requires fields != [] && !Unreadable(context, eRef, fields[0])
    requires FirstUnreadable(context, eRef, fields[1..], k) && UnreadableAs(fields[1..][k], eRef, error)
    ensures FirstUnreadable(context, eRef, fields, k + 1) && UnreadableAs(fields[k + 1], eRef, error)
  {
    forall j | 0 <= j < k + 1
      ensures !Unreadable(context, eRef, fields[j])
    {
      assert j > 0 ==> fields[1..][j - 1] == fields[j];
    }
  }

  lemma {:induction false} IdentityIsRead(context: Context, eRef: string, fields: seq<(string, Option<string>)>, before: map<string, Value>)
    ensures IdentityMeans(context, eRef, fields, before, RecoverIdentity(context, eRef, fields, before))
    decreases |fields|
  {
    if fields == [] {
    } else if fields[0].1.None? {
      assert FirstUnreadable(context, eRef, fields, 0);
    } else {
      var rows := RowsFor(context, fields[0].1.value, eRef);
      RowsMean(context, fields[0].1.value, eRef, rows);
      if rows == [] {
        assert FirstUnreadable(context, eRef, fields, 0);
      } else {
        var now := before[fields[0].0 := Last(rows[0])];
        IdentityIsRead(context, eRef, fields[1..], now);
        IdentityNext(context, eRef, fields, before, Last(rows[0]), RecoverIdentity(context, eRef, fields[1..], now));
      }
    }
  }

  lemma IdentityNext(context: Context, eRef: string, fields: seq<(string, Option<string>)>, before: map<string, Value>, raw: Value,
                     r: Result<map<string, Value>, ViewError>)
    requires fields != [] && fields[0].1.Some? && FirstCell(context, fields[0].1.value, eRef, raw)
    requires !Unreadable(context, eRef, fields[0])
    requires IdentityMeans(context, eRef, fields[1..], before[fields[0].0 := raw], r)
    ensures IdentityMeans(context, eRef, fields, before, r)
  {
    if r.Success? {
      ReadNext(context, eRef, fields, before, raw, r.value);
    } else {
      var k: nat :| FirstUnreadable(context, eRef, fields[1..], k) && UnreadableAs(fields[1..][k], eRef, r.error);
      UnreadNext(context, eRef, fields, r.error, k);
    }
  }

  // The reference an encoded one stands for, or the error: its type, then its identity, then what completes it.
  ghost predicate RefMeans(context: Context, eRef: string, r: Result<Ref, ViewError>) {
    var entityType := context.typeOf(eRef);
    if entityType == None then r == Failure(ViewError("INVALID_ENTITY_REF", eRef))
    else if entityType.value !in context.entities then r == Failure(ViewError("UNKNOWN_ENTITY_TYPE", eRef))
    else exists raw :: IdentityMeans(context, eRef, context.entities[entityType.value].identity, map[], raw)
           && Completed(context, eRef, entityType.value, raw, r)
  }

  ghost predicate Completed(context: Context, eRef: string, entityType: string, raw: Result<map<string, Value>, ViewError>,
                            r: Result<Ref, ViewError>) {
    if raw.Failure? then r == Failure(raw.error)
    else
      var identity := context.materialize(entityType, raw.value);
      if identity.Failure? then r == Failure(identity.error) else r == Success(Ref(entityType, identity.value, eRef))
  }

  /** Recovery reads the identity from the first visible rows about the reference. */
  lemma RecoverMeans(context: Context, eRef: string)
    ensures RefMeans(context, eRef, Recover(context, eRef))
  {
    var entityType := context.typeOf(eRef);
    if entityType.Some? && entityType.value in context.entities {
      var fields := context.entities[entityType.value].identity;
      IdentityIsRead(context, eRef, fields, map[]);
      assert Completed(context, eRef, entityType.value, RecoverIdentity(context, eRef, fields, map[]), Recover(context, eRef));
    }
  }

  // ---------- values ----------

  // A plain value is shown as it is; a reference field shows the reference that its text stands for.
  ghost predicate ValueMeans(context: Context, raw: Value, isRef: bool, r: Result<Hydrated, ViewError>) {
    if !isRef then r == Success(PlainValue(raw))
    else if !raw.Text? then r == Failure(ViewError("INVALID_FIELD_VALUE", ""))
    else exists ref :: RefMeans(context, raw.s, ref) && r == if ref.Success? then Success(RefValue(ref.value)) else Failure(ref.error)
  }

  lemma HydrateValueMeans(context: Context, raw: Value, isRef: bool)
    ensures ValueMeans(context, raw, isRef, HydrateValue(context, raw, isRef))
  {
    if isRef && raw.Text? {
      RecoverMeans(context, raw.s);
    }
  }

  ghost function ValueMeaning(context: Context, isRef: bool): (Value, Result<Hydrated, ViewError>) -> bool {
    (raw, r) => ValueMeans(context, raw, isRef, r)
  }

  lemma {:induction false} HydrateAllMeans(context: Context, rows: seq<Row>, isRef: bool)
    requires Filled(rows)
    ensures Traversed(LastTerms(rows), ValueMeaning(context, isRef), HydrateAll(context, rows, isRef))
  {
    var means := ValueMeaning(context, isRef);
    if rows == [] {
      TraversedNone(means);
    } else {
      var raws := LastTerms(rows);
      HydrateValueMeans(context, raws[0], isRef);
      var first := HydrateValue(context, raws[0], isRef);
      if first.Failure? {
        TraversedFails(raws, means, first.error);
      } else {
        HydrateAllMeans(context, rows[1..], isRef);
        assert LastTerms(rows[1..]) == raws[1..];
        TraversedNext(raws, means, first.value, HydrateAll(context, rows[1..], isRef));
      }
    }
  }

  // A single field shows the first row about the entity, or nothing; a multi field shows all of them.
  ghost predicate ContentMeans(context: Context, eRef: string, field: Field, r: Result<Content, ViewError>) {
    if field.single then
      if !SpeaksOf(context, field.pred, eRef) then r == Success(Single(None))
      else exists raw, value :: FirstCell(context, field.pred, eRef, raw) && ValueMeans(context, raw, field.isRef, value)
             && r == if value.Success? then Success(Single(Some(value.value))) else Failure(value.error)
    else
      exists raws, values :: Cells(context, field.pred, eRef, raws) && Traversed(raws, ValueMeaning(context, field.isRef), values)
        && r == if values.Success? then Success(Many(values.value)) else Failure(values.error)
  }

  lemma HydrateContentMeans(context: Context, eRef: string, field: Field)
    ensures ContentMeans(context, eRef, field, HydrateContent(context, RowsFor(context, field.pred, eRef), field))
  {
    var rows := RowsFor(context, field.pred, eRef);
    RowsMean(context, field.pred, eRef, rows);
    if field.single {
      if rows != [] {
        HydrateValueMeans(context, Last(rows[0]), field.isRef);
      }
    } else {
      HydrateAllMeans(context, rows, field.isRef);
    }
  }
}
