/** Exactly when a reference can be hydrated. */
module HydrationSuccess {
  import opened Wrappers
  import opened EntityView
  import opened Positions
  import opened SnapshotContents
  import opened SnapshotMeaning

  // Every identity field has a visible value, and the values complete to an identity of the type.
  ghost predicate Recoverable(context: Context, eRef: string) {
    && context.typeOf(eRef).Some? && context.typeOf(eRef).value in context.entities
    && var entityType := context.typeOf(eRef).value;
       exists raw :: IdentityRead(context, eRef, context.entities[entityType].identity, map[], raw)
         && context.materialize(entityType, raw).Success?
  }

  // A plain value always can be shown; a reference, if its text is a reference that can be recovered.
  ghost predicate CanShow(context: Context, raw: Value, isRef: bool) {
    isRef ==> raw.Text? && Recoverable(context, raw.s)
  }

  // What the field shows: the first row about the entity or all of them.
  ghost predicate Shown(context: Context, eRef: string, field: Field, raw: Value) {
    if field.single then FirstCell(context, field.pred, eRef, raw)
    else exists i :: 0 <= i < |Table(context, field.pred)| && AboutWith(Table(context, field.pred)[i], eRef, raw)
  }

  ghost predicate AboutWith(row: Row, eRef: string, raw: Value) {
    IsAbout(row, eRef) && EndsWith(row, raw)
  }

  ghost predicate FieldCanShow(context: Context, eRef: string, field: Field) {
    && (forall raw :: Shown(context, eRef, field, raw) ==> CanShow(context, raw, field.isRef))
    && (context.includeAssertions ==> ClaimsCanShow(context, context.claimsOf(field.pred, eRef), field.isRef))
  }

  ghost predicate ClaimsCanShow(context: Context, claims: seq<ClaimRow>, isRef: bool) {
    forall k :: 0 <= k < |claims| && claims[k].raw.Some? ==> CanShow(context, claims[k].raw.value, isRef)
  }

  // ---------- references ----------

  lemma FirstCellOnce(context: Context, pred: string, eRef: string, a: Value, b: Value)
    requires FirstCell(context, pred, eRef, a) && FirstCell(context, pred, eRef, b)
    ensures a == b
  {
    var table := Table(context, pred);
    var i: nat :| IsFirstRow(table, eRef, i) && EndsWith(table[i], a);
    var j: nat :| IsFirstRow(table, eRef, j) && EndsWith(table[j], b);
    assert i == j;
  }

  lemma {:induction false} LastOfName(fields: seq<(string, Option<string>)>, name: string, from: nat) returns (k: nat)
    requires from < |fields| && fields[from].0 == name
    ensures LastNamed(fields, k) && fields[k].0 == name
    decreases |fields| - from
  {
    if next :| from < next < |fields| && fields[next].0 == name {
      k := LastOfName(fields, name, next);
    } else {
      k := from;
    }
  }

  lemma IdentityOnce(context: Context, eRef: string, fields: seq<(string, Option<string>)>, before: map<string, Value>,
                     a: map<string, Value>, b: map<string, Value>)
    requires IdentityRead(context, eRef, fields, before, a) && IdentityRead(context, eRef, fields, before, b)
    ensures a == b
  {
    forall name | name in a
      ensures a[name] == b[name]
    {
      if NameAmong(fields, name) {
        var from :| 0 <= from < |fields| && fields[from].0 == name;
        var k := LastOfName(fields, name, from);
        assert ReadField(context, eRef, fields[k], a) && ReadField(context, eRef, fields[k], b);
        FirstCellOnce(context, fields[k].1.value, eRef, a[name], b[name]);
      }
    }
  }

  lemma RecoverSucceeds(context: Context, eRef: string)
    ensures Recover(context, eRef).Success? <==> Recoverable(context, eRef)
  {
    var entityType := context.typeOf(eRef);
    if entityType.Some? && entityType.value in context.entities {
      var fields := context.entities[entityType.value].identity;
      IdentityIsRead(context, eRef, fields, map[]);
      var read := RecoverIdentity(context, eRef, fields, map[]);
      if raw :| IdentityRead(context, eRef, fields, map[], raw) && context.materialize(entityType.value, raw).Success? {
        if read.Success? {
          IdentityOnce(context, eRef, fields, map[], raw, read.value);
        }
      }
    }
  }

  // ---------- values, records and fields ----------

  lemma ValueSucceeds(context: Context, raw: Value, isRef: bool)
    ensures HydrateValue(context, raw, isRef).Success? <==> CanShow(context, raw, isRef)
  {
    if isRef && raw.Text? {
      RecoverSucceeds(context, raw.s);
    }
  }

  lemma {:induction false} AllSucceed(context: Context, rows: seq<Row>, isRef: bool)
    requires Filled(rows)
    ensures HydrateAll(context, rows, isRef).Success? <==> forall k :: 0 <= k < |rows| ==> CanShow(context, Last(rows[k]), isRef)
  {
    if rows != [] {
      ValueSucceeds(context, Last(rows[0]), isRef);
      AllSucceed(context, rows[1..], isRef);
      assert forall k :: 0 < k < |rows| ==> rows[k] == rows[1..][k - 1];
    }
  }

  lemma {:induction false} RecordsSucceed(context: Context, claims: seq<ClaimRow>, isRef: bool)
    ensures HydrateRecords(context, claims, isRef).Success? <==> ClaimsCanShow(context, claims, isRef)
  {
    if claims != [] {
      if claims[0].raw.Some? {
        ValueSucceeds(context, claims[0].raw.value, isRef);
      }
      RecordsSucceed(context, claims[1..], isRef);
      assert forall k :: 0 < k < |claims| ==> claims[k] == claims[1..][k - 1];
    }
  }

  lemma TakenShown(table: seq<Row>, eRef: string, at: seq<nat>, rows: seq<Row>, raw: Value)
    requires Picks(table, AboutIt(eRef), at) && TakenAt(table, at, rows) && Filled(rows)
    ensures forall i :: 0 <= i < |table| && AboutWith(table[i], eRef, raw) ==> exists k :: 0 <= k < |rows| && Last(rows[k]) == raw
    ensures forall k :: 0 <= k < |rows| && Last(rows[k]) == raw ==> AboutWith(table[at[k]], eRef, raw)
  {
    forall i: nat | i < |table| && AboutWith(table[i], eRef, raw)
      ensures exists k :: 0 <= k < |rows| && Last(rows[k]) == raw
    {
      assert AboutIt(eRef)(table[i]);
      var k :| 0 <= k < |at| && at[k] == i;
      assert rows[k] == table[i];
    }
    forall k | 0 <= k < |rows| && Last(rows[k]) == raw
      ensures AboutWith(table[at[k]], eRef, raw)
    {
      assert at[k] in at;
      assert AboutIt(eRef)(table[at[k]]);
    }
  }

  lemma RowsShown(context: Context, eRef: string, field: Field, rows: seq<Row>, raw: Value)
    requires !field.single && rows == RowsFor(context, field.pred, eRef)
    ensures Shown(context, eRef, field, raw) <==> exists k :: 0 <= k < |rows| && Last(rows[k]) == raw
  {
    var table := Table(context, field.pred);
    RowsAboutMean(table, eRef);
    var at :| Picks(table, AboutIt(eRef), at) && TakenAt(table, at, rows);
    TakenShown(table, eRef, at, rows, raw);
  }

  lemma ManySucceed(context: Context, eRef: string, field: Field, rows: seq<Row>)
    requires !field.single && rows == RowsFor(context, field.pred, eRef)
    ensures (forall k :: 0 <= k < |rows| ==> CanShow(context, Last(rows[k]), field.isRef))
      <==> forall raw :: Shown(context, eRef, field, raw) ==> CanShow(context, raw, field.isRef)
  {
    forall k | 0 <= k < |rows|
      ensures Shown(context, eRef, field, Last(rows[k]))
    {
      RowsShown(context, eRef, field, rows, Last(rows[k]));
    }
    if forall k :: 0 <= k < |rows| ==> CanShow(context, Last(rows[k]), field.isRef) {
      forall raw | Shown(context, eRef, field, raw)
        ensures CanShow(context, raw, field.isRef)
      {
        RowsShown(context, eRef, field, rows, raw);
        var k :| 0 <= k < |rows| && Last(rows[k]) == raw;
      }
    }
  }

  lemma ContentSucceeds(context: Context, eRef: string, field: Field)
    ensures HydrateContent(context, RowsFor(context, field.pred, eRef), field).Success?
      <==> forall raw :: Shown(context, eRef, field, raw) ==> CanShow(context, raw, field.isRef)
  {
    var rows := RowsFor(context, field.pred, eRef);
    if !field.single {
      AllSucceed(context, rows, field.isRef);
      ManySucceed(context, eRef, field, rows);
    } else {
      RowsMean(context, field.pred, eRef, rows);
      if rows != [] {
        ValueSucceeds(context, Last(rows[0]), field.isRef);
        forall raw | FirstCell(context, field.pred, eRef, raw)
          ensures raw == Last(rows[0])
        {
          FirstCellOnce(context, field.pred, eRef, raw, Last(rows[0]));
        }
      }
    }
  }

  lemma FieldSucceeds(context: Context, eRef: string, field: Field)
    ensures HydrateField(context, eRef, field).Success? <==> FieldCanShow(context, eRef, field)
  {
    ContentSucceeds(context, eRef, field);
    RecordsSucceed(context, context.claimsOf(field.pred, eRef), field.isRef);
  }

  lemma {:induction false} FieldsSucceed(context: Context, eRef: string, fields: seq<Field>)
    ensures HydrateFields(context, eRef, fields).Success? <==> forall k :: 0 <= k < |fields| ==> FieldCanShow(context, eRef, fields[k])
  {
    if fields != [] {
      FieldSucceeds(context, eRef, fields[0]);
      FieldsSucceed(context, eRef, fields[1..]);
      assert forall k :: 0 < k < |fields| ==> fields[k] == fields[1..][k - 1];
    }
  }

  // ---------- snapshots ----------

  ghost predicate Hydratable(context: Context, eRef: string) {
    && Recoverable(context, eRef)
    && var info := context.entities[context.typeOf(eRef).value];
       VisibleIn(context, info, eRef) && forall k :: 0 <= k < |info.fields| ==> FieldCanShow(context, eRef, info.fields[k])
  }

  /**
   A reference can be hydrated exactly if it is visible, its identity can be recovered, and so can every
   reference that its fields show and, if they are asked for, its claims hold.
   */
  lemma HydrateSucceeds(context: Context, eRef: string)
    ensures Hydrate(context, eRef).Success? <==> Hydratable(context, eRef)
  {
    RecoverSucceeds(context, eRef);
    var entityType := context.typeOf(eRef);
    if entityType.Some? && entityType.value in context.entities {
      VisibleMeans(context, context.entities[entityType.value], eRef);
      FieldsSucceed(context, eRef, context.entities[entityType.value].fields);
    }
  }
}
