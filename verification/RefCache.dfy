/**
 Hydration as it runs, with one reference cache shared by all fields, entities and failures of a
 request. The cache is never seen: every result is that of the plain functions.
 */
module RefCaches {
  import opened Wrappers
  import opened EntityView
  import opened SnapshotMeaning
  import opened Traversals
  import Order = StringOrder

  class RefCache {
    var refs: map<string, Ref>

    constructor ()
      ensures refs == map[]
    {
      refs := map[];
    }

    // Everything cached is what recovery would give.
    ghost predicate Sound(context: Context)
      reads this
    {
      forall eRef :: eRef in refs ==> Recover(context, eRef) == Success(refs[eRef])
    }

    method RecoverEntityRef(context: Context, eRef: string) returns (r: Result<Ref, ViewError>)
      requires Sound(context)
      modifies this
      ensures Sound(context) && r == Recover(context, eRef)
      ensures r.Success? ==> eRef in refs
    {
      if eRef in refs {
        return Success(refs[eRef]);
      }
      var ref :- Recover(context, eRef);
      refs := refs[eRef := ref];
      r := Success(ref);
    }

    method HydrateCell(context: Context, raw: Value, isRef: bool) returns (r: Result<Hydrated, ViewError>)
      requires Sound(context)
      modifies this
      ensures Sound(context) && r == HydrateValue(context, raw, isRef)
    {
      if !isRef {
        return Success(PlainValue(raw));
      }
      if !raw.Text? {
        return Failure(ViewError("INVALID_FIELD_VALUE", ""));
      }
      var ref :- RecoverEntityRef(context, raw.s);
      r := Success(RefValue(ref));
    }

    method HydrateRows(context: Context, rows: seq<Row>, isRef: bool) returns (r: Result<seq<Hydrated>, ViewError>)
      requires Sound(context) && Filled(rows)
      modifies this
      ensures Sound(context) && r == HydrateAll(context, rows, isRef)
    {
      var values: seq<Hydrated> := [];
      assert rows[0..] == rows;
      BehindNothing(HydrateAll(context, rows, isRef));
      for k := 0 to |rows|
        invariant Sound(context)
        invariant HydrateAll(context, rows, isRef) == Behind(values, HydrateAll(context, rows[k..], isRef))
      {
        assert rows[k..][0] == rows[k] && rows[k..][1..] == rows[k + 1..];
        var value := HydrateCell(context, Last(rows[k]), isRef);
        if value.Failure? {
          return Failure(value.error);
        }
        BehindOne(values, value.value, HydrateAll(context, rows[k + 1..], isRef));
        values := values + [value.value];
      }
      assert values + [] == values;
      r := Success(values);
    }

    method RowsToContent(context: Context, rows: seq<Row>, field: Field) returns (r: Result<Content, ViewError>)
      requires Sound(context) && Filled(rows)
      modifies this
      ensures Sound(context) && r == HydrateContent(context, rows, field)
    {
      if field.single {
        if rows == [] {
          return Success(Single(None));
        }
        var value :- HydrateCell(context, Last(rows[0]), field.isRef);
        return Success(Single(Some(value)));
      }
      var values :- HydrateRows(context, rows, field.isRef);
      r := Success(Many(values));
    }

    method BuildRecords(context: Context, claims: seq<ClaimRow>, isRef: bool) returns (r: Result<seq<Record>, ViewError>)
      requires Sound(context)
      modifies this
      ensures Sound(context) && r == HydrateRecords(context, claims, isRef)
    {
      var records: seq<Record> := [];
      assert claims[0..] == claims;
      BehindNothing(HydrateRecords(context, claims, isRef));
      for k := 0 to |claims|
        invariant Sound(context)
        invariant HydrateRecords(context, claims, isRef) == Behind(records, HydrateRecords(context, claims[k..], isRef))
      {
        assert claims[k..][0] == claims[k] && claims[k..][1..] == claims[k + 1..];
        var value: Option<Hydrated> := None;
        if claims[k].raw.Some? {
          var cell := HydrateCell(context, claims[k].raw.value, isRef);
          if cell.Failure? {
            return Failure(cell.error);
          }
          value := Some(cell.value);
        }
        var record := Record(claims[k].id, value, claims[k].active);
        BehindOne(records, record, HydrateRecords(context, claims[k + 1..], isRef));
        records := records + [record];
      }
      assert records + [] == records;
      r := Success(records);
    }

    method BuildField(context: Context, eRef: string, field: Field) returns (r: Result<FieldState, ViewError>)
      requires Sound(context)
      modifies this
      ensures Sound(context) && r == HydrateField(context, eRef, field)
    {
      var content :- RowsToContent(context, RowsFor(context, field.pred, eRef), field);
      if !context.includeAssertions {
        return Success(FieldState(field.name, content, None));
      }
      var records :- BuildRecords(context, context.claimsOf(field.pred, eRef), field.isRef);
      r := Success(FieldState(field.name, content,
                              Some(Assertions(ActiveRecords(records), if context.includeHistory then records else []))));
    }

    method BuildFields(context: Context, eRef: string, fields: seq<Field>) returns (r: Result<seq<FieldState>, ViewError>)
      requires Sound(context)
      modifies this
      ensures Sound(context) && r == HydrateFields(context, eRef, fields)
    {
      var states: seq<FieldState> := [];
      assert fields[0..] == fields;
      BehindNothing(HydrateFields(context, eRef, fields));
      for k := 0 to |fields|
        invariant Sound(context)
        invariant HydrateFields(context, eRef, fields) == Behind(states, HydrateFields(context, eRef, fields[k..]))
      {
        assert fields[k..][0] == fields[k] && fields[k..][1..] == fields[k + 1..];
        var state := BuildField(context, eRef, fields[k]);
        if state.Failure? {
          return Failure(state.error);
        }
        BehindOne(states, state.value, HydrateFields(context, eRef, fields[k + 1..]));
        states := states + [state.value];
      }
      assert states + [] == states;
      r := Success(states);
    }

    method HydrateSnapshot(context: Context, eRef: string) returns (r: Result<Snapshot, ViewError>)
      requires Sound(context)
      modifies this
      ensures Sound(context) && r == Hydrate(context, eRef)
    {
      var entityType := context.typeOf(eRef);
      if entityType.None? {
        return Failure(ViewError("INVALID_ENTITY_REF", eRef));
      }
      if entityType.value !in context.entities {
        return Failure(ViewError("UNKNOWN_ENTITY_TYPE", eRef));
      }
      var info := context.entities[entityType.value];
      if !EntityVisible(context, info, eRef) {
        return Failure(ViewError("ENTITY_NOT_FOUND", eRef));
      }
      var ref :- RecoverEntityRef(context, eRef);
      refs := refs[eRef := ref];
      var fields :- BuildFields(context, eRef, info.fields);
      r := Success(Snapshot(ref, fields));
    }
  }

  /** A list of references with one cache is each of them with an empty cache, up to the same first failure. */
  method HydrateEntities(context: Context, eRefs: seq<string>) returns (r: Result<seq<Snapshot>, ViewError>)
    ensures r == HydrateEach(context, eRefs)
    ensures Traversed(eRefs, MeaningIn(context), r)
  {
    HydrateEachMeans(context, eRefs);
    var cache := new RefCache();
    var snapshots: seq<Snapshot> := [];
    assert eRefs[0..] == eRefs;
    BehindNothing(HydrateEach(context, eRefs));
    for k := 0 to |eRefs|
      invariant cache.Sound(context)
      invariant HydrateEach(context, eRefs) == Behind(snapshots, HydrateEach(context, eRefs[k..]))
    {
      assert eRefs[k..][0] == eRefs[k] && eRefs[k..][1..] == eRefs[k + 1..];
      var snapshot := cache.HydrateSnapshot(context, eRefs[k]);
      if snapshot.Failure? {
        return Failure(snapshot.error);
      }
      BehindOne(snapshots, snapshot.value, HydrateEach(context, eRefs[k + 1..]));
      snapshots := snapshots + [snapshot.value];
    }
    assert snapshots + [] == snapshots;
    r := Success(snapshots);
  }

  // ---------- finding ----------

  // How many items the loop collects before it stops.
  function Least(limit: Option<nat>): nat {
    if limit.None? || limit.value == 0 then 1 else limit.value
  }

  function Limited(items: seq<Snapshot>, limit: Option<nat>): seq<Snapshot> {
    if limit.None? || |items| < Least(limit) then items else items[..Least(limit)]
  }

  // The loop has gone through the references before `stop`: all of them if the limit is never
  // reached, and otherwise those up to the one whose item reaches it.
  ghost predicate StopsAt(context: Context, eRefs: seq<string>, filters: map<string, seq<Hydrated>>, limit: Option<nat>, stop: nat) {
    && stop <= |eRefs|
    && (limit.None? || |FindItems(context, eRefs[..stop], filters)| < Least(limit) ==> stop == |eRefs|)
    && (limit.Some? && |FindItems(context, eRefs[..stop], filters)| >= Least(limit) ==>
          stop > 0 && |FindItems(context, eRefs[..stop - 1], filters)| == Least(limit) - 1
          && |FindItems(context, eRefs[..stop], filters)| == Least(limit))
  }

  lemma {:induction false} GatherSplit<T>(all: seq<string>, a: seq<string>, b: seq<string>, of: string -> seq<T>)
    requires all == a + b
    ensures Gather(all, of) == Gather(a, of) + Gather(b, of)
    decreases |a|
  {
    if a == [] {
      assert all == b;
    } else {
      assert all[1..] == a[1..] + b;
      GatherSplit(all[1..], a[1..], b, of);
    }
  }

  lemma GatherNext<T>(eRefs: seq<string>, k: nat, of: string -> seq<T>)
    requires k < |eRefs|
    ensures Gather(eRefs[..k + 1], of) == Gather(eRefs[..k], of) + of(eRefs[k])
  {
    var last := [eRefs[k]];
    assert last[1..] == [];
    GatherSplit(eRefs[..k + 1], eRefs[..k], last, of);
  }

  lemma FindNext(context: Context, eRefs: seq<string>, k: nat, filters: map<string, seq<Hydrated>>)
    requires k < |eRefs|
    ensures FindItems(context, eRefs[..k + 1], filters) == FindItems(context, eRefs[..k], filters) + ItemOf(context, eRefs[k], filters)
    ensures FindWarnings(context, eRefs[..k + 1]) == FindWarnings(context, eRefs[..k]) + WarningOf(context, eRefs[k])
  {
    GatherNext(eRefs, k, eRef => ItemOf(context, eRef, filters));
    GatherNext(eRefs, k, eRef => WarningOf(context, eRef));
  }

  /** The items found before the loop stops are the limited items of the whole list. */
  lemma StoppedIsLimited(context: Context, eRefs: seq<string>, filters: map<string, seq<Hydrated>>, limit: Option<nat>, stop: nat)
    requires StopsAt(context, eRefs, filters, limit, stop)
    ensures FindItems(context, eRefs[..stop], filters) == Limited(FindItems(context, eRefs, filters), limit)
  {
    if stop == |eRefs| {
      assert eRefs[..stop] == eRefs;
    } else {
      GatherSplit(eRefs, eRefs[..stop], eRefs[stop..], eRef => ItemOf(context, eRef, filters));
    }
  }

  lemma StopsAtLimit(context: Context, eRefs: seq<string>, filters: map<string, seq<Hydrated>>, limit: Option<nat>, k: nat)
    requires k < |eRefs| && limit.Some? && |FindItems(context, eRefs[..k], filters)| < Least(limit)
    requires |FindItems(context, eRefs[..k + 1], filters)| >= Least(limit)
    ensures StopsAt(context, eRefs, filters, limit, k + 1)
  {
    FindNext(context, eRefs, k, filters);
  }

  // What the loop has collected when it stops: the items and warnings of fresh caches up to there.
  ghost predicate FoundUpTo(context: Context, eRefs: seq<string>, filters: map<string, seq<Hydrated>>, limit: Option<nat>,
                            items: seq<Snapshot>, warnings: seq<ViewError>, stop: nat) {
    && StopsAt(context, eRefs, filters, limit, stop)
    && items == FindItems(context, eRefs[..stop], filters)
    && warnings == FindWarnings(context, eRefs[..stop])
  }

  /**
   The find loop with one cache: up to where it stops, items and warnings are those of fresh caches.
   It stops after the item that reaches the limit, so a limit of zero still yields one item.
   */
  method FindIn(context: Context, eRefs: seq<string>, filters: map<string, seq<Hydrated>>, limit: Option<nat>)
    returns (items: seq<Snapshot>, warnings: seq<ViewError>)
    ensures items == Limited(FindItems(context, eRefs, filters), limit)
    ensures exists stop: nat :: FoundUpTo(context, eRefs, filters, limit, items, warnings, stop)
  {
    var cache := new RefCache();
    items, warnings := [], [];
    for k := 0 to |eRefs|
      invariant cache.Sound(context)
      invariant items == FindItems(context, eRefs[..k], filters) && warnings == FindWarnings(context, eRefs[..k])
      invariant limit.Some? ==> |items| < Least(limit)
    {
      FindNext(context, eRefs, k, filters);
      var snapshot := cache.HydrateSnapshot(context, eRefs[k]);
      if snapshot.Failure? {
        warnings := warnings + [ViewError(snapshot.error.code, eRefs[k])];
      } else if MatchesFilters(snapshot.value, filters) {
        items := items + [snapshot.value];
        if limit.Some? && |items| >= limit.value {
          StopsAtLimit(context, eRefs, filters, limit, k);
          StoppedIsLimited(context, eRefs, filters, limit, k + 1);
          assert FoundUpTo(context, eRefs, filters, limit, items, warnings, k + 1);
          return;
        }
      }
    }
    StoppedIsLimited(context, eRefs, filters, limit, |eRefs|);
    assert FoundUpTo(context, eRefs, filters, limit, items, warnings, |eRefs|);
  }

  /** A find request goes through everything of the type, in the order of the encoded references. */
  method Find(context: Context, info: EntityInfo, filters: map<string, seq<Hydrated>>, limit: Option<nat>)
    returns (items: seq<Snapshot>, warnings: seq<ViewError>)
    ensures var eRefs := Order.Sorted(EnumerateRefs(context, info));
      && items == Limited(FindItems(context, eRefs, filters), limit)
      && exists stop: nat :: FoundUpTo(context, eRefs, filters, limit, items, warnings, stop)
  {
    items, warnings := FindIn(context, Order.Sorted(EnumerateRefs(context, info)), filters, limit);
  }

  /** A positive limit gives the first so many items of the unlimited find; so does zero, only if there are none. */
  lemma LimitIsPrefix(items: seq<Snapshot>, n: nat)
    ensures Limited(items, None) == items
    ensures Limited(items, Some(n)) == (if |items| < n then items else items[..n]) <==> n > 0 || items == []
  {
  }

  /** The find loop with limit zero over one entity that hydrates: it yields the entity all the same. */
  method FindAtLimitZero(context: Context, eRef: string) returns (items: seq<Snapshot>)
    requires Hydrate(context, eRef).Success?
    ensures items == [Hydrate(context, eRef).value]
  {
    FindNext(context, [eRef], 0, map[]);
    assert [eRef][..1] == [eRef];
    assert ItemOf(context, eRef, map[]) == [Hydrate(context, eRef).value];
    var found, _ := FindIn(context, [eRef], map[], Some(0));
    items := found;
  }

  /** Such an entity: one that only its exists predicate speaks about, of a type without fields. */
  lemma OneVisible(materialize: (string, map<string, Value>) -> Result<map<string, Value>, ViewError>) returns (context: Context)
    requires materialize("person", map[]).Success?
    ensures Hydrate(context, "e1").Success?
    ensures |Limited(FindItems(context, ["e1"], map[]), Some(0))| == 1
  {
    var info := EntityInfo("person:exists", [], [], []);
    var rows := [[WhereEval.Text("e1")]];
    context := Context(map["person:exists" := rows], map["person" := info], _ => Some("person"), materialize, (_, _) => [],
                       false, false);
    assert rows[1..] == [] && rows[0][0] == WhereEval.Text("e1");
    assert RowsAbout(rows[1..], "e1") == [];
    assert RowsAbout(rows, "e1") == rows;
    assert RowsFor(context, info.existsPred, "e1") != [];
    assert HydrateFields(context, "e1", []) == Success([]);
    assert ["e1"][1..] == [];
    assert ItemOf(context, "e1", map[]) == [Hydrate(context, "e1").value];
  }
}
