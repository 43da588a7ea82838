/** What a find request goes through, what it keeps and what it warns of. */
module FindMeaning {
  import opened Wrappers
  import opened EntityView
  import opened Positions
  import opened SnapshotContents
  import opened SnapshotMeaning
  import Order = StringOrder

  // ---------- the references gone through ----------

  lemma EnumerateInMeans(rows: seq<Row>, eRef: string)
    ensures eRef in EnumerateIn(rows) <==> exists i :: 0 <= i < |rows| && IsAbout(rows[i], eRef)
  {
    if i :| 0 <= i < |rows| && IsAbout(rows[i], eRef) {
      assert rows[i] in rows;
    }
    if eRef in EnumerateIn(rows) {
      var r: Row :| r in rows && r != [] && r[0].Text? && r[0].s == eRef;
      var i :| 0 <= i < |rows| && rows[i] == r;
    }
  }

  /** A find request goes through exactly the references that are visible in the type. */
  lemma EnumerateMeans(context: Context, info: EntityInfo, eRef: string)
    ensures eRef in EnumerateRefs(context, info) <==> VisibleIn(context, info, eRef)
  {
    EnumerateInMeans(Table(context, info.existsPred), eRef);
    forall p
      ensures eRef in EnumerateIn(Table(context, p)) <==> SpeaksOf(context, p, eRef)
    {
      EnumerateInMeans(Table(context, p), eRef);
    }
    if k :| 0 <= k < |info.fieldPreds| && SpeaksOf(context, info.fieldPreds[k], eRef) {
      assert info.fieldPreds[k] in info.fieldPreds;
    }
    if p :| p in info.fieldPreds && p in context.view && eRef in EnumerateIn(context.view[p]) {
      var k :| 0 <= k < |info.fieldPreds| && info.fieldPreds[k] == p;
    }
  }

  // ---------- filters ----------

  ghost predicate IsNamed(fields: seq<FieldState>, name: string, k: nat) {
    k < |fields| && fields[k].name == name && forall j :: 0 <= j < k ==> fields[j].name != name
  }

  // A single field must have one of the values, a multi field must share one with them.
  ghost predicate Meets(content: Content, accepted: seq<Hydrated>) {
    if content.Single? then content.value.Some? && exists i :: 0 <= i < |accepted| && accepted[i] == content.value.value
    else exists i, j :: 0 <= i < |accepted| && 0 <= j < |content.values| && accepted[i] == content.values[j]
  }

  ghost predicate Passes(snapshot: Snapshot, filters: map<string, seq<Hydrated>>) {
    forall name :: name in filters ==> exists k: nat :: IsNamed(snapshot.fields, name, k) && Meets(snapshot.fields[k].content, filters[name])
  }

  lemma {:induction false} FieldNamedMeans(fields: seq<FieldState>, name: string)
    ensures var r := FieldNamed(fields, name);
      if r.Some? then exists k: nat :: IsNamed(fields, name, k) && fields[k] == r.value else forall k: nat :: !IsNamed(fields, name, k)
  {
    if fields != [] && fields[0].name != name {
      FieldNamedMeans(fields[1..], name);
      var r := FieldNamed(fields, name);
      if r.Some? {
        var k: nat :| IsNamed(fields[1..], name, k) && fields[1..][k] == r.value;
        NamedNext(fields, name, k + 1);
        assert IsNamed(fields, name, k + 1) && fields[k + 1] == r.value;
      } else {
        forall k: nat
          ensures !IsNamed(fields, name, k)
        {
          if k < |fields| {
            NamedNext(fields, name, k);
          }
        }
      }
    } else if fields != [] {
      assert IsNamed(fields, name, 0);
    }
  }

  lemma NamedNext(fields: seq<FieldState>, name: string, k: nat)
    requires k < |fields| && fields[0].name != name
    ensures IsNamed(fields, name, k) <==> k > 0 && IsNamed(fields[1..], name, k - 1)
  {
    if k > 0 {
      var rest := fields[1..];
      assert forall j :: 0 <= j < k ==> rest[j] == fields[j + 1];
      if IsNamed(rest, name, k - 1) {
        forall j | 0 <= j < k
          ensures fields[j].name != name
        {
          assert j > 0 ==> rest[j - 1].name != name;
        }
      }
    }
  }

  lemma OneMeets(content: Content, accepted: seq<Hydrated>)
    ensures Meets(content, accepted) <==>
      if content.Single? then content.value.Some? && content.value.value in accepted
      else exists v :: v in accepted && v in content.values
  {
    if content.Many? {
      if v :| v in accepted && v in content.values {
        var i :| 0 <= i < |accepted| && accepted[i] == v;
        var j :| 0 <= j < |content.values| && content.values[j] == v;
      }
      if i, j :| 0 <= i < |accepted| && 0 <= j < |content.values| && accepted[i] == content.values[j] {
        assert accepted[i] in accepted && accepted[i] in content.values;
      }
    }
  }

  lemma NamedOnce(fields: seq<FieldState>, name: string, j: nat, k: nat)
    requires IsNamed(fields, name, j) && IsNamed(fields, name, k)
    ensures j == k
  {
  }

  lemma FiltersMean(snapshot: Snapshot, filters: map<string, seq<Hydrated>>)
    ensures MatchesFilters(snapshot, filters) <==> Passes(snapshot, filters)
  {
    forall name | name in filters
      ensures (exists k: nat :: IsNamed(snapshot.fields, name, k) && Meets(snapshot.fields[k].content, filters[name])) <==>
        var state := FieldNamed(snapshot.fields, name);
        state.Some? && if state.value.content.Single? then state.value.content.value.Some? && state.value.content.value.value in filters[name]
                       else exists v :: v in filters[name] && v in state.value.content.values
    {
      FieldNamedMeans(snapshot.fields, name);
      var state := FieldNamed(snapshot.fields, name);
      if state.Some? {
        OneMeets(state.value.content, filters[name]);
        var k: nat :| IsNamed(snapshot.fields, name, k) && snapshot.fields[k] == state.value;
        forall j: nat | IsNamed(snapshot.fields, name, j)
          ensures j == k
        {
          NamedOnce(snapshot.fields, name, j, k);
        }
      }
    }
  }

  // ---------- items and warnings ----------

  ghost predicate GatheredAt<T(!new)>(eRefs: seq<string>, of: string -> seq<T>, at: seq<nat>, all: seq<T>) {
    |all| == |at| && forall k :: 0 <= k < |at| ==> at[k] < |eRefs| && of(eRefs[at[k]]) == [all[k]]
  }

  ghost predicate Gathered<T(!new)>(eRefs: seq<string>, wanted: string -> bool, of: string -> seq<T>, all: seq<T>) {
    exists at :: Picks(eRefs, wanted, at) && GatheredAt(eRefs, of, at, all)
  }

  lemma GatheredShifted<T(!new)>(eRefs: seq<string>, of: string -> seq<T>, at: seq<nat>, rest: seq<T>)
    requires eRefs != [] && GatheredAt(eRefs[1..], of, at, rest)
    ensures GatheredAt(eRefs, of, Shifted(at), rest)
  {
    assert forall k :: 0 <= k < |at| ==> eRefs[1..][at[k]] == eRefs[at[k] + 1];
  }

  lemma GatheredBefore<T(!new)>(eRefs: seq<string>, of: string -> seq<T>, at: seq<nat>, rest: seq<T>, first: T)
    requires eRefs != [] && GatheredAt(eRefs, of, at, rest) && of(eRefs[0]) == [first]
    ensures GatheredAt(eRefs, of, [0] + at, [first] + rest)
  {
  }

  lemma GatheredNext<T(!new)>(eRefs: seq<string>, wanted: string -> bool, of: string -> seq<T>, rest: seq<T>)
    requires eRefs != [] && Gathered(eRefs[1..], wanted, of, rest)
    requires |of(eRefs[0])| == if wanted(eRefs[0]) then 1 else 0
    ensures Gathered(eRefs, wanted, of, of(eRefs[0]) + rest)
  {
    var at :| Picks(eRefs[1..], wanted, at) && GatheredAt(eRefs[1..], of, at, rest);
    PicksShifted(eRefs, wanted, at);
    GatheredShifted(eRefs, of, at, rest);
    if wanted(eRefs[0]) {
      assert of(eRefs[0]) == [of(eRefs[0])[0]];
      GatheredBefore(eRefs, of, Shifted(at), rest, of(eRefs[0])[0]);
    } else {
      assert [] + Shifted(at) == Shifted(at) && of(eRefs[0]) + rest == rest;
    }
  }

  lemma {:induction false} GatherMeans<T(!new)>(eRefs: seq<string>, wanted: string -> bool, of: string -> seq<T>)
    requires forall eRef :: |of(eRef)| == if wanted(eRef) then 1 else 0
    ensures Gathered(eRefs, wanted, of, Gather(eRefs, of))
  {
    if eRefs == [] {
      assert Picks(eRefs, wanted, []) && GatheredAt(eRefs, of, [], []);
    } else {
      GatherMeans(eRefs[1..], wanted, of);
      GatheredNext(eRefs, wanted, of, Gather(eRefs[1..], of));
    }
  }

  // The references that hydrate to a snapshot passing the filters.
  ghost function Found(context: Context, filters: map<string, seq<Hydrated>>): string -> bool {
    eRef => Hydrate(context, eRef).Success? && Passes(Hydrate(context, eRef).value, filters)
  }

  ghost function Broken(context: Context): string -> bool {
    eRef => Hydrate(context, eRef).Failure?
  }

  ghost predicate ItemsAt(context: Context, eRefs: seq<string>, at: seq<nat>, items: seq<Snapshot>) {
    |items| == |at| && forall k :: 0 <= k < |at| ==> at[k] < |eRefs| && Hydrate(context, eRefs[at[k]]) == Success(items[k])
  }

  ghost predicate WarningsAt(context: Context, eRefs: seq<string>, at: seq<nat>, warnings: seq<ViewError>) {
    |warnings| == |at| && forall k :: 0 <= k < |at| ==>
      at[k] < |eRefs| && WarnsOf(Hydrate(context, eRefs[at[k]]), eRefs[at[k]], warnings[k])
  }

  ghost predicate WarnsOf(r: Result<Snapshot, ViewError>, eRef: string, warning: ViewError) {
    r.Failure? && warning == ViewError(r.error.code, eRef)
  }

  lemma ItemCount(context: Context, eRef: string, filters: map<string, seq<Hydrated>>)
    ensures |ItemOf(context, eRef, filters)| == if Found(context, filters)(eRef) then 1 else 0
  {
    if Hydrate(context, eRef).Success? {
      FiltersMean(Hydrate(context, eRef).value, filters);
    }
  }

  lemma ItemsGathered(context: Context, eRefs: seq<string>, filters: map<string, seq<Hydrated>>, of: string -> seq<Snapshot>,
                      at: seq<nat>, items: seq<Snapshot>)
    requires forall eRef :: of(eRef) == ItemOf(context, eRef, filters)
    requires GatheredAt(eRefs, of, at, items)
    ensures ItemsAt(context, eRefs, at, items)
  {
    forall k | 0 <= k < |at|
      ensures Hydrate(context, eRefs[at[k]]) == Success(items[k])
    {
      assert ItemOf(context, eRefs[at[k]], filters) == [items[k]];
    }
  }

  /** The items are the snapshots that pass every filter, one per reference, in order. */
  lemma ItemsMean(context: Context, eRefs: seq<string>, filters: map<string, seq<Hydrated>>)
    ensures exists at :: Picks(eRefs, Found(context, filters), at) && ItemsAt(context, eRefs, at, FindItems(context, eRefs, filters))
  {
    var of := (eRef: string) => ItemOf(context, eRef, filters);
    forall eRef
      ensures |of(eRef)| == if Found(context, filters)(eRef) then 1 else 0
    {
      ItemCount(context, eRef, filters);
    }
    GatherMeans(eRefs, Found(context, filters), of);
    var at :| Picks(eRefs, Found(context, filters), at) && GatheredAt(eRefs, of, at, Gather(eRefs, of));
    ItemsGathered(context, eRefs, filters, of, at, Gather(eRefs, of));
  }

  /** A warning for every reference that cannot be hydrated, in order, with the code of its error. */
  lemma WarningsMean(context: Context, eRefs: seq<string>)
    ensures exists at :: Picks(eRefs, Broken(context), at) && WarningsAt(context, eRefs, at, FindWarnings(context, eRefs))
  {
    var of := (eRef: string) => WarningOf(context, eRef);
    GatherMeans(eRefs, Broken(context), of);
    var at :| Picks(eRefs, Broken(context), at) && GatheredAt(eRefs, of, at, Gather(eRefs, of));
    assert WarningsAt(context, eRefs, at, FindWarnings(context, eRefs));
  }

  ghost predicate FoundAs(context: Context, filters: map<string, seq<Hydrated>>, eRef: string, snapshot: Snapshot) {
    Hydrate(context, eRef) == Success(snapshot) && Passes(snapshot, filters)
  }

  lemma ItemsAre(context: Context, eRefs: seq<string>, filters: map<string, seq<Hydrated>>, at: seq<nat>, items: seq<Snapshot>,
                 snapshot: Snapshot)
    requires Picks(eRefs, Found(context, filters), at) && ItemsAt(context, eRefs, at, items)
    ensures snapshot in items <==> exists eRef :: eRef in eRefs && FoundAs(context, filters, eRef, snapshot)
  {
    if eRef :| eRef in eRefs && FoundAs(context, filters, eRef, snapshot) {
      var i: nat :| i < |eRefs| && eRefs[i] == eRef;
      assert Found(context, filters)(eRefs[i]);
      var k :| 0 <= k < |at| && at[k] == i;
      assert items[k] == snapshot;
    }
    if snapshot in items {
      var k :| 0 <= k < |items| && items[k] == snapshot;
      assert at[k] in at;
      assert Found(context, filters)(eRefs[at[k]]);
      assert eRefs[at[k]] in eRefs && FoundAs(context, filters, eRefs[at[k]], snapshot);
    }
  }

  /** A find request without limit returns every snapshot of a visible reference that passes the filters, and no other. */
  lemma FoundItems(context: Context, info: EntityInfo, filters: map<string, seq<Hydrated>>, snapshot: Snapshot)
    ensures snapshot in FindItems(context, Order.Sorted(EnumerateRefs(context, info)), filters)
      <==> exists eRef :: VisibleIn(context, info, eRef) && FoundAs(context, filters, eRef, snapshot)
  {
    var eRefs := Order.Sorted(EnumerateRefs(context, info));
    ItemsMean(context, eRefs, filters);
    var at :| Picks(eRefs, Found(context, filters), at) && ItemsAt(context, eRefs, at, FindItems(context, eRefs, filters));
    ItemsAre(context, eRefs, filters, at, FindItems(context, eRefs, filters), snapshot);
    forall eRef
      ensures eRef in eRefs <==> VisibleIn(context, info, eRef)
    {
      EnumerateMeans(context, info, eRef);
    }
  }
}
