/** Entity snapshots hydrated from the visible facts, as plain functions of the view and the schema. */
module EntityView {
  import opened Wrappers
  import WhereEval

  type Value = WhereEval.Value
  type Row = WhereEval.Row
  type View = WhereEval.View

  datatype Field = Field(name: string, pred: string, isRef: bool, single: bool)

  // Identity fields in schema order, each with its predicate if the schema has one; the predicates
  // of all fields; and the other fields sorted by name.
  datatype EntityInfo = EntityInfo(existsPred: string, identity: seq<(string, Option<string>)>,
                                   fieldPreds: seq<string>, fields: seq<Field>)

  datatype Ref = Ref(entityType: string, identity: map<string, Value>, encoded: string)

  // A claim of a field: its last term, if it has one.
  datatype ClaimRow = ClaimRow(id: string, raw: Option<Value>, active: bool)

  datatype ViewError = ViewError(code: string, ref: string)

  datatype Context = Context(
    view: View,
    entities: map<string, EntityInfo>,
    typeOf: string -> Option<string>,
    materialize: (string, map<string, Value>) -> Result<map<string, Value>, ViewError>,
    claimsOf: (string, string) -> seq<ClaimRow>,
    includeAssertions: bool,
    includeHistory: bool)

  datatype Hydrated = PlainValue(raw: Value) | RefValue(ref: Ref)

  datatype Content = Single(value: Option<Hydrated>) | Many(values: seq<Hydrated>)

  datatype Record = Record(id: string, value: Option<Hydrated>, active: bool)

  datatype Assertions = Assertions(active: seq<Record>, history: seq<Record>)

  datatype FieldState = FieldState(name: string, content: Content, assertions: Option<Assertions>)

  datatype Snapshot = Snapshot(ref: Ref, fields: seq<FieldState>)

  // ---------- reading rows ----------

  predicate Filled(rows: seq<Row>) {
    forall i :: 0 <= i < |rows| ==> rows[i] != []
  }

  function RowsAbout(rows: seq<Row>, eRef: string): (r: seq<Row>)
    ensures Filled(r)
  {
    if rows == [] then []
    else (if rows[0] != [] && rows[0][0] == WhereEval.Text(eRef) then [rows[0]] else []) + RowsAbout(rows[1..], eRef)
  }

  function RowsFor(context: Context, pred: string, eRef: string): (rows: seq<Row>)
    ensures Filled(rows)
  {
    RowsAbout(if pred in context.view then context.view[pred] else [], eRef)
  }

  function Last(row: Row): Value
    requires row != []
  {
    row[|row| - 1]
  }

  function RecoverIdentity(context: Context, eRef: string, fields: seq<(string, Option<string>)>, values: map<string, Value>)
    : Result<map<string, Value>, ViewError>
    decreases |fields|
  {
    if fields == [] then Success(values)
    else
      var (name, pred) := fields[0];
      if pred.None? then Failure(ViewError("IDENTITY_PREDICATE_NOT_FOUND", eRef))
      else
        var rows := RowsFor(context, pred.value, eRef);
        if rows == [] then Failure(ViewError("IDENTITY_NOT_AVAILABLE", eRef))
        else
            RecoverIdentity(context, eRef, fields[1..], values[name := Last(rows[0])])
  }

  /** The reference an encoded one stands for, read from the visible identity facts. */
  function Recover(context: Context, eRef: string): Result<Ref, ViewError> {
    var entityType := context.typeOf(eRef);
    if entityType.None? then Failure(ViewError("INVALID_ENTITY_REF", eRef))
    else if entityType.value !in context.entities then Failure(ViewError("UNKNOWN_ENTITY_TYPE", eRef))
    else
      var raw :- RecoverIdentity(context, eRef, context.entities[entityType.value].identity, map[]);
      var identity :- context.materialize(entityType.value, raw);
      Success(Ref(entityType.value, identity, eRef))
  }

  function HydrateValue(context: Context, raw: Value, isRef: bool): Result<Hydrated, ViewError> {
    if !isRef then Success(PlainValue(raw))
    else if !raw.Text? then Failure(ViewError("INVALID_FIELD_VALUE", ""))
    else
      var ref :- Recover(context, raw.s);
      Success(RefValue(ref))
  }

  function HydrateAll(context: Context, rows: seq<Row>, isRef: bool): Result<seq<Hydrated>, ViewError>
    requires Filled(rows)
  {
    if rows == [] then Success([])
    else
      var first :- HydrateValue(context, Last(rows[0]), isRef);
      var rest :- HydrateAll(context, rows[1..], isRef);
      Success([first] + rest)
  }

  function HydrateContent(context: Context, rows: seq<Row>, field: Field): Result<Content, ViewError>
    requires Filled(rows)
  {
    if field.single then
      if rows == [] then Success(Single(None))
      else
        var value :- HydrateValue(context, Last(rows[0]), field.isRef);
        Success(Single(Some(value)))
    else
      var values :- HydrateAll(context, rows, field.isRef);
      Success(Many(values))
  }

  function HydrateRecords(context: Context, claims: seq<ClaimRow>, isRef: bool): Result<seq<Record>, ViewError> {
    if claims == [] then Success([])
    else
      var value :- (if claims[0].raw.None? then Success(None) else OptionOf(HydrateValue(context, claims[0].raw.value, isRef)));
      var rest :- HydrateRecords(context, claims[1..], isRef);
      Success([Record(claims[0].id, value, claims[0].active)] + rest)
  }

  function OptionOf(r: Result<Hydrated, ViewError>): Result<Option<Hydrated>, ViewError> {
    if r.Failure? then Failure(r.error) else Success(Some(r.value))
  }

  function ActiveRecords(records: seq<Record>): seq<Record> {
    if records == [] then [] else (if records[0].active then [records[0]] else []) + ActiveRecords(records[1..])
  }

  function HydrateField(context: Context, eRef: string, field: Field): Result<FieldState, ViewError> {
    var content :- HydrateContent(context, RowsFor(context, field.pred, eRef), field);
    if !context.includeAssertions then Success(FieldState(field.name, content, None))
    else
      var records :- HydrateRecords(context, context.claimsOf(field.pred, eRef), field.isRef);
      Success(FieldState(field.name, content,
                         Some(Assertions(ActiveRecords(records), if context.includeHistory then records else []))))
  }

  function HydrateFields(context: Context, eRef: string, fields: seq<Field>): Result<seq<FieldState>, ViewError> {
    if fields == [] then Success([])
    else
      var first :- HydrateField(context, eRef, fields[0]);
      var rest :- HydrateFields(context, eRef, fields[1..]);
      Success([first] + rest)
  }

  predicate EntityVisible(context: Context, info: EntityInfo, eRef: string) {
    RowsFor(context, info.existsPred, eRef) != []
    || exists p :: p in info.fieldPreds && RowsFor(context, p, eRef) != []
  }

  /** A snapshot as it is without any cache. */
  function Hydrate(context: Context, eRef: string): Result<Snapshot, ViewError> {
    var entityType := context.typeOf(eRef);
    if entityType.None? then Failure(ViewError("INVALID_ENTITY_REF", eRef))
    else if entityType.value !in context.entities then Failure(ViewError("UNKNOWN_ENTITY_TYPE", eRef))
    else if !EntityVisible(context, context.entities[entityType.value], eRef) then Failure(ViewError("ENTITY_NOT_FOUND", eRef))
    else
      var ref :- Recover(context, eRef);
      var fields :- HydrateFields(context, eRef, context.entities[entityType.value].fields);
      Success(Snapshot(ref, fields))
  }

  /** Each reference on its own; the first failure ends the list. */
  function HydrateEach(context: Context, eRefs: seq<string>): Result<seq<Snapshot>, ViewError> {
    if eRefs == [] then Success([])
    else
      var first :- Hydrate(context, eRefs[0]);
      var rest :- HydrateEach(context, eRefs[1..]);
      Success([first] + rest)
  }

  // ---------- finding ----------

  function EnumerateIn(rows: seq<Row>): set<string> {
    set r: Row | r in rows && r != [] && r[0].Text? :: r[0].s
  }

  // Everything the type's exists predicate or one of its fields speaks about.
  function EnumerateRefs(context: Context, info: EntityInfo): set<string> {
    (if info.existsPred in context.view then EnumerateIn(context.view[info.existsPred]) else {})
    + set p, s | p in info.fieldPreds && p in context.view && s in EnumerateIn(context.view[p]) :: s
  }

  function FieldNamed(fields: seq<FieldState>, name: string): Option<FieldState> {
    if fields == [] then None else if fields[0].name == name then Some(fields[0]) else FieldNamed(fields[1..], name)
  }

  predicate MatchesFilters(snapshot: Snapshot, filters: map<string, seq<Hydrated>>) {
    forall name :: name in filters ==>
      var state := FieldNamed(snapshot.fields, name);
      && state.Some?
      && match state.value.content
         case Single(value) => value.Some? && value.value in filters[name]
         case Many(values) => exists v :: v in filters[name] && v in values
  }

  // What the find loop gathers for one reference, hydrated with a fresh cache.
  function ItemOf(context: Context, eRef: string, filters: map<string, seq<Hydrated>>): seq<Snapshot> {
    var one := Hydrate(context, eRef);
    if one.Success? && MatchesFilters(one.value, filters) then [one.value] else []
  }

  function WarningOf(context: Context, eRef: string): seq<ViewError> {
    var one := Hydrate(context, eRef);
    if one.Failure? then [ViewError(one.error.code, eRef)] else []
  }

  function Gather<T>(eRefs: seq<string>, of: string -> seq<T>): seq<T> {
    if eRefs == [] then [] else of(eRefs[0]) + Gather(eRefs[1..], of)
  }

  // Every reference with fresh caches: what matches, and a warning for what cannot be hydrated.
  function FindItems(context: Context, eRefs: seq<string>, filters: map<string, seq<Hydrated>>): seq<Snapshot> {
    Gather(eRefs, eRef => ItemOf(context, eRef, filters))
  }

  function FindWarnings(context: Context, eRefs: seq<string>): seq<ViewError> {
    Gather(eRefs, eRef => WarningOf(context, eRef))
  }
}
