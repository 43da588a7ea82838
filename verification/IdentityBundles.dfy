/**
 Every run of planning and applying steps, in any interleaving, keeps identity bundles whole: for
 each entity and command metadata, either every identity field has exactly one active claim or
 none has.
 */
module IdentityBundles {
  import opened Wrappers
  import opened Ledgers
  import opened BatchCommit
  import opened BatchProperties
  import opened Planner

  // Plans that have been made. A plan stays available, so it may be applied late or repeatedly.
  datatype World = World(ledger: Ledger, writes: seq<seq<PlannedOp>>, deletes: seq<seq<PlannedOp>>)

  datatype Event =
    | CreatePlanned(target: EntityRef, meta: string, metaValid: bool)
    | WritePlanned(command: WriteCommand)
    | DeletePlanned(target: EntityRef, metaValid: bool)
    | WritesApplied(indexes: seq<nat>)
    | DeleteApplied(index: nat)

  // The batch of the selected write plans, in order; an index without a plan selects nothing.
  function SelectedOps(writes: seq<seq<PlannedOp>>, indexes: seq<nat>): seq<PlannedOp> {
    if indexes == [] then []
    else
      (if indexes[0] < |writes| then writes[indexes[0]] else []) + SelectedOps(writes, indexes[1..])
  }

  function Next(s: Schema, w: World, e: Event): World {
    match e
    case CreatePlanned(target, meta, metaValid) =>
      var plan := PlanCreate(w.ledger, s, target, meta, metaValid);
      if plan.Success? then w.(writes := w.writes + [plan.value]) else w
    case WritePlanned(command) =>
      var plan := PlanWrite(w.ledger, s, command);
      if plan.Success? then w.(writes := w.writes + [plan.value]) else w
    case DeletePlanned(target, metaValid) =>
      var plan := PlanDelete(w.ledger, s, target, metaValid);
      if plan.Success? then w.(deletes := w.deletes + [plan.value]) else w
    case WritesApplied(indexes) =>
      var r := CommitBatch(w.ledger, s, true, SelectedOps(w.writes, indexes));
      if r.Success? then w.(ledger := r.value.ledger) else w
    case DeleteApplied(index) =>
      if index < |w.deletes| then
        var r := CommitBatch(w.ledger, s, false, w.deletes[index]);
        if r.Success? then w.(ledger := r.value.ledger) else w
      else w
  }

  function Run(s: Schema, w: World, events: seq<Event>): World {
    if events == [] then w else Next(s, Run(s, w, events[..|events| - 1]), events[|events| - 1])
  }

  predicate IsIdentityFact(s: Schema, f: Fact) {
    && Resolved(s, f.entity)
    && f.pred in f.entity.identity
    && f == IdentityFact(f.entity, f.pred, f.meta)
  }

  // An active claim for one identity field of an entity under one metadata, whatever its value.
  ghost predicate ActiveField(l: Ledger, ref: EntityRef, pred: string, meta: string, id: AssertionId) {
    exists value :: Active(l, id, Fact(pred, ref, value, meta))
  }

  ghost predicate Complete(l: Ledger, ref: EntityRef, meta: string) {
    forall p :: p in ref.identity ==>
      exists id :: ActiveField(l, ref, p, meta, id) && forall other :: ActiveField(l, ref, p, meta, other) ==> other == id
  }

  ghost predicate Absent(l: Ledger, ref: EntityRef, meta: string) {
    forall p, id :: p in ref.identity ==> !ActiveField(l, ref, p, meta, id)
  }

  // The same two states, told by the one fact each identity field can have.
  ghost predicate AllPresent(l: Ledger, ref: EntityRef, meta: string) {
    forall p :: p in ref.identity ==> exists id :: Active(l, id, IdentityFact(ref, p, meta))
  }

  ghost predicate NonePresent(l: Ledger, ref: EntityRef, meta: string) {
    forall p, id :: p in ref.identity ==> !Active(l, id, IdentityFact(ref, p, meta))
  }

  ghost predicate LedgerOk(l: Ledger, s: Schema) {
    && Valid(l)
    && (forall c :: c in l.claims && IsIdentityPred(s, c.fact.pred) ==> IsIdentityFact(s, c.fact))
    && (forall f :: IsIdentityFact(s, f) ==> AtMostOneActive(l, f))
    && (forall ref, meta :: Resolved(s, ref) ==> AllPresent(l, ref, meta) || NonePresent(l, ref, meta))
  }

  ghost predicate SetsFact(ops: seq<PlannedOp>, f: Fact) {
    exists o :: o in ops && o.SetOp? && o.fact == f
  }

  // Identity facts are written by set operations only, and always a whole bundle together.
  ghost predicate WriteOk(s: Schema, ops: seq<PlannedOp>) {
    forall op :: op in ops && !op.RetractOp? && IsIdentityPred(s, op.fact.pred) ==>
      && op.SetOp? && IsIdentityFact(s, op.fact)
      && forall p :: p in op.fact.entity.identity ==> SetsFact(ops, IdentityFact(op.fact.entity, p, op.fact.meta))
  }

  // A delete plan holds retractions only, and of every bundle all active claims or none of them.
  ghost predicate DeleteOk(l: Ledger, s: Schema, ops: seq<PlannedOp>) {
    && (forall op :: op in ops ==> op.RetractOp?)
    && (forall t :: t in Targets(ops) ==> t < l.nextId)
    && (forall ref, meta :: Resolved(s, ref) ==> Covers(l, ref, meta, Targets(ops)) || Spares(l, ref, meta, Targets(ops)))
  }

  ghost predicate Covers(l: Ledger, ref: EntityRef, meta: string, targets: set<AssertionId>) {
    forall p, id :: p in ref.identity && Active(l, id, IdentityFact(ref, p, meta)) ==> id in targets
  }

  ghost predicate Spares(l: Ledger, ref: EntityRef, meta: string, targets: set<AssertionId>) {
    forall p, id :: p in ref.identity && Active(l, id, IdentityFact(ref, p, meta)) ==> id !in targets
  }

  ghost predicate Inv(s: Schema, w: World) {
    && LedgerOk(w.ledger, s)
    && (forall i :: 0 <= i < |w.writes| ==> WriteOk(s, w.writes[i]))
    && (forall i :: 0 <= i < |w.deletes| ==> DeleteOk(w.ledger, s, w.deletes[i]))
  }

  // ---------- planning ----------

  lemma IdentityFactIs(s: Schema, ref: EntityRef, p: string, meta: string)
    requires Resolved(s, ref) && p in ref.identity
    ensures IsIdentityPred(s, p) && IsIdentityFact(s, IdentityFact(ref, p, meta))
  {
  }

  lemma MaterializationOk(s: Schema, ref: EntityRef, meta: string, valid: bool, materialized: set<EntityRef>)
    requires Resolved(s, ref)
    ensures WriteOk(s, MaterializationOps(s, ref, meta, valid, materialized))
  {
    var ops := MaterializationOps(s, ref, meta, valid, materialized);
    var preds := s.identityPreds[ref.entityType];
    if ref !in materialized {
      forall p | p in ref.identity
        ensures SetsFact(ops, IdentityFact(ref, p, meta))
      {
        var i :| 0 <= i < |preds| && preds[i] == p;
        assert ops[i].fact == IdentityFact(ref, p, meta);
      }
    }
  }

  lemma WriteOkConcat(s: Schema, a: seq<PlannedOp>, b: seq<PlannedOp>)
    requires WriteOk(s, a) && WriteOk(s, b)
    ensures WriteOk(s, a + b)
  {
    forall f | SetsFact(a, f) || SetsFact(b, f)
      ensures SetsFact(a + b, f)
    {
      var o :| (o in a || o in b) && o.SetOp? && o.fact == f;
      assert o in a + b;
    }
  }

  lemma {:induction false} DraftOk(l: Ledger, s: Schema, command: WriteCommand, ms: seq<Mutation>)
    requires PlanMutations(l, s, command, ms).Success?
    ensures var d := PlanMutations(l, s, command, ms).value; WriteOk(s, d.dependencyOps) && WriteOk(s, d.mutationOps)
  {
    if ms != [] {
      var before, m := ms[..|ms| - 1], ms[|ms| - 1];
      DraftOk(l, s, command, before);
      var d := PlanMutations(l, s, command, before).value;
      if m.change.Retract? {
        WriteOkConcat(s, d.mutationOps, [RetractOp(m.change.id, m.valid)]);
      } else {
        var fact := Fact(m.pred, command.target, m.change.value, m.meta);
        WriteOkConcat(s, d.mutationOps, [if m.change.multi then AddOp(fact, m.valid) else SetOp(fact, m.valid)]);
        if m.change.value.Reference? && !Visible(l, s, m.change.value.ref) {
          MaterializationOk(s, m.change.value.ref, m.meta, m.valid, d.materialized);
          WriteOkConcat(s, d.dependencyOps, MaterializationOps(s, m.change.value.ref, m.meta, m.valid, d.materialized));
        }
      }
    }
  }

  lemma PlanWriteOk(l: Ledger, s: Schema, command: WriteCommand)
    requires PlanWrite(l, s, command).Success?
    ensures WriteOk(s, PlanWrite(l, s, command).value)
  {
    DraftOk(l, s, command, command.mutations);
    var d := PlanMutations(l, s, command, command.mutations).value;
    if Visible(l, s, command.target) {
      WriteOkConcat(s, d.dependencyOps, d.mutationOps);
    } else {
      MaterializationOk(s, command.target, command.meta, command.metaValid, d.materialized);
      var bundle := MaterializationOps(s, command.target, command.meta, command.metaValid, d.materialized);
      WriteOkConcat(s, d.dependencyOps, bundle);
      WriteOkConcat(s, d.dependencyOps + bundle, d.mutationOps);
    }
  }

  lemma {:induction false} SelectedOk(s: Schema, writes: seq<seq<PlannedOp>>, indexes: seq<nat>)
    requires forall i :: 0 <= i < |writes| ==> WriteOk(s, writes[i])
    ensures WriteOk(s, SelectedOps(writes, indexes))
  {
    if indexes != [] {
      SelectedOk(s, writes, indexes[1..]);
      WriteOkConcat(s, if indexes[0] < |writes| then writes[indexes[0]] else [], SelectedOps(writes, indexes[1..]));
    }
  }

  lemma {:induction false} RetractAllTargets(claims: seq<Claim>, revoker: map<AssertionId, AssertionId>, ref: EntityRef, valid: bool)
    ensures forall op :: op in RetractAll(claims, revoker, ref, valid) ==> op.RetractOp?
    ensures forall t :: t in Targets(RetractAll(claims, revoker, ref, valid)) <==>
      exists c :: c in claims && c.id == t && c.fact.entity == ref && c.id !in revoker
  {
    if claims != [] {
      var c, rest := claims[0], RetractAll(claims[1..], revoker, ref, valid);
      RetractAllTargets(claims[1..], revoker, ref, valid);
      var mine := if c.fact.entity == ref && c.id !in revoker then [RetractOp(c.id, valid)] else [];
      assert RetractAll(claims, revoker, ref, valid) == mine + rest;
      assert Targets(mine + rest) == Targets(mine) + Targets(rest) by {
        assert forall o :: o in mine + rest <==> o in mine || o in rest;
      }
      assert forall x :: x in claims <==> x == c || x in claims[1..];
    }
  }

  lemma PlanDeleteOk(l: Ledger, s: Schema, target: EntityRef, metaValid: bool)
    requires Valid(l) && PlanDelete(l, s, target, metaValid).Success?
    ensures DeleteOk(l, s, PlanDelete(l, s, target, metaValid).value)
  {
    var ops := PlanDelete(l, s, target, metaValid).value;
    RetractAllTargets(l.claims, l.revoker, target, metaValid);
    forall ref, meta | Resolved(s, ref)
      ensures Covers(l, ref, meta, Targets(ops)) || Spares(l, ref, meta, Targets(ops))
    {
      if ref != target {
        forall p, id | p in ref.identity && Active(l, id, IdentityFact(ref, p, meta))
          ensures id !in Targets(ops)
        {
          assert Claim(id, IdentityFact(ref, p, meta)) in l.claims;
        }
      }
    }
  }

  // ---------- applying ----------

  lemma {:induction false} GuardHolds(l: Ledger, s: Schema, targets: set<AssertionId>, ops: seq<PlannedOp>)
    requires Resolve(l, s, true, targets, ops).Success?
    ensures forall t :: t in Resolve(l, s, true, targets, ops).value.revocations ==> GuardCode(l, s, t).None?
  {
    if ops != [] {
      GuardHolds(l, s, targets, ops[..|ops| - 1]);
    }
  }

  /** A guarded batch never revokes an active identity claim. */
  lemma GuardedSparesIdentity(l: Ledger, s: Schema, ops: seq<PlannedOp>, id: AssertionId, f: Fact)
    requires Valid(l) && CommitBatch(l, s, true, ops).Success?
    requires IsIdentityPred(s, f.pred) && Active(l, id, f)
    ensures id !in Targets(ops)
    ensures Active(CommitBatch(l, s, true, ops).value.ledger, id, f)
  {
    GuardHolds(l, s, Targets(ops), ops);
    KeptRevocations(l, s, true, ops, id);
    assert GuardCode(l, s, id).Some?;
    BatchActive(l, s, true, ops);
  }

  lemma SetFactPresent(l: Ledger, s: Schema, guarded: bool, ops: seq<PlannedOp>, f: Fact)
    requires Valid(l) && CommitBatch(l, s, guarded, ops).Success?
    requires SetsFact(ops, f)
    ensures exists id :: Active(CommitBatch(l, s, guarded, ops).value.ledger, id, f)
  {
    var o :| o in ops && o.SetOp? && o.fact == f;
    var i :| 0 <= i < |ops| && ops[i] == o;
    BatchReports(l, s, guarded, ops, i);
  }

  lemma WritesKeepBundle(l: Ledger, s: Schema, ops: seq<PlannedOp>, ref: EntityRef, meta: string)
    requires LedgerOk(l, s) && WriteOk(s, ops) && CommitBatch(l, s, true, ops).Success?
    requires Resolved(s, ref)
    ensures var l' := CommitBatch(l, s, true, ops).value.ledger;
      AllPresent(l', ref, meta) || NonePresent(l', ref, meta)
  {
    var l' := CommitBatch(l, s, true, ops).value.ledger;
    if AllPresent(l, ref, meta) {
      forall p | p in ref.identity
        ensures exists id :: Active(l', id, IdentityFact(ref, p, meta))
      {
        var id :| Active(l, id, IdentityFact(ref, p, meta));
        GuardedSparesIdentity(l, s, ops, id, IdentityFact(ref, p, meta));
      }
    } else if !NonePresent(l', ref, meta) {
      var q, id :| q in ref.identity && Active(l', id, IdentityFact(ref, q, meta));
      NewIdentityMeansBundle(l, s, ops, ref, q, meta, id);
      forall p | p in ref.identity
        ensures exists id :: Active(l', id, IdentityFact(ref, p, meta))
      {
        SetFactPresent(l, s, true, ops, IdentityFact(ref, p, meta));
      }
    }
  }

  lemma NewIdentityMeansBundle(l: Ledger, s: Schema, ops: seq<PlannedOp>, ref: EntityRef, q: string, meta: string, id: AssertionId)
    requires LedgerOk(l, s) && WriteOk(s, ops) && CommitBatch(l, s, true, ops).Success?
    requires Resolved(s, ref) && q in ref.identity && NonePresent(l, ref, meta)
    requires Active(CommitBatch(l, s, true, ops).value.ledger, id, IdentityFact(ref, q, meta))
    ensures l.nextId <= id
    ensures forall p :: p in ref.identity ==> SetsFact(ops, IdentityFact(ref, p, meta))
  {
    var f := IdentityFact(ref, q, meta);
    BatchActive(l, s, true, ops);
    NewClaimAsked(l, s, true, ops, Claim(id, f));
    IdentityFactIs(s, ref, q, meta);
  }

  // Identity claims stay well-formed and unique under any batch whose identity operations are.
  lemma BatchKeepsIdentityFacts(l: Ledger, s: Schema, guarded: bool, ops: seq<PlannedOp>)
    requires LedgerOk(l, s) && WriteOk(s, ops) && CommitBatch(l, s, guarded, ops).Success?
    ensures var l' := CommitBatch(l, s, guarded, ops).value.ledger;
      && Valid(l')
      && (forall c :: c in l'.claims && IsIdentityPred(s, c.fact.pred) ==> IsIdentityFact(s, c.fact))
      && (forall f :: IsIdentityFact(s, f) ==> AtMostOneActive(l', f))
  {
    var l' := CommitBatch(l, s, guarded, ops).value.ledger;
    BatchActive(l, s, guarded, ops);
    forall c | c in l'.claims && IsIdentityPred(s, c.fact.pred)
      ensures IsIdentityFact(s, c.fact)
    {
      if c !in l.claims {
        assert c in l'.claims[|l.claims|..];
        NewClaimAsked(l, s, guarded, ops, c);
      }
    }
    forall f | IsIdentityFact(s, f)
      ensures AtMostOneActive(l', f)
    {
      IdentityFactIs(s, f.entity, f.pred, f.meta);
      BatchKeepsUnique(l, s, guarded, ops, f);
    }
  }

  lemma WritesKeepLedger(l: Ledger, s: Schema, ops: seq<PlannedOp>)
    requires LedgerOk(l, s) && WriteOk(s, ops) && CommitBatch(l, s, true, ops).Success?
    ensures LedgerOk(CommitBatch(l, s, true, ops).value.ledger, s)
  {
    BatchKeepsIdentityFacts(l, s, true, ops);
    forall ref, meta | Resolved(s, ref)
      ensures var l' := CommitBatch(l, s, true, ops).value.ledger;
        AllPresent(l', ref, meta) || NonePresent(l', ref, meta)
    {
      WritesKeepBundle(l, s, ops, ref, meta);
    }
  }

  /** A delete plan made earlier still covers or spares every bundle after a batch of writes. */
  lemma WritesKeepDelete(l: Ledger, s: Schema, ops: seq<PlannedOp>, deletes: seq<PlannedOp>)
    requires LedgerOk(l, s) && WriteOk(s, ops) && CommitBatch(l, s, true, ops).Success?
    requires DeleteOk(l, s, deletes)
    ensures DeleteOk(CommitBatch(l, s, true, ops).value.ledger, s, deletes)
  {
    var l' := CommitBatch(l, s, true, ops).value.ledger;
    BatchPieces(l, s, true, ops);
    BatchKeepsIdentityFacts(l, s, true, ops);
    forall ref, meta | Resolved(s, ref)
      ensures Covers(l', ref, meta, Targets(deletes)) || Spares(l', ref, meta, Targets(deletes))
    {
      if AllPresent(l, ref, meta) {
        forall p, id | p in ref.identity && Active(l', id, IdentityFact(ref, p, meta))
          ensures Active(l, id, IdentityFact(ref, p, meta))
        {
          var earlier :| Active(l, earlier, IdentityFact(ref, p, meta));
          IdentityFactIs(s, ref, p, meta);
          GuardedSparesIdentity(l, s, ops, earlier, IdentityFact(ref, p, meta));
          assert AtMostOneActive(l', IdentityFact(ref, p, meta));
        }
        if Covers(l, ref, meta, Targets(deletes)) {
          assert Covers(l', ref, meta, Targets(deletes));
        } else {
          assert Spares(l', ref, meta, Targets(deletes));
        }
      } else {
        forall p, id | p in ref.identity && Active(l', id, IdentityFact(ref, p, meta))
          ensures id !in Targets(deletes)
        {
          NewIdentityMeansBundle(l, s, ops, ref, p, meta, id);
        }
      }
    }
  }

  // Removing exactly the active claims among `targets`.
  ghost predicate Removes(l: Ledger, l': Ledger, targets: set<AssertionId>) {
    forall id, f :: Active(l', id, f) <==> Active(l, id, f) && id !in targets
  }

  lemma RemovalKeepsBundle(l: Ledger, l': Ledger, targets: set<AssertionId>, ref: EntityRef, meta: string)
    requires Removes(l, l', targets)
    requires AllPresent(l, ref, meta) || NonePresent(l, ref, meta)
    requires Covers(l, ref, meta, targets) || Spares(l, ref, meta, targets)
    ensures AllPresent(l', ref, meta) || NonePresent(l', ref, meta)
  {
    if Spares(l, ref, meta, targets) && AllPresent(l, ref, meta) {
      forall p | p in ref.identity
        ensures exists id :: Active(l', id, IdentityFact(ref, p, meta))
      {
        var id :| Active(l, id, IdentityFact(ref, p, meta));
        assert Active(l', id, IdentityFact(ref, p, meta));
      }
    }
  }

  lemma RemovalKeepsCover(l: Ledger, l': Ledger, removed: set<AssertionId>, targets: set<AssertionId>, ref: EntityRef, meta: string)
    requires Removes(l, l', removed)
    requires Covers(l, ref, meta, targets) || Spares(l, ref, meta, targets)
    ensures Covers(l', ref, meta, targets) || Spares(l', ref, meta, targets)
  {
    if Covers(l, ref, meta, targets) {
      assert Covers(l', ref, meta, targets);
    } else {
      assert Spares(l', ref, meta, targets);
    }
  }

  /** Applying a delete plan removes whole bundles and leaves other delete plans in order. */
  lemma DeleteKeeps(l: Ledger, s: Schema, ops: seq<PlannedOp>, deletes: seq<PlannedOp>)
    requires LedgerOk(l, s) && DeleteOk(l, s, ops) && CommitBatch(l, s, false, ops).Success?
    requires DeleteOk(l, s, deletes)
    ensures LedgerOk(CommitBatch(l, s, false, ops).value.ledger, s)
    ensures DeleteOk(CommitBatch(l, s, false, ops).value.ledger, s, deletes)
  {
    var l' := CommitBatch(l, s, false, ops).value.ledger;
    BatchKeepsIdentityFacts(l, s, false, ops);
    DeleteOnlyRemoves(l, s, ops);
    forall ref, meta | Resolved(s, ref)
      ensures AllPresent(l', ref, meta) || NonePresent(l', ref, meta)
      ensures Covers(l', ref, meta, Targets(deletes)) || Spares(l', ref, meta, Targets(deletes))
    {
      RemovalKeepsBundle(l, l', Targets(ops), ref, meta);
      RemovalKeepsCover(l, l', Targets(ops), Targets(deletes), ref, meta);
    }
  }

  lemma DeleteOnlyRemoves(l: Ledger, s: Schema, ops: seq<PlannedOp>)
    requires Valid(l) && CommitBatch(l, s, false, ops).Success?
    requires forall op :: op in ops ==> op.RetractOp?
    ensures Removes(l, CommitBatch(l, s, false, ops).value.ledger, Targets(ops))
    ensures l.nextId <= CommitBatch(l, s, false, ops).value.ledger.nextId
  {
    var l' := CommitBatch(l, s, false, ops).value.ledger;
    BatchActive(l, s, false, ops);
    forall c | c in l'.claims[|l.claims|..]
      ensures false
    {
      NewClaimAsked(l, s, false, ops, c);
    }
  }

  // ---------- runs ----------

  lemma NextKeepsInv(s: Schema, w: World, e: Event)
    requires Inv(s, w)
    ensures Inv(s, Next(s, w, e))
  {
    match e
    case CreatePlanned(target, meta, metaValid) =>
      if PlanCreate(w.ledger, s, target, meta, metaValid).Success? {
        MaterializationOk(s, target, meta, metaValid, {});
      }
    case WritePlanned(command) =>
      if PlanWrite(w.ledger, s, command).Success? {
        PlanWriteOk(w.ledger, s, command);
      }
    case DeletePlanned(target, metaValid) =>
      if PlanDelete(w.ledger, s, target, metaValid).Success? {
        PlanDeleteOk(w.ledger, s, target, metaValid);
      }
    case WritesApplied(indexes) =>
      var ops := SelectedOps(w.writes, indexes);
      if CommitBatch(w.ledger, s, true, ops).Success? {
        SelectedOk(s, w.writes, indexes);
        WritesKeepLedger(w.ledger, s, ops);
        forall i | 0 <= i < |w.deletes|
          ensures DeleteOk(CommitBatch(w.ledger, s, true, ops).value.ledger, s, w.deletes[i])
        {
          WritesKeepDelete(w.ledger, s, ops, w.deletes[i]);
        }
      }
    case DeleteApplied(index) =>
      if index < |w.deletes| && CommitBatch(w.ledger, s, false, w.deletes[index]).Success? {
        forall i | 0 <= i < |w.deletes|
          ensures LedgerOk(Next(s, w, e).ledger, s) && DeleteOk(Next(s, w, e).ledger, s, w.deletes[i])
        {
          DeleteKeeps(w.ledger, s, w.deletes[index], w.deletes[i]);
        }
      }
  }

  lemma {:induction false} RunKeepsInv(s: Schema, w: World, events: seq<Event>)
    requires Inv(s, w)
    ensures Inv(s, Run(s, w, events))
  {
    if events != [] {
      RunKeepsInv(s, w, events[..|events| - 1]);
      NextKeepsInv(s, Run(s, w, events[..|events| - 1]), events[|events| - 1]);
    }
  }

  lemma LedgerOkMeansWhole(l: Ledger, s: Schema, ref: EntityRef, meta: string)
    requires LedgerOk(l, s) && Resolved(s, ref)
    ensures Complete(l, ref, meta) || Absent(l, ref, meta)
  {
    forall p, id | p in ref.identity && ActiveField(l, ref, p, meta, id)
      ensures Active(l, id, IdentityFact(ref, p, meta))
    {
      var value :| Active(l, id, Fact(p, ref, value, meta));
      IdentityFactIs(s, ref, p, meta);
      assert IsIdentityFact(s, Claim(id, Fact(p, ref, value, meta)).fact);
    }
    if AllPresent(l, ref, meta) {
      forall p | p in ref.identity
        ensures exists id :: ActiveField(l, ref, p, meta, id) && forall other :: ActiveField(l, ref, p, meta, other) ==> other == id
      {
        var id :| Active(l, id, IdentityFact(ref, p, meta));
        IdentityFactIs(s, ref, p, meta);
        assert ActiveField(l, ref, p, meta, id);
      }
    }
  }

  /** The main result: from an empty database, every run keeps every identity bundle whole. */
  lemma BundlesStayWhole(s: Schema, events: seq<Event>, ref: EntityRef, meta: string)
    requires Resolved(s, ref)
    ensures var l := Run(s, World(Ledger([], map[], 0), [], []), events).ledger;
      Complete(l, ref, meta) || Absent(l, ref, meta)
  {
    var start := World(Ledger([], map[], 0), [], []);
    assert forall id, f :: !Active(start.ledger, id, f);
    assert forall ref, meta :: NonePresent(start.ledger, ref, meta);
    RunKeepsInv(s, start, events);
    LedgerOkMeansWhole(Run(s, start, events).ledger, s, ref, meta);
  }

  /** Only a whole-entity delete ever revokes an identity claim. */
  lemma OnlyDeleteRevokesIdentity(s: Schema, w: World, e: Event, id: AssertionId, f: Fact)
    requires Inv(s, w) && IsIdentityPred(s, f.pred)
    requires Active(w.ledger, id, f) && !Active(Next(s, w, e).ledger, id, f)
    ensures e.DeleteApplied?
    ensures forall p, other, ref, meta :: ref == f.entity && meta == f.meta && p in ref.identity ==>
      !ActiveField(Next(s, w, e).ledger, ref, p, meta, other)
  {
    if e.WritesApplied? {
      GuardedSparesIdentity(w.ledger, s, SelectedOps(w.writes, e.indexes), id, f);
    }
    NextKeepsInv(s, w, e);
    var l' := Next(s, w, e).ledger;
    LedgerOkMeansWhole(l', s, f.entity, f.meta);
    if Complete(l', f.entity, f.meta) {
      DeletedBundleGone(s, w, e, id, f);
    }
  }

  lemma DeletedBundleGone(s: Schema, w: World, e: Event, id: AssertionId, f: Fact)
    requires Inv(s, w) && IsIdentityPred(s, f.pred) && e.DeleteApplied?
    requires Active(w.ledger, id, f) && !Active(Next(s, w, e).ledger, id, f)
    ensures !Complete(Next(s, w, e).ledger, f.entity, f.meta)
  {
    var l', ops := Next(s, w, e).ledger, w.deletes[e.index];
    DeleteOnlyRemoves(w.ledger, s, ops);
    assert IsIdentityFact(s, Claim(id, f).fact);
    assert AtMostOneActive(w.ledger, f);
    forall other, value | Active(w.ledger, other, Fact(f.pred, f.entity, value, f.meta))
      ensures other == id
    {
      assert IsIdentityFact(s, Claim(other, Fact(f.pred, f.entity, value, f.meta)).fact);
    }
    assert forall other :: !ActiveField(l', f.entity, f.pred, f.meta, other);
  }
}
