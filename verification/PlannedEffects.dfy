/** From a command to the ledger: what is active and what is revoked once a planned write is committed. */
module PlannedEffects {
  import opened Wrappers
  import opened Ledgers
  import opened BatchCommit
  import opened BatchProperties
  import opened BatchSuccess
  import opened Planner
  import opened PlanContents

  // ---------- what a write asks for ----------

  ghost predicate Assigns(command: WriteCommand, i: nat, f: Fact)
    requires i < |command.mutations|
  {
    var m := command.mutations[i];
    m.change.Assign? && f == Fact(m.pred, command.target, m.change.value, m.meta)
  }

  ghost predicate Identifies(ref: EntityRef, meta: string, f: Fact) {
    f.pred in ref.identity && f == Fact(f.pred, ref, Scalar(ref.identity[f.pred]), meta)
  }

  // The missing target is made by the command itself, not as the dependency of a mutation.
  ghost predicate MakesTarget(l: Ledger, s: Schema, command: WriteCommand) {
    !Seen(l, s, command.target) && !RequestedBefore(l, s, command.mutations, |command.mutations|, command.target)
  }

  // Mutation i is the first to refer to the missing entity.
  ghost predicate MakesReference(l: Ledger, s: Schema, command: WriteCommand, i: nat, ref: EntityRef)
    requires i < |command.mutations|
  {
    Requests(l, s, command.mutations[i], ref) && !RequestedBefore(l, s, command.mutations, i, ref)
  }

  ghost predicate MakesFact(l: Ledger, s: Schema, command: WriteCommand, i: nat, f: Fact)
    requires i < |command.mutations|
  {
    MakesReference(l, s, command, i, f.entity) && Identifies(f.entity, command.mutations[i].meta, f)
  }

  // A fact that the write asks for.
  ghost predicate Writes(l: Ledger, s: Schema, command: WriteCommand, f: Fact) {
    || (exists i: nat :: i < |command.mutations| && Assigns(command, i, f))
    || (exists i: nat :: i < |command.mutations| && MakesFact(l, s, command, i, f))
    || (MakesTarget(l, s, command) && Identifies(command.target, command.meta, f))
  }

  ghost predicate Withdraws(command: WriteCommand, id: AssertionId) {
    exists i :: 0 <= i < |command.mutations| && command.mutations[i].change == Retract(id)
  }

  // ---------- and what its plan asks for ----------

  ghost predicate AsksFor(ops: seq<PlannedOp>, f: Fact) {
    exists k :: 0 <= k < |ops| && !ops[k].RetractOp? && ops[k].fact == f
  }

  ghost predicate TakesBack(ops: seq<PlannedOp>, id: AssertionId) {
    exists k :: 0 <= k < |ops| && ops[k].RetractOp? && ops[k].target == id
  }

  lemma AsksForEither(a: seq<PlannedOp>, b: seq<PlannedOp>, f: Fact)
    ensures AsksFor(a + b, f) <==> AsksFor(a, f) || AsksFor(b, f)
  {
    if k :| 0 <= k < |a| && !a[k].RetractOp? && a[k].fact == f {
      assert (a + b)[k] == a[k];
    }
    if k :| 0 <= k < |b| && !b[k].RetractOp? && b[k].fact == f {
      assert (a + b)[|a| + k] == b[k];
    }
  }

  lemma TakesBackEither(a: seq<PlannedOp>, b: seq<PlannedOp>, id: AssertionId)
    ensures TakesBack(a + b, id) <==> TakesBack(a, id) || TakesBack(b, id)
  {
    if k :| 0 <= k < |a| && a[k].RetractOp? && a[k].target == id {
      assert (a + b)[k] == a[k];
    }
    if k :| 0 <= k < |b| && b[k].RetractOp? && b[k].target == id {
      assert (a + b)[|a| + k] == b[k];
    }
  }

  lemma BundleAsks(s: Schema, ref: EntityRef, meta: string, valid: bool, ops: seq<PlannedOp>, f: Fact)
    requires IsBundle(s, ref, meta, valid, ops)
    ensures AsksFor(ops, f) <==> Identifies(ref, meta, f)
    ensures forall id :: !TakesBack(ops, id)
  {
    var preds := s.identityPreds[ref.entityType];
    assert forall k :: 0 <= k < |ops| ==> IsIdentityOp(s, ref, meta, valid, ops[k], preds[k]);
    if Identifies(ref, meta, f) {
      var k :| 0 <= k < |preds| && preds[k] == f.pred;
      assert ops[k].fact == f;
    }
  }

  lemma ChangesAsk(command: WriteCommand, changes: seq<PlannedOp>, f: Fact)
    requires CarriesAll(command.target, command.mutations, changes)
    ensures AsksFor(changes, f) <==> exists i: nat :: i < |command.mutations| && Assigns(command, i, f)
  {
    assert forall i: nat :: i < |changes| ==> Carries(command.target, command.mutations[i], changes[i]);
    if i: nat :| i < |command.mutations| && Assigns(command, i, f) {
      assert !changes[i].RetractOp? && changes[i].fact == f;
    }
    if i :| 0 <= i < |changes| && !changes[i].RetractOp? && changes[i].fact == f {
      assert Assigns(command, i, f);
    }
  }

  lemma ChangesTake(command: WriteCommand, changes: seq<PlannedOp>, id: AssertionId)
    requires CarriesAll(command.target, command.mutations, changes)
    ensures TakesBack(changes, id) <==> Withdraws(command, id)
  {
    assert forall i: nat :: i < |changes| ==> Carries(command.target, command.mutations[i], changes[i]);
    if i :| 0 <= i < |command.mutations| && command.mutations[i].change == Retract(id) {
      assert changes[i].RetractOp? && changes[i].target == id;
    }
  }

  lemma BlockAsks(l: Ledger, s: Schema, command: WriteCommand, k: nat, block: seq<PlannedOp>, f: Fact)
    requires k < |command.mutations| && IsBlockAt(l, s, command.mutations, k, block)
    ensures AsksFor(block, f) <==> MakesFact(l, s, command, k, f)
    ensures forall id :: !TakesBack(block, id)
  {
    var m := command.mutations[k];
    if m.change.Assign? && m.change.value.Reference? && !Seen(l, s, m.change.value.ref)
       && !RequestedBefore(l, s, command.mutations, k, m.change.value.ref) {
      BundleAsks(s, m.change.value.ref, m.meta, m.valid, block, f);
    }
  }

  lemma {:induction false} BlocksAsk(l: Ledger, s: Schema, command: WriteCommand, blocks: seq<seq<PlannedOp>>, f: Fact)
    requires |blocks| <= |command.mutations|
    requires forall k :: 0 <= k < |blocks| ==> IsBlockAt(l, s, command.mutations, k, blocks[k])
    ensures AsksFor(Concat(blocks), f) <==> exists k: nat :: k < |blocks| && MakesFact(l, s, command, k, f)
    ensures forall id :: !TakesBack(Concat(blocks), id)
  {
    if blocks != [] {
      var front, last := blocks[..|blocks| - 1], blocks[|blocks| - 1];
      BlocksAsk(l, s, command, front, f);
      BlockAsks(l, s, command, |front|, last, f);
      AsksForEither(Concat(front), last, f);
      forall id
        ensures !TakesBack(Concat(blocks), id)
      {
        TakesBackEither(Concat(front), last, id);
      }
    }
  }

  lemma OwnAsks(l: Ledger, s: Schema, command: WriteCommand, plan: seq<PlannedOp>, blocks: seq<seq<PlannedOp>>,
                own: seq<PlannedOp>, changes: seq<PlannedOp>, f: Fact)
    requires WriteParts(l, s, command, plan, blocks, own, changes)
    ensures AsksFor(own, f) <==> MakesTarget(l, s, command) && Identifies(command.target, command.meta, f)
    ensures forall id :: !TakesBack(own, id)
  {
    if MakesTarget(l, s, command) {
      BundleAsks(s, command.target, command.meta, command.metaValid, own, f);
    }
  }

  lemma PartsAsk(l: Ledger, s: Schema, command: WriteCommand, plan: seq<PlannedOp>, blocks: seq<seq<PlannedOp>>,
                 own: seq<PlannedOp>, changes: seq<PlannedOp>, f: Fact)
    requires WriteParts(l, s, command, plan, blocks, own, changes)
    ensures AsksFor(plan, f) <==> Writes(l, s, command, f)
  {
    BlocksAsk(l, s, command, blocks, f);
    OwnAsks(l, s, command, plan, blocks, own, changes, f);
    ChangesAsk(command, changes, f);
    AsksForEither(Concat(blocks), own, f);
    AsksForEither(Concat(blocks) + own, changes, f);
  }

  lemma PartsTake(l: Ledger, s: Schema, command: WriteCommand, plan: seq<PlannedOp>, blocks: seq<seq<PlannedOp>>,
                  own: seq<PlannedOp>, changes: seq<PlannedOp>, id: AssertionId, f: Fact)
    requires WriteParts(l, s, command, plan, blocks, own, changes)
    ensures TakesBack(plan, id) <==> Withdraws(command, id)
  {
    BlocksAsk(l, s, command, blocks, f);
    OwnAsks(l, s, command, plan, blocks, own, changes, f);
    ChangesTake(command, changes, id);
    TakesBackEither(Concat(blocks), own, id);
    TakesBackEither(Concat(blocks) + own, changes, id);
  }

  /** A plan asks for exactly the facts its command writes, and takes back exactly the ids it retracts. */
  lemma PlanAsks(l: Ledger, s: Schema, command: WriteCommand, f: Fact, id: AssertionId)
    requires PlanWrite(l, s, command).Success?
    ensures var plan := PlanWrite(l, s, command).value;
      && (AsksFor(plan, f) <==> Writes(l, s, command, f))
      && (TakesBack(plan, id) <==> Withdraws(command, id))
  {
    WritePlanned(l, s, command);
    var plan := PlanWrite(l, s, command).value;
    var blocks, own, changes :| WriteParts(l, s, command, plan, blocks, own, changes);
    PartsAsk(l, s, command, plan, blocks, own, changes, f);
    PartsTake(l, s, command, plan, blocks, own, changes, id, f);
  }

  // ---------- after the commit ----------

  lemma AskedMeans(ops: seq<PlannedOp>, f: Fact)
    ensures BatchProperties.Asked(ops, f) <==> AsksFor(ops, f)
  {
    if op :| op in ops && !op.RetractOp? && op.fact == f {
      var k :| 0 <= k < |ops| && ops[k] == op;
    }
    if k :| 0 <= k < |ops| && !ops[k].RetractOp? && ops[k].fact == f {
      assert ops[k] in ops;
    }
  }

  lemma TargetsAre(ops: seq<PlannedOp>, id: AssertionId)
    ensures id in Targets(ops) <==> TakesBack(ops, id)
  {
    if k :| 0 <= k < |ops| && ops[k].RetractOp? && ops[k].target == id {
      assert ops[k] in ops;
    }
    if id in Targets(ops) {
      var op :| op in ops && op.RetractOp? && op.target == id;
      var k :| 0 <= k < |ops| && ops[k] == op;
    }
  }

  lemma AskedIsActive(l: Ledger, s: Schema, guarded: bool, ops: seq<PlannedOp>, f: Fact)
    requires Valid(l) && CommitBatch(l, s, guarded, ops).Success? && AsksFor(ops, f)
    ensures exists id :: Active(CommitBatch(l, s, guarded, ops).value.ledger, id, f)
  {
    var k :| 0 <= k < |ops| && !ops[k].RetractOp? && ops[k].fact == f;
    BatchReports(l, s, guarded, ops, k);
  }

  // The ledger after a batch that asked for these facts and took these ids back.
  ghost predicate Changed(before: Ledger, after: Ledger, ops: seq<PlannedOp>) {
    && (forall f :: AsksFor(ops, f) ==> exists id :: Active(after, id, f))
    && (forall t :: t in after.revoker <==> t in before.revoker || TakesBack(ops, t))
    && before.claims <= after.claims
    && (forall c :: c in after.claims[|before.claims|..] ==> before.nextId <= c.id && AsksFor(ops, c.fact))
    && (forall id, f :: Active(after, id, f) <==>
          (Active(before, id, f) && !TakesBack(ops, id)) || Claim(id, f) in after.claims[|before.claims|..])
  }

  lemma BatchChanges(l: Ledger, s: Schema, guarded: bool, ops: seq<PlannedOp>)
    requires Valid(l) && CommitBatch(l, s, guarded, ops).Success?
    ensures Changed(l, CommitBatch(l, s, guarded, ops).value.ledger, ops)
  {
    BatchActive(l, s, guarded, ops);
    forall f
      ensures BatchProperties.Asked(ops, f) <==> AsksFor(ops, f)
      ensures AsksFor(ops, f) ==> exists id :: Active(CommitBatch(l, s, guarded, ops).value.ledger, id, f)
    {
      AskedMeans(ops, f);
      if AsksFor(ops, f) {
        AskedIsActive(l, s, guarded, ops, f);
      }
    }
    forall t: AssertionId
      ensures t in Targets(ops) <==> TakesBack(ops, t)
    {
      TargetsAre(ops, t);
    }
  }

  lemma AsksExactly(l: Ledger, s: Schema, command: WriteCommand, ops: seq<PlannedOp>)
    requires PlanWrite(l, s, command) == Success(ops)
    ensures (forall f :: AsksFor(ops, f) <==> Writes(l, s, command, f)) && forall t :: TakesBack(ops, t) <==> Withdraws(command, t)
  {
    var any := Fact("", command.target, Scalar(""), "");
    forall f
      ensures AsksFor(ops, f) <==> Writes(l, s, command, f)
    {
      PlanAsks(l, s, command, f, 0);
    }
    forall t
      ensures TakesBack(ops, t) <==> Withdraws(command, t)
    {
      PlanAsks(l, s, command, any, t);
    }
  }

  /**
   However late a write plan is committed, every fact its command writes is then active, every id it
   retracts is revoked, and no other fact is asserted and no other id revoked.
   */
  lemma WriteTakesEffect(l: Ledger, s: Schema, command: WriteCommand, later: Ledger, guarded: bool)
    requires PlanWrite(l, s, command).Success? && Valid(later)
    requires CommitBatch(later, s, guarded, PlanWrite(l, s, command).value).Success?
    ensures var after := CommitBatch(later, s, guarded, PlanWrite(l, s, command).value).value.ledger;
      && (forall f :: Writes(l, s, command, f) ==> exists id :: Active(after, id, f))
      && (forall t :: t in after.revoker <==> t in later.revoker || Withdraws(command, t))
      && later.claims <= after.claims
      && (forall c :: c in after.claims[|later.claims|..] ==> later.nextId <= c.id && Writes(l, s, command, c.fact))
      && (forall id, f :: Active(after, id, f) <==>
            (Active(later, id, f) && !Withdraws(command, id)) || Claim(id, f) in after.claims[|later.claims|..])
  {
    var plan := PlanWrite(l, s, command).value;
    BatchChanges(later, s, guarded, plan);
    AsksExactly(l, s, command, plan);
  }

  // ---------- when the commit succeeds ----------

  // No exists predicate is a field, and no field or identity predicate is in the system namespace.
  ghost predicate OrdinaryFields(s: Schema) {
    && (forall p :: p in s.fieldOwner ==> p !in s.existsPreds && !("__system__." <= p))
    && forall p :: IdentityField(s, p) ==> !("__system__." <= p)
  }

  lemma AcceptedRetraction(l: Ledger, s: Schema, command: WriteCommand, m: Mutation)
    requires Valid(l) && OrdinaryFields(s) && Accepted(l, s, command, m) && m.change.Retract?
    ensures IsClaim(l, m.change.id) && !BatchSuccess.Protected(l, s, m.change.id)
  {
    var id := m.change.id;
    var i :| 0 <= i < |l.claims| && l.claims[i].id == id;
    var f := l.claims[i].fact;
    assert l.claims[i] == Claim(id, f) && f.pred == m.pred;
    OneClaim(l, id, f);
    assert Known(l, id);
    assert !IdentityField(s, f.pred);
  }

  lemma PlannedAccepts(l: Ledger, s: Schema, command: WriteCommand)
    requires PlanWrite(l, s, command).Success?
    ensures Identified(s, command.target) && AllAccepted(l, s, command, command.mutations)
  {
    WritePlanned(l, s, command);
  }

  lemma WritesOrdinary(l: Ledger, s: Schema, command: WriteCommand, f: Fact)
    requires OrdinaryFields(s) && PlanWrite(l, s, command).Success? && Writes(l, s, command, f)
    ensures !("__system__." <= f.pred)
  {
    PlannedAccepts(l, s, command);
    if i: nat :| i < |command.mutations| && Assigns(command, i, f) {
      assert Accepted(l, s, command, command.mutations[i]);
    } else if i: nat :| i < |command.mutations| && MakesFact(l, s, command, i, f) {
      assert Accepted(l, s, command, command.mutations[i]);
      IdentifiesField(s, f.entity, f.pred);
    } else {
      IdentifiesField(s, command.target, f.pred);
    }
  }

  lemma IdentifiesField(s: Schema, ref: EntityRef, pred: string)
    requires Identified(s, ref) && pred in ref.identity
    ensures IdentityField(s, pred)
  {
    var preds := s.identityPreds[ref.entityType];
    assert pred in preds;
    var i :| 0 <= i < |preds| && preds[i] == pred;
    assert s.identityPreds[ref.entityType][i] == pred;
  }

  lemma PlanRetracts(l: Ledger, s: Schema, command: WriteCommand, t: AssertionId)
    requires Valid(l) && OrdinaryFields(s) && PlanWrite(l, s, command).Success?
    requires Retracts(l, PlanWrite(l, s, command).value, t)
    ensures IsClaim(l, t) && !BatchSuccess.Protected(l, s, t)
  {
    var plan := PlanWrite(l, s, command).value;
    assert TakesBack(plan, t);
    PlanAsks(l, s, command, Fact("", command.target, Scalar(""), ""), t);
    var i :| 0 <= i < |command.mutations| && command.mutations[i].change == Retract(t);
    PlannedAccepts(l, s, command);
    AcceptedRetraction(l, s, command, command.mutations[i]);
  }

  lemma PlanAsserts(l: Ledger, s: Schema, command: WriteCommand, f: Fact)
    requires OrdinaryFields(s) && PlanWrite(l, s, command).Success?
    requires BatchSuccess.Asserts(l, PlanWrite(l, s, command).value, f)
    ensures !("__system__." <= f.pred)
  {
    var plan := PlanWrite(l, s, command).value;
    assert AsksFor(plan, f);
    PlanAsks(l, s, command, f, 0);
    WritesOrdinary(l, s, command, f);
  }

  /** On the ledger it was planned for, a write plan is committed exactly if its values and metadata are valid. */
  lemma PlannedWriteCommits(l: Ledger, s: Schema, command: WriteCommand)
    requires Valid(l) && OrdinaryFields(s) && PlanWrite(l, s, command).Success?
    ensures CommitBatch(l, s, true, PlanWrite(l, s, command).value).Success? <==> AllValid(PlanWrite(l, s, command).value)
  {
    var plan := PlanWrite(l, s, command).value;
    BatchSucceeds(l, s, true, plan);
    forall t: AssertionId | Retracts(l, plan, t)
      ensures IsClaim(l, t) && !BatchSuccess.Protected(l, s, t)
    {
      PlanRetracts(l, s, command, t);
    }
    forall f | BatchSuccess.Asserts(l, plan, f)
      ensures !("__system__." <= f.pred)
    {
      PlanAsserts(l, s, command, f);
    }
  }
}
