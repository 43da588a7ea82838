/** What a plan holds, when planning succeeds, and what the ledger holds once the plan is committed. */
module PlanContents {
  import opened Wrappers
  import opened Ledgers
  import opened BatchCommit
  import opened BatchSuccess
  import opened Planner
  import opened Positions

  // ---------- the words of the statements ----------

  // The reference has a value for every identity predicate of its type, and for no other.
  ghost predicate Identified(s: Schema, ref: EntityRef) {
    && ref.entityType in s.identityPreds
    && forall p :: p in ref.identity <==> p in s.identityPreds[ref.entityType]
  }

  // Some claim of the entity, in a field its type owns, is not revoked.
  ghost predicate Seen(l: Ledger, s: Schema, ref: EntityRef) {
    exists i :: 0 <= i < |l.claims| && SeenBy(l, s, ref, i)
  }

  ghost predicate SeenBy(l: Ledger, s: Schema, ref: EntityRef, i: nat)
    requires i < |l.claims|
  {
    var c := l.claims[i];
    && c.id !in l.revoker && c.fact.entity == ref
    && c.fact.pred in s.fieldOwner && s.fieldOwner[c.fact.pred] == ref.entityType
  }

  lemma VisibleMeans(l: Ledger, s: Schema, ref: EntityRef)
    ensures Visible(l, s, ref) <==> Seen(l, s, ref)
  {
    if Visible(l, s, ref) {
      var c :| c in l.claims && c.id !in l.revoker && c.fact.entity == ref
               && c.fact.pred in s.fieldOwner && s.fieldOwner[c.fact.pred] == ref.entityType;
      var i :| 0 <= i < |l.claims| && l.claims[i] == c;
      assert SeenBy(l, s, ref, i);
    }
    if Seen(l, s, ref) {
      var i :| 0 <= i < |l.claims| && SeenBy(l, s, ref, i);
      assert l.claims[i] in l.claims;
    }
  }

  // One set operation per identity predicate of the type, in order, with the identity's own value.
  ghost predicate IsBundle(s: Schema, ref: EntityRef, meta: string, valid: bool, ops: seq<PlannedOp>) {
    && Identified(s, ref)
    && |ops| == |s.identityPreds[ref.entityType]|
    && forall k :: 0 <= k < |ops| ==> IsIdentityOp(s, ref, meta, valid, ops[k], s.identityPreds[ref.entityType][k])
  }

  ghost predicate IsIdentityOp(s: Schema, ref: EntityRef, meta: string, valid: bool, op: PlannedOp, pred: string) {
    pred in ref.identity && op == SetOp(Fact(pred, ref, Scalar(ref.identity[pred]), meta), valid)
  }

  lemma BundleMeans(s: Schema, ref: EntityRef, meta: string, valid: bool, materialized: set<EntityRef>)
    requires Resolved(s, ref)
    ensures ref in materialized ==> MaterializationOps(s, ref, meta, valid, materialized) == []
    ensures ref !in materialized ==> IsBundle(s, ref, meta, valid, MaterializationOps(s, ref, meta, valid, materialized))
  {
    if ref !in materialized {
      var ops, preds := MaterializationOps(s, ref, meta, valid, materialized), s.identityPreds[ref.entityType];
      forall k | 0 <= k < |ops|
        ensures IsIdentityOp(s, ref, meta, valid, ops[k], preds[k])
      {
        assert preds[k] in preds;
      }
    }
  }

  // The operation a mutation of the target comes to.
  ghost predicate Carries(target: EntityRef, m: Mutation, op: PlannedOp) {
    if m.change.Retract? then op == RetractOp(m.change.id, m.valid)
    else if m.change.multi then op == AddOp(Fact(m.pred, target, m.change.value, m.meta), m.valid)
    else op == SetOp(Fact(m.pred, target, m.change.value, m.meta), m.valid)
  }

  // ---------- when a mutation is accepted ----------

  ghost predicate OwnField(s: Schema, target: EntityRef, pred: string) {
    pred in s.fieldOwner && s.fieldOwner[pred] == target.entityType
  }

  ghost predicate IdentityField(s: Schema, pred: string) {
    exists t, i :: t in s.identityPreds && 0 <= i < |s.identityPreds[t]| && s.identityPreds[t][i] == pred
  }

  ghost predicate OfField(l: Ledger, target: EntityRef, pred: string, id: AssertionId) {
    forall i :: 0 <= i < |l.claims| && l.claims[i].id == id ==>
      l.claims[i].fact.pred == pred && l.claims[i].fact.entity == target
  }

  // The code a mutation is refused with; the empty one stands for acceptance.
  ghost predicate Judged(l: Ledger, s: Schema, command: WriteCommand, m: Mutation, code: string) {
    if !OwnField(s, command.target, m.pred) then code == "FIELD_NOT_FOUND"
    else if IdentityField(s, m.pred) then code == "INV_7C_IDENTITY_PROTECTED"
    else if m.change.Retract? then
      if !IsClaim(l, m.change.id) then code == "ASSERTION_NOT_FOUND"
      else if !OfField(l, command.target, m.pred, m.change.id) then code == "ASSERTION_TARGET_MISMATCH"
      else code == ""
    else if m.change.multi != (m.pred in s.multiPreds) then code == "FIELD_CARDINALITY_MISMATCH"
    else if m.change.value.Reference? != (m.pred in s.refPreds) then code == "FIELD_VALUE_TYPE_MISMATCH"
    else if m.change.value.Scalar? then code == ""
    else if !Identified(s, m.change.value.ref) then code == "SELECTOR_INVALID"
    else if !Seen(l, s, m.change.value.ref) && !command.includeDependencies then code == "DEPENDENCY_NOT_FOUND"
    else code == ""
  }

  ghost predicate Accepted(l: Ledger, s: Schema, command: WriteCommand, m: Mutation) {
    Judged(l, s, command, m, "")
  }

  lemma IdentityFieldMeans(s: Schema, pred: string)
    ensures IsIdentityPred(s, pred) <==> IdentityField(s, pred)
  {
    if IsIdentityPred(s, pred) {
      var t :| t in s.identityPreds && pred in s.identityPreds[t];
      var i :| 0 <= i < |s.identityPreds[t]| && s.identityPreds[t][i] == pred;
    }
    if t, i :| t in s.identityPreds && 0 <= i < |s.identityPreds[t]| && s.identityPreds[t][i] == pred {
      assert pred in s.identityPreds[t];
    }
  }

  lemma OfFieldMeans(l: Ledger, target: EntityRef, pred: string, id: AssertionId)
    ensures (exists c :: c in l.claims && c.id == id && (c.fact.pred != pred || c.fact.entity != target))
      <==> !OfField(l, target, pred, id)
  {
    if c :| c in l.claims && c.id == id && (c.fact.pred != pred || c.fact.entity != target) {
      var i :| 0 <= i < |l.claims| && l.claims[i] == c;
      assert l.claims[i].id == id;
    }
    if i :| 0 <= i < |l.claims| && l.claims[i].id == id && (l.claims[i].fact.pred != pred || l.claims[i].fact.entity != target) {
      assert l.claims[i] in l.claims;
    }
  }

  // ---------- one mutation ----------

  // The entity a mutation refers to must be created: it has no active claim yet.
  ghost predicate Requests(l: Ledger, s: Schema, m: Mutation, ref: EntityRef) {
    m.change.Assign? && m.change.value == Reference(ref) && !Seen(l, s, ref)
  }

  ghost predicate DraftStep(l: Ledger, s: Schema, target: EntityRef, m: Mutation, d: Draft, d': Draft) {
    && |d'.mutationOps| == |d.mutationOps| + 1
    && d.mutationOps <= d'.mutationOps && Carries(target, m, d'.mutationOps[|d.mutationOps|])
    && (exists block :: d'.dependencyOps == d.dependencyOps + block && IsBlock(l, s, m, d.materialized, block))
    && forall ref :: ref in d'.materialized <==> ref in d.materialized || Requests(l, s, m, ref)
  }

  // The identity bundle of a newly referenced entity that is missing, and nothing otherwise.
  ghost predicate IsBlock(l: Ledger, s: Schema, m: Mutation, before: set<EntityRef>, block: seq<PlannedOp>) {
    if m.change.Assign? && m.change.value.Reference? && !Seen(l, s, m.change.value.ref) && m.change.value.ref !in before
    then IsBundle(s, m.change.value.ref, m.meta, m.valid, block)
    else block == []
  }

  lemma JudgedMeans(l: Ledger, s: Schema, command: WriteCommand, d: Draft, m: Mutation)
    ensures var r := PlanMutation(l, s, command, d, m);
      && (r.Success? <==> Accepted(l, s, command, m))
      && (r.Failure? ==> Judged(l, s, command, m, r.error))
  {
    IdentityFieldMeans(s, m.pred);
    if m.change.Retract? {
      KnownMeans(l, m.change.id);
      OfFieldMeans(l, command.target, m.pred, m.change.id);
    } else if m.change.value.Reference? {
      VisibleMeans(l, s, m.change.value.ref);
    }
  }

  lemma PlannedStep(l: Ledger, s: Schema, command: WriteCommand, d: Draft, m: Mutation)
    requires PlanMutation(l, s, command, d, m).Success?
    ensures DraftStep(l, s, command.target, m, d, PlanMutation(l, s, command, d, m).value)
  {
    var d' := PlanMutation(l, s, command, d, m).value;
    if m.change.Assign? && m.change.value.Reference? {
      var ref := m.change.value.ref;
      VisibleMeans(l, s, ref);
      if !Visible(l, s, ref) {
        BundleMeans(s, ref, m.meta, m.valid, d.materialized);
        assert IsBlock(l, s, m, d.materialized, MaterializationOps(s, ref, m.meta, m.valid, d.materialized));
      } else {
        assert d'.dependencyOps == d.dependencyOps + [] && IsBlock(l, s, m, d.materialized, []);
      }
    } else {
      assert d'.dependencyOps == d.dependencyOps + [] && IsBlock(l, s, m, d.materialized, []);
    }
  }

  // ---------- all mutations ----------

  ghost function Concat(blocks: seq<seq<PlannedOp>>): seq<PlannedOp> {
    if blocks == [] then [] else Concat(blocks[..|blocks| - 1]) + blocks[|blocks| - 1]
  }

  // The missing entities that the first k mutations refer to.
  ghost predicate RequestedBefore(l: Ledger, s: Schema, ms: seq<Mutation>, k: nat, ref: EntityRef)
    requires k <= |ms|
  {
    exists i :: 0 <= i < k && Requests(l, s, ms[i], ref)
  }

  // The bundle of every missing entity where it is first referred to, and nothing anywhere else.
  ghost predicate IsBlockAt(l: Ledger, s: Schema, ms: seq<Mutation>, k: nat, block: seq<PlannedOp>)
    requires k < |ms|
  {
    var m := ms[k];
    if m.change.Assign? && m.change.value.Reference? && !Seen(l, s, m.change.value.ref)
       && !RequestedBefore(l, s, ms, k, m.change.value.ref)
    then IsBundle(s, m.change.value.ref, m.meta, m.valid, block)
    else block == []
  }

  ghost predicate Dependencies(l: Ledger, s: Schema, ms: seq<Mutation>, ops: seq<PlannedOp>, blocks: seq<seq<PlannedOp>>) {
    && |blocks| == |ms| && ops == Concat(blocks)
    && forall k :: 0 <= k < |ms| ==> IsBlockAt(l, s, ms, k, blocks[k])
  }

  ghost predicate CarriesAll(target: EntityRef, ms: seq<Mutation>, ops: seq<PlannedOp>) {
    |ops| == |ms| && forall i :: 0 <= i < |ms| ==> Carries(target, ms[i], ops[i])
  }

  ghost predicate Contents(l: Ledger, s: Schema, target: EntityRef, ms: seq<Mutation>, d: Draft) {
    && CarriesAll(target, ms, d.mutationOps)
    && (exists blocks :: Dependencies(l, s, ms, d.dependencyOps, blocks))
    && forall ref :: ref in d.materialized <==> RequestedBefore(l, s, ms, |ms|, ref)
  }

  lemma RequestedNext(l: Ledger, s: Schema, ms: seq<Mutation>, m: Mutation, ref: EntityRef)
    ensures RequestedBefore(l, s, ms + [m], |ms| + 1, ref) <==> RequestedBefore(l, s, ms, |ms|, ref) || Requests(l, s, m, ref)
    ensures forall k :: 0 <= k <= |ms| ==> (RequestedBefore(l, s, ms + [m], k, ref) <==> RequestedBefore(l, s, ms, k, ref))
  {
    var more := ms + [m];
    assert forall i :: 0 <= i < |ms| ==> more[i] == ms[i];
    assert more[|ms|] == m;
    if RequestedBefore(l, s, ms, |ms|, ref) {
      var i :| 0 <= i < |ms| && Requests(l, s, ms[i], ref);
      assert Requests(l, s, more[i], ref);
    }
    forall k | 0 <= k <= |ms|
      ensures RequestedBefore(l, s, more, k, ref) <==> RequestedBefore(l, s, ms, k, ref)
    {
      if i :| 0 <= i < k && Requests(l, s, ms[i], ref) {
        assert Requests(l, s, more[i], ref);
      }
      if i :| 0 <= i < k && Requests(l, s, more[i], ref) {
        assert Requests(l, s, ms[i], ref);
      }
    }
  }

  lemma DependenciesNext(l: Ledger, s: Schema, ms: seq<Mutation>, m: Mutation, ops: seq<PlannedOp>, blocks: seq<seq<PlannedOp>>,
                         before: set<EntityRef>, block: seq<PlannedOp>)
    requires Dependencies(l, s, ms, ops, blocks) && IsBlock(l, s, m, before, block)
    requires forall ref :: ref in before <==> RequestedBefore(l, s, ms, |ms|, ref)
    ensures Dependencies(l, s, ms + [m], ops + block, blocks + [block])
  {
    var more, all := ms + [m], blocks + [block];
    assert all[..|all| - 1] == blocks;
    forall k | 0 <= k < |more|
      ensures IsBlockAt(l, s, more, k, all[k])
    {
      if more[k].change.Assign? && more[k].change.value.Reference? {
        RequestedNext(l, s, ms, m, more[k].change.value.ref);
      }
      assert k < |ms| ==> IsBlockAt(l, s, ms, k, blocks[k]);
    }
  }

  lemma ContentsNext(l: Ledger, s: Schema, target: EntityRef, ms: seq<Mutation>, m: Mutation, d: Draft, d': Draft)
    requires Contents(l, s, target, ms, d) && DraftStep(l, s, target, m, d, d')
    ensures Contents(l, s, target, ms + [m], d')
  {
    var blocks :| Dependencies(l, s, ms, d.dependencyOps, blocks);
    var block :| d'.dependencyOps == d.dependencyOps + block && IsBlock(l, s, m, d.materialized, block);
    DependenciesNext(l, s, ms, m, d.dependencyOps, blocks, d.materialized, block);
    forall i | 0 <= i < |ms + [m]|
      ensures Carries(target, (ms + [m])[i], d'.mutationOps[i])
    {
      assert i < |ms| ==> d'.mutationOps[i] == d.mutationOps[i];
    }
    forall ref
      ensures ref in d'.materialized <==> RequestedBefore(l, s, ms + [m], |ms + [m]|, ref)
    {
      RequestedNext(l, s, ms, m, ref);
    }
  }

  // The first mutation that is not accepted.
  ghost predicate FirstRefusal(l: Ledger, s: Schema, command: WriteCommand, ms: seq<Mutation>, k: nat) {
    && k < |ms| && !Accepted(l, s, command, ms[k])
    && forall j :: 0 <= j < k ==> Accepted(l, s, command, ms[j])
  }

  ghost predicate AllAccepted(l: Ledger, s: Schema, command: WriteCommand, ms: seq<Mutation>) {
    forall i :: 0 <= i < |ms| ==> Accepted(l, s, command, ms[i])
  }

  // What planning the mutations comes to.
  ghost predicate Drafted(l: Ledger, s: Schema, command: WriteCommand, ms: seq<Mutation>, r: Result<Draft, string>) {
    && (r.Success? <==> AllAccepted(l, s, command, ms))
    && (r.Success? ==> Contents(l, s, command.target, ms, r.value))
    && (r.Failure? ==> exists k: nat :: FirstRefusal(l, s, command, ms, k) && Judged(l, s, command, ms[k], r.error))
  }

  lemma NothingDrafted(l: Ledger, s: Schema, command: WriteCommand)
    ensures Drafted(l, s, command, [], Success(Draft([], [], {})))
  {
    assert Dependencies(l, s, [], [], []);
  }

  lemma DraftedNext(l: Ledger, s: Schema, command: WriteCommand, ms: seq<Mutation>, m: Mutation, r: Result<Draft, string>)
    requires Drafted(l, s, command, ms, r)
    ensures r.Failure? ==> Drafted(l, s, command, ms + [m], r)
    ensures r.Success? ==> Drafted(l, s, command, ms + [m], PlanMutation(l, s, command, r.value, m))
  {
    var more := ms + [m];
    assert forall j :: 0 <= j < |ms| ==> more[j] == ms[j];
    if r.Failure? {
      var k: nat :| FirstRefusal(l, s, command, ms, k) && Judged(l, s, command, ms[k], r.error);
      assert FirstRefusal(l, s, command, more, k) && Judged(l, s, command, more[k], r.error);
    } else {
      JudgedMeans(l, s, command, r.value, m);
      var next := PlanMutation(l, s, command, r.value, m);
      assert AllAccepted(l, s, command, more) <==> AllAccepted(l, s, command, ms) && Accepted(l, s, command, m) by {
        assert more[|ms|] == m;
      }
      if next.Success? {
        PlannedStep(l, s, command, r.value, m);
        ContentsNext(l, s, command.target, ms, m, r.value, next.value);
      } else {
        assert FirstRefusal(l, s, command, more, |ms|) && Judged(l, s, command, more[|ms|], next.error);
      }
    }
  }

  /**
   Planning the mutations succeeds exactly if each is accepted, and otherwise fails with the code of the
   first that is not. The mutations come to one operation each, in order; the dependencies are the identity
   bundles of the missing entities referred to, each once.
   */
  lemma {:induction false} DraftContents(l: Ledger, s: Schema, command: WriteCommand, ms: seq<Mutation>)
    ensures Drafted(l, s, command, ms, PlanMutations(l, s, command, ms))
  {
    if ms == [] {
      NothingDrafted(l, s, command);
    } else {
      DraftContents(l, s, command, ms[..|ms| - 1]);
      LastMutation(l, s, command, ms, PlanMutations(l, s, command, ms[..|ms| - 1]), PlanMutations(l, s, command, ms));
    }
  }

  lemma LastMutation(l: Ledger, s: Schema, command: WriteCommand, ms: seq<Mutation>, before: Result<Draft, string>, r: Result<Draft, string>)
    requires ms != [] && Drafted(l, s, command, ms[..|ms| - 1], before)
    requires r == if before.Failure? then before else PlanMutation(l, s, command, before.value, ms[|ms| - 1])
    ensures Drafted(l, s, command, ms, r)
  {
    DraftedNext(l, s, command, ms[..|ms| - 1], ms[|ms| - 1], before);
    assert ms[..|ms| - 1] + [ms[|ms| - 1]] == ms;
  }

  // ---------- whole plans ----------

  // Dependencies, then the target's own bundle if it is missing and not made already, then the mutations.
  ghost predicate WriteParts(l: Ledger, s: Schema, command: WriteCommand, plan: seq<PlannedOp>,
                             blocks: seq<seq<PlannedOp>>, own: seq<PlannedOp>, changes: seq<PlannedOp>) {
    var ms := command.mutations;
    && plan == Concat(blocks) + own + changes
    && Dependencies(l, s, ms, Concat(blocks), blocks)
    && (if Seen(l, s, command.target) || RequestedBefore(l, s, ms, |ms|, command.target) then own == []
        else IsBundle(s, command.target, command.meta, command.metaValid, own))
    && CarriesAll(command.target, ms, changes)
  }

  lemma SelectorMeans(s: Schema, ref: EntityRef)
    ensures Resolved(s, ref) <==> Identified(s, ref)
  {
  }

  lemma WriteComposed(l: Ledger, s: Schema, command: WriteCommand, d: Draft)
    requires Resolved(s, command.target) && Contents(l, s, command.target, command.mutations, d)
    ensures var own := if Visible(l, s, command.target) then []
                       else MaterializationOps(s, command.target, command.meta, command.metaValid, d.materialized);
      exists blocks :: WriteParts(l, s, command, d.dependencyOps + own + d.mutationOps, blocks, own, d.mutationOps)
  {
    VisibleMeans(l, s, command.target);
    BundleMeans(s, command.target, command.meta, command.metaValid, d.materialized);
    var own := if Visible(l, s, command.target) then []
               else MaterializationOps(s, command.target, command.meta, command.metaValid, d.materialized);
    var blocks :| Dependencies(l, s, command.mutations, d.dependencyOps, blocks);
    assert WriteParts(l, s, command, d.dependencyOps + own + d.mutationOps, blocks, own, d.mutationOps);
  }

  // When a write is planned, what the plan holds, and the error it fails with otherwise.
  ghost predicate WriteOutcome(l: Ledger, s: Schema, command: WriteCommand, r: Result<seq<PlannedOp>, string>) {
    var target, ms := command.target, command.mutations;
    if !Identified(s, target) then r == Failure("SELECTOR_INVALID")
    else if !AllAccepted(l, s, command, ms) then
      r.Failure? && (exists k: nat :: FirstRefusal(l, s, command, ms, k) && Judged(l, s, command, ms[k], r.error))
    else if !Seen(l, s, target) && !command.createIfMissing then r == Failure("ENTITY_NOT_FOUND")
    else r.Success? && (exists blocks, own, changes :: WriteParts(l, s, command, r.value, blocks, own, changes))
  }

  lemma WriteFromDraft(l: Ledger, s: Schema, command: WriteCommand, drafted: Result<Draft, string>, r: Result<seq<PlannedOp>, string>)
    requires Resolved(s, command.target) && Drafted(l, s, command, command.mutations, drafted)
    requires drafted.Failure? ==> r == Failure(drafted.error)
    requires drafted.Success? && Visible(l, s, command.target) ==>
      r == Success(drafted.value.dependencyOps + drafted.value.mutationOps)
    requires drafted.Success? && !Visible(l, s, command.target) && !command.createIfMissing ==> r == Failure("ENTITY_NOT_FOUND")
    requires drafted.Success? && !Visible(l, s, command.target) && command.createIfMissing ==>
      r == Success(drafted.value.dependencyOps
                   + MaterializationOps(s, command.target, command.meta, command.metaValid, drafted.value.materialized)
                   + drafted.value.mutationOps)
    ensures WriteOutcome(l, s, command, r)
  {
    VisibleMeans(l, s, command.target);
    SelectorMeans(s, command.target);
    if drafted.Success? {
      var d := drafted.value;
      WriteComposed(l, s, command, d);
      assert d.dependencyOps + [] + d.mutationOps == d.dependencyOps + d.mutationOps;
    }
  }

  /**
   A write is planned exactly if its target is identified, every mutation is accepted, and the target exists or
   may be created. The plan is the dependencies, the missing target's own bundle, and the changes.
   */
  lemma WritePlanned(l: Ledger, s: Schema, command: WriteCommand)
    ensures WriteOutcome(l, s, command, PlanWrite(l, s, command))
  {
    SelectorMeans(s, command.target);
    if Resolved(s, command.target) {
      DraftContents(l, s, command, command.mutations);
      WriteFromDraft(l, s, command, PlanMutations(l, s, command, command.mutations), PlanWrite(l, s, command));
    }
  }

  /** A create plan is the identity bundle of an entity that has no active claim. */
  lemma CreatePlanned(l: Ledger, s: Schema, target: EntityRef, meta: string, metaValid: bool)
    ensures var r := PlanCreate(l, s, target, meta, metaValid);
      && (r.Success? <==> Identified(s, target) && !Seen(l, s, target))
      && (r.Success? ==> IsBundle(s, target, meta, metaValid, r.value))
      && (r.Failure? ==> r.error == if Identified(s, target) then "ENTITY_ALREADY_EXISTS" else "SELECTOR_INVALID")
  {
    SelectorMeans(s, target);
    VisibleMeans(l, s, target);
    if Resolved(s, target) {
      BundleMeans(s, target, meta, metaValid, {});
    }
  }

  predicate ActiveOf(c: Claim, revoker: map<AssertionId, AssertionId>, target: EntityRef) {
    c.fact.entity == target && c.id !in revoker
  }

  // One retraction for each of the claims at these positions.
  ghost predicate RetractsAt(claims: seq<Claim>, valid: bool, ops: seq<PlannedOp>, at: seq<nat>) {
    |at| == |ops| && forall k :: 0 <= k < |ops| ==> at[k] < |claims| && ops[k] == RetractOp(claims[at[k]].id, valid)
  }

  // Retractions of the active claims of the entity, one for each, in the order of the ledger.
  ghost predicate RetractsInOrder(claims: seq<Claim>, revoker: map<AssertionId, AssertionId>, target: EntityRef, valid: bool,
                                  ops: seq<PlannedOp>) {
    exists at :: Picks(claims, c => ActiveOf(c, revoker, target), at) && RetractsAt(claims, valid, ops, at)
  }

  lemma {:induction false} RetractAllInOrder(claims: seq<Claim>, revoker: map<AssertionId, AssertionId>, target: EntityRef, valid: bool)
    ensures RetractsInOrder(claims, revoker, target, valid, RetractAll(claims, revoker, target, valid))
  {
    var active := c => ActiveOf(c, revoker, target);
    if claims == [] {
      assert Picks(claims, active, []) && RetractsAt(claims, valid, [], []);
    } else {
      RetractAllInOrder(claims[1..], revoker, target, valid);
      var rest := RetractAll(claims[1..], revoker, target, valid);
      var at :| Picks(claims[1..], active, at) && RetractsAt(claims[1..], valid, rest, at);
      PicksShifted(claims, active, at);
      RetractsShifted(claims, revoker, target, valid, rest, at);
    }
  }

  lemma RetractsShifted(claims: seq<Claim>, revoker: map<AssertionId, AssertionId>, target: EntityRef, valid: bool,
                        rest: seq<PlannedOp>, at: seq<nat>)
    requires claims != [] && RetractsAt(claims[1..], valid, rest, at)
    ensures var mine := ActiveOf(claims[0], revoker, target);
      RetractsAt(claims, valid, (if mine then [RetractOp(claims[0].id, valid)] else []) + rest,
                 (if mine then [0] else []) + Shifted(at))
  {
    assert forall k :: 0 <= k < |rest| ==> claims[1..][at[k]] == claims[at[k] + 1];
  }

  /** A delete plan retracts every active claim of the entity once, in the order of the ledger. */
  lemma DeletePlanned(l: Ledger, s: Schema, target: EntityRef, metaValid: bool)
    ensures var r := PlanDelete(l, s, target, metaValid);
      && (r.Success? <==> Identified(s, target) && Seen(l, s, target))
      && (r.Success? ==> RetractsInOrder(l.claims, l.revoker, target, metaValid, r.value))
      && (r.Failure? ==> r.error == if Identified(s, target) then "ENTITY_NOT_FOUND" else "SELECTOR_INVALID")
  {
    SelectorMeans(s, target);
    VisibleMeans(l, s, target);
    RetractAllInOrder(l.claims, l.revoker, target, metaValid);
  }
}
