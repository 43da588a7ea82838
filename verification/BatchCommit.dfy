/**
 One batch of planned operations becomes at most one atomic commit. Repeated set operations are
 coalesced by ingest key, repeated retractions by target, and every operation is resolved to the
 id it reports: an existing one, or the n-th assertion or revocation of the commit.
 */
module BatchCommit {
  import opened Wrappers
  import opened Ledgers

  // `valid` says whether the operation's value and metadata translate to commit inputs.
  datatype PlannedOp =
    | RecordExistsOp(fact: Fact, valid: bool)
    | SetOp(fact: Fact, valid: bool)
    | AddOp(fact: Fact, valid: bool)
    | RetractOp(target: AssertionId, valid: bool)

  // The schema as the write path sees it.
  datatype Schema = Schema(
    identityPreds: map<string, seq<string>>,  // entity type -> identity predicates, in order
    existsPreds: set<string>,
    fieldOwner: map<string, string>,          // field predicate -> entity type (identity ones too)
    multiPreds: set<string>,                  // predicates of cardinality "multi"
    refPreds: set<string>)                    // predicates whose value is an entity reference

  predicate IsIdentityPred(s: Schema, pred: string) {
    exists t :: t in s.identityPreds && pred in s.identityPreds[t]
  }

  /**
   Identity, exists and system claims may not be retracted one by one; the code says which it is. The
   system claims of a ledger are its revokers. Field claims and unknown ids pass.
   */
  function GuardCode(l: Ledger, s: Schema, id: AssertionId): Option<string> {
    if id in l.revoker.Values then Some("INV_12_SYSTEM_REVOKE_FORBIDDEN")
    else if exists c :: c in l.claims && c.id == id && IsIdentityPred(s, c.fact.pred) then Some("INV_7C_IDENTITY_PROTECTED")
    else if exists c :: c in l.claims && c.id == id && c.fact.pred in s.existsPreds then Some("EXISTENCE_CLAIM_TRANSITIONAL_GUARD")
    else None
  }

  datatype Resolution = Existing(id: AssertionId) | NewAssertion(index: nat) | NewRevocation(index: nat)

  // What the loop over the operations has kept so far.
  datatype Pending = Pending(
    assertions: seq<Fact>,
    byKey: map<Fact, nat>,
    revocations: seq<AssertionId>,
    byTarget: map<AssertionId, nat>,
    resolutions: seq<Resolution>)

  datatype Outcome = Outcome(ledger: Ledger, ids: seq<AssertionId>, committed: bool)

  function Targets(ops: seq<PlannedOp>): set<AssertionId> {
    set op | op in ops && op.RetractOp? :: op.target
  }

  predicate Coalesced(op: PlannedOp) {
    op.SetOp? || op.RecordExistsOp?
  }

  function Step(l: Ledger, s: Schema, guarded: bool, targets: set<AssertionId>,
                p: Pending, op: PlannedOp): Result<Pending, string>
  {
    match op
    case RetractOp(target, _) =>
      if target in l.revoker then
        Success(p.(resolutions := p.resolutions + [Existing(l.revoker[target])]))
      else if target in p.byTarget then
        Success(p.(resolutions := p.resolutions + [NewRevocation(p.byTarget[target])]))
      else if guarded && GuardCode(l, s, target).Some? then
        Failure(GuardCode(l, s, target).value)
      else
        Success(p.(revocations := p.revocations + [target],
                   byTarget := p.byTarget[target := |p.revocations|],
                   resolutions := p.resolutions + [NewRevocation(|p.revocations|)]))
    case AddOp(fact, _) =>
      Success(p.(assertions := p.assertions + [fact],
                 resolutions := p.resolutions + [NewAssertion(|p.assertions|)]))
    case _ =>
      var existing := FindActiveAssertion(l, op.fact);
      if existing.Some? && existing.value !in targets then
        Success(p.(resolutions := p.resolutions + [Existing(existing.value)]))
      else if op.fact in p.byKey then
        Success(p.(resolutions := p.resolutions + [NewAssertion(p.byKey[op.fact])]))
      else
        Success(p.(assertions := p.assertions + [op.fact],
                   byKey := p.byKey[op.fact := |p.assertions|],
                   resolutions := p.resolutions + [NewAssertion(|p.assertions|)]))
  }

  function Resolve(l: Ledger, s: Schema, guarded: bool, targets: set<AssertionId>, ops: seq<PlannedOp>)
    : Result<Pending, string>
  {
    if ops == [] then Success(Pending([], map[], [], map[], []))
    else
      var p :- Resolve(l, s, guarded, targets, ops[..|ops| - 1]);
      Step(l, s, guarded, targets, p, ops[|ops| - 1])
  }

  // A set operation needs a new assertion unless its key's active assertion outlives the batch.
  predicate NeedsAssertion(l: Ledger, targets: set<AssertionId>, f: Fact) {
    var existing := FindActiveAssertion(l, f);
    existing.None? || existing.value in targets
  }

  predicate ResolvedAs(l: Ledger, targets: set<AssertionId>, p: Pending, op: PlannedOp, r: Resolution) {
    match op
    case RetractOp(target, _) =>
      if target in l.revoker then r == Existing(l.revoker[target])
      else r.NewRevocation? && r.index < |p.revocations| && p.revocations[r.index] == target
    case AddOp(fact, _) =>
      r.NewAssertion? && r.index < |p.assertions| && p.assertions[r.index] == fact
    case _ =>
      if NeedsAssertion(l, targets, op.fact) then
        op.fact in p.byKey && r == NewAssertion(p.byKey[op.fact])
      else
        r == Existing(FindActiveAssertion(l, op.fact).value)
  }

  ghost predicate PendingOk(l: Ledger, targets: set<AssertionId>, ops: seq<PlannedOp>, p: Pending) {
    && |p.resolutions| == |ops|
    && (forall f :: f in p.byKey ==> p.byKey[f] < |p.assertions| && p.assertions[p.byKey[f]] == f)
    && (forall t :: t in p.byTarget ==> p.byTarget[t] < |p.revocations| && p.revocations[p.byTarget[t]] == t)
    && (forall i :: 0 <= i < |p.revocations| ==> p.revocations[i] in p.byTarget && p.byTarget[p.revocations[i]] == i)
    && (forall i :: 0 <= i < |ops| ==> ResolvedAs(l, targets, p, ops[i], p.resolutions[i]))
    && (forall t :: t in p.byTarget <==> t in Targets(ops) && t !in l.revoker)
  }

  lemma {:induction false} ResolveOk(l: Ledger, s: Schema, guarded: bool, targets: set<AssertionId>, ops: seq<PlannedOp>)
    requires Resolve(l, s, guarded, targets, ops).Success?
    ensures PendingOk(l, targets, ops, Resolve(l, s, guarded, targets, ops).value)
  {
    if ops != [] {
      var before, op := ops[..|ops| - 1], ops[|ops| - 1];
      ResolveOk(l, s, guarded, targets, before);
      StepOk(l, s, guarded, targets, before, Resolve(l, s, guarded, targets, before).value, op);
      assert ops == before + [op];
    }
  }

  lemma StepOk(l: Ledger, s: Schema, guarded: bool, targets: set<AssertionId>,
               ops: seq<PlannedOp>, p: Pending, op: PlannedOp)
    requires PendingOk(l, targets, ops, p)
    requires Step(l, s, guarded, targets, p, op).Success?
    ensures PendingOk(l, targets, ops + [op], Step(l, s, guarded, targets, p, op).value)
  {
    var p' := Step(l, s, guarded, targets, p, op).value;
    StepExtends(l, s, guarded, targets, p, op);
    StepResolves(l, s, guarded, targets, p, op);
    StepTargets(l, s, guarded, targets, p, op);
    TargetsAppend(ops, op);
    ExtendedOk(l, targets, ops, p, op, p');
  }

  predicate Extends(p: Pending, p': Pending) {
    && p.assertions <= p'.assertions && p.revocations <= p'.revocations
    && (forall f :: f in p.byKey ==> f in p'.byKey && p'.byKey[f] == p.byKey[f])
    && |p'.resolutions| == |p.resolutions| + 1 && p.resolutions <= p'.resolutions
  }

  lemma ResolvedStays(l: Ledger, targets: set<AssertionId>, p: Pending, p': Pending, op: PlannedOp, r: Resolution)
    requires Extends(p, p') && ResolvedAs(l, targets, p, op, r)
    ensures ResolvedAs(l, targets, p', op, r)
  {
  }

  ghost predicate KeysIndexed(p: Pending) {
    forall f :: f in p.byKey ==> p.byKey[f] < |p.assertions| && p.assertions[p.byKey[f]] == f
  }

  ghost predicate TargetsIndexed(p: Pending) {
    && (forall t :: t in p.byTarget ==> p.byTarget[t] < |p.revocations| && p.revocations[p.byTarget[t]] == t)
    && (forall i :: 0 <= i < |p.revocations| ==> p.revocations[i] in p.byTarget && p.byTarget[p.revocations[i]] == i)
  }

  lemma ExtendedOk(l: Ledger, targets: set<AssertionId>, ops: seq<PlannedOp>, p: Pending, op: PlannedOp, p': Pending)
    requires PendingOk(l, targets, ops, p) && Extends(p, p') && KeysIndexed(p') && TargetsIndexed(p')
    requires ResolvedAs(l, targets, p', op, p'.resolutions[|p.resolutions|])
    requires forall t :: t in p'.byTarget <==> t in Targets(ops + [op]) && t !in l.revoker
    ensures PendingOk(l, targets, ops + [op], p')
  {
    forall i | 0 <= i < |ops + [op]|
      ensures ResolvedAs(l, targets, p', (ops + [op])[i], p'.resolutions[i])
    {
      if i < |ops| {
        ResolvedStays(l, targets, p, p', ops[i], p.resolutions[i]);
      }
    }
  }

  lemma TargetsAppend(ops: seq<PlannedOp>, op: PlannedOp)
    ensures Targets(ops + [op]) == Targets(ops) + (if op.RetractOp? then {op.target} else {})
  {
    assert forall o :: o in ops + [op] <==> o in ops || o == op;
  }

  // One step only appends.
  lemma StepExtends(l: Ledger, s: Schema, guarded: bool, targets: set<AssertionId>, p: Pending, op: PlannedOp)
    requires KeysIndexed(p) && Step(l, s, guarded, targets, p, op).Success?
    ensures var p' := Step(l, s, guarded, targets, p, op).value; Extends(p, p') && KeysIndexed(p')
  {
  }

  // And it resolves its own operation.
  lemma StepResolves(l: Ledger, s: Schema, guarded: bool, targets: set<AssertionId>, p: Pending, op: PlannedOp)
    requires TargetsIndexed(p) && Step(l, s, guarded, targets, p, op).Success?
    ensures var p' := Step(l, s, guarded, targets, p, op).value;
      |p'.resolutions| > |p.resolutions| && ResolvedAs(l, targets, p', op, p'.resolutions[|p.resolutions|])
  {
  }

  lemma TargetAdded(p: Pending, t: AssertionId, p': Pending)
    requires TargetsIndexed(p) && t !in p.byTarget
    requires p'.revocations == p.revocations + [t] && p'.byTarget == p.byTarget[t := |p.revocations|]
    ensures TargetsIndexed(p')
  {
    forall i | 0 <= i < |p'.revocations|
      ensures p'.revocations[i] in p'.byTarget && p'.byTarget[p'.revocations[i]] == i
    {
      if i < |p.revocations| {
        assert p.revocations[i] in p.byTarget;
      }
    }
  }

  lemma StepTargets(l: Ledger, s: Schema, guarded: bool, targets: set<AssertionId>, p: Pending, op: PlannedOp)
    requires TargetsIndexed(p) && Step(l, s, guarded, targets, p, op).Success?
    ensures var p' := Step(l, s, guarded, targets, p, op).value;
      && TargetsIndexed(p')
      && p'.byTarget.Keys == p.byTarget.Keys + (if op.RetractOp? && op.target !in l.revoker then {op.target} else {})
  {
    var p' := Step(l, s, guarded, targets, p, op).value;
    if op.RetractOp? && op.target !in l.revoker && op.target !in p.byTarget {
      TargetAdded(p, op.target, p');
    } else {
      assert p'.byTarget == p.byTarget && p'.revocations == p.revocations;
    }
  }

  /** The id an operation reports once the commit has handed out its ids. */
  function ReportedId(r: Resolution, c: CommitResult): AssertionId
    requires r.NewAssertion? ==> r.index < |c.assertionIds|
    requires r.NewRevocation? ==> r.index < |c.revokerIds|
  {
    match r
    case Existing(id) => id
    case NewAssertion(i) => c.assertionIds[i]
    case NewRevocation(i) => c.revokerIds[i]
  }

  function ReportedIds(rs: seq<Resolution>, c: CommitResult): seq<AssertionId>
    requires forall r :: r in rs ==> r.NewAssertion? ==> r.index < |c.assertionIds|
    requires forall r :: r in rs ==> r.NewRevocation? ==> r.index < |c.revokerIds|
  {
    seq(|rs|, i requires 0 <= i < |rs| =>
      assert rs[i] in rs;
      ReportedId(rs[i], c))
  }

  lemma ResolutionsInRange(l: Ledger, targets: set<AssertionId>, ops: seq<PlannedOp>, p: Pending)
    requires PendingOk(l, targets, ops, p)
    ensures forall r :: r in p.resolutions ==> r.NewAssertion? ==> r.index < |p.assertions|
    ensures forall r :: r in p.resolutions ==> r.NewRevocation? ==> r.index < |p.revocations|
  {
    forall r | r in p.resolutions
      ensures r.NewAssertion? ==> r.index < |p.assertions|
      ensures r.NewRevocation? ==> r.index < |p.revocations|
    {
      var i :| 0 <= i < |p.resolutions| && p.resolutions[i] == r;
      assert ResolvedAs(l, targets, p, ops[i], r);
    }
  }

  /** The whole batch: translate, resolve, commit once if anything was kept, report. */
  function CommitBatch(l: Ledger, s: Schema, guarded: bool, ops: seq<PlannedOp>): (r: Result<Outcome, string>)
    ensures r.Success? ==> |r.value.ids| == |ops|
  {
    if exists op :: op in ops && !op.valid then
      Failure("INVALID_PLANNED_VALUE")
    else
      var p :- Resolve(l, s, guarded, Targets(ops), ops);
      ResolveOk(l, s, guarded, Targets(ops), ops);
      ResolutionsInRange(l, Targets(ops), ops, p);
      if p.assertions == [] && p.revocations == [] then
        Success(Outcome(l, ReportedIds(p.resolutions, CommitResult(l, [], [])), false))
      else
        var c :- Commit(l, p.assertions, p.revocations);
        Success(Outcome(c.ledger, ReportedIds(p.resolutions, c), true))
  }
}
