/** Exactly when a batch is committed, and the error it fails with otherwise. */
module BatchSuccess {
  import opened Wrappers
  import opened Ledgers
  import opened BatchCommit

  // ---------- the guard, spelled out ----------

  ghost predicate IsRevoker(l: Ledger, id: AssertionId) {
    exists t :: t in l.revoker && l.revoker[t] == id
  }

  ghost predicate IdentityClaim(l: Ledger, s: Schema, id: AssertionId) {
    exists c, t, i :: c in l.claims && c.id == id && t in s.identityPreds
                      && 0 <= i < |s.identityPreds[t]| && s.identityPreds[t][i] == c.fact.pred
  }

  ghost predicate ExistsClaim(l: Ledger, s: Schema, id: AssertionId) {
    exists f :: Claim(id, f) in l.claims && f.pred in s.existsPreds
  }

  // Protected claims; everything else, field claims and unknown ids among it, may be retracted.
  ghost predicate Protected(l: Ledger, s: Schema, id: AssertionId) {
    IsRevoker(l, id) || IdentityClaim(l, s, id) || ExistsClaim(l, s, id)
  }

  ghost predicate ProtectedAs(l: Ledger, s: Schema, id: AssertionId, code: string) {
    if IsRevoker(l, id) then code == "INV_12_SYSTEM_REVOKE_FORBIDDEN"
    else if IdentityClaim(l, s, id) then code == "INV_7C_IDENTITY_PROTECTED"
    else ExistsClaim(l, s, id) && code == "EXISTENCE_CLAIM_TRANSITIONAL_GUARD"
  }

  lemma IdentityMeans(l: Ledger, s: Schema, id: AssertionId)
    ensures IdentityClaim(l, s, id) <==> exists c :: c in l.claims && c.id == id && IsIdentityPred(s, c.fact.pred)
  {
    if c :| c in l.claims && c.id == id && IsIdentityPred(s, c.fact.pred) {
      var t :| t in s.identityPreds && c.fact.pred in s.identityPreds[t];
      var i :| 0 <= i < |s.identityPreds[t]| && s.identityPreds[t][i] == c.fact.pred;
    }
    if IdentityClaim(l, s, id) {
      var c, t, i :| c in l.claims && c.id == id && t in s.identityPreds
                     && 0 <= i < |s.identityPreds[t]| && s.identityPreds[t][i] == c.fact.pred;
      assert c.fact.pred in s.identityPreds[t];
    }
  }

  lemma ExistsMeans(l: Ledger, s: Schema, id: AssertionId)
    ensures ExistsClaim(l, s, id) <==> exists c :: c in l.claims && c.id == id && c.fact.pred in s.existsPreds
  {
    if c :| c in l.claims && c.id == id && c.fact.pred in s.existsPreds {
      assert c == Claim(id, c.fact);
    }
  }

  /** The guard refuses exactly the protected claims, each with its own code. */
  lemma GuardMeans(l: Ledger, s: Schema, id: AssertionId)
    ensures GuardCode(l, s, id).Some? <==> Protected(l, s, id)
    ensures GuardCode(l, s, id).Some? ==> ProtectedAs(l, s, id, GuardCode(l, s, id).value)
  {
    IdentityMeans(l, s, id);
    ExistsMeans(l, s, id);
    if id in l.revoker.Values {
      var t :| t in l.revoker && l.revoker[t] == id;
    }
  }

  /** A field claim passes: neither a revoker, nor of an identity or exists predicate. */
  lemma FieldClaimsPass(l: Ledger, s: Schema, id: AssertionId, f: Fact)
    requires Valid(l) && Claim(id, f) in l.claims && f.pred !in s.existsPreds
    requires forall t, i :: t in s.identityPreds && 0 <= i < |s.identityPreds[t]| ==> s.identityPreds[t][i] != f.pred
    ensures GuardCode(l, s, id) == None
  {
    GuardMeans(l, s, id);
    OneClaim(l, id, f);
    assert Known(l, id);
  }

  lemma OneClaim(l: Ledger, id: AssertionId, f: Fact)
    requires Valid(l) && Claim(id, f) in l.claims
    ensures forall c :: c in l.claims && c.id == id ==> c.fact == f
  {
    var i :| 0 <= i < |l.claims| && l.claims[i] == Claim(id, f);
    forall c | c in l.claims && c.id == id
      ensures c.fact == f
    {
      var j :| 0 <= j < |l.claims| && l.claims[j] == c;
      assert i == j;
    }
  }

  // ---------- what a batch asks for ----------

  // A target of the batch that is not revoked yet.
  ghost predicate Retracts(l: Ledger, ops: seq<PlannedOp>, t: AssertionId) {
    t !in l.revoker && exists i :: 0 <= i < |ops| && ops[i].RetractOp? && ops[i].target == t
  }

  // The first active claim with this content, in the order of the ledger.
  ghost predicate FirstActive(l: Ledger, f: Fact, id: AssertionId) {
    exists i :: 0 <= i < |l.claims| && l.claims[i] == Claim(id, f) && id !in l.revoker
                && forall j :: 0 <= j < i ==> l.claims[j].fact != f || l.claims[j].id in l.revoker
  }

  // An added fact, or a fact to set whose first active claim, if there is one, the batch retracts.
  ghost predicate Asserts(l: Ledger, ops: seq<PlannedOp>, f: Fact) {
    || (exists i :: 0 <= i < |ops| && ops[i].AddOp? && ops[i].fact == f)
    || ((exists i :: 0 <= i < |ops| && (ops[i].SetOp? || ops[i].RecordExistsOp?) && ops[i].fact == f)
        && forall id :: FirstActive(l, f, id) ==> Retracts(l, ops, id))
  }

  lemma TargetsMean(l: Ledger, ops: seq<PlannedOp>, t: AssertionId)
    ensures t in Targets(ops) && t !in l.revoker <==> Retracts(l, ops, t)
  {
    if i :| 0 <= i < |ops| && ops[i].RetractOp? && ops[i].target == t {
      assert ops[i] in ops;
    }
    if t in Targets(ops) {
      var op :| op in ops && op.RetractOp? && op.target == t;
      var i :| 0 <= i < |ops| && ops[i] == op;
    }
  }

  lemma {:induction false} FindsFirst(claims: seq<Claim>, revoker: map<AssertionId, AssertionId>, f: Fact)
    ensures var r := FindActive(claims, revoker, f);
      && (r.Some? ==> exists i :: 0 <= i < |claims| && claims[i] == Claim(r.value, f) && r.value !in revoker
                                  && forall j :: 0 <= j < i ==> claims[j].fact != f || claims[j].id in revoker)
      && (r.None? ==> forall i :: 0 <= i < |claims| ==> claims[i].fact != f || claims[i].id in revoker)
  {
    if claims != [] && !(claims[0].fact == f && claims[0].id !in revoker) {
      var rest := claims[1..];
      FindsFirst(rest, revoker, f);
      var r := FindActive(rest, revoker, f);
      if r.Some? {
        var i :| 0 <= i < |rest| && rest[i] == Claim(r.value, f) && r.value !in revoker
                 && forall j :: 0 <= j < i ==> rest[j].fact != f || rest[j].id in revoker;
        assert claims[i + 1] == rest[i];
        forall j | 0 <= j < i + 1
          ensures claims[j].fact != f || claims[j].id in revoker
        {
          assert j > 0 ==> claims[j] == rest[j - 1];
        }
      } else {
        forall i | 0 <= i < |claims|
          ensures claims[i].fact != f || claims[i].id in revoker
        {
          assert i > 0 ==> claims[i] == rest[i - 1];
        }
      }
    }
  }

  lemma FirstActiveMeans(l: Ledger, f: Fact, id: AssertionId)
    ensures FindActiveAssertion(l, f) == Some(id) <==> FirstActive(l, f, id)
  {
    FindsFirst(l.claims, l.revoker, f);
    if FirstActive(l, f, id) {
      var i :| 0 <= i < |l.claims| && l.claims[i] == Claim(id, f) && id !in l.revoker
               && forall j :: 0 <= j < i ==> l.claims[j].fact != f || l.claims[j].id in l.revoker;
      var r := FindActiveAssertion(l, f);
      assert r.Some?;
      var k :| 0 <= k < |l.claims| && l.claims[k] == Claim(r.value, f) && r.value !in l.revoker
               && forall j :: 0 <= j < k ==> l.claims[j].fact != f || l.claims[j].id in l.revoker;
      assert i == k;
    }
  }

  lemma NeedsMeans(l: Ledger, ops: seq<PlannedOp>, f: Fact)
    ensures NeedsAssertion(l, Targets(ops), f) <==> forall id :: FirstActive(l, f, id) ==> Retracts(l, ops, id)
  {
    FoundActive(l, f);
    forall id: AssertionId
      ensures FindActiveAssertion(l, f) == Some(id) <==> FirstActive(l, f, id)
      ensures id in Targets(ops) && id !in l.revoker <==> Retracts(l, ops, id)
    {
      FirstActiveMeans(l, f, id);
      TargetsMean(l, ops, id);
    }
  }

  // ---------- resolving ----------

  // Some retraction among these operations is refused by the guard.
  predicate Refused(l: Ledger, s: Schema, op: PlannedOp) {
    op.RetractOp? && op.target !in l.revoker && GuardCode(l, s, op.target).Some?
  }

  // The first refused retraction.
  ghost predicate FirstRefused(l: Ledger, s: Schema, ops: seq<PlannedOp>, k: nat) {
    k < |ops| && Refused(l, s, ops[k]) && forall j :: 0 <= j < k ==> !Refused(l, s, ops[j])
  }

  ghost predicate Clean(l: Ledger, s: Schema, p: Pending) {
    forall t :: t in p.byTarget ==> GuardCode(l, s, t).None?
  }

  lemma StepOutcome(l: Ledger, s: Schema, guarded: bool, targets: set<AssertionId>, p: Pending, op: PlannedOp)
    requires guarded ==> Clean(l, s, p)
    ensures Step(l, s, guarded, targets, p, op).Failure? <==> guarded && Refused(l, s, op)
    ensures guarded && Refused(l, s, op) ==> Step(l, s, guarded, targets, p, op) == Failure(GuardCode(l, s, op.target).value)
    ensures Step(l, s, guarded, targets, p, op).Success? && guarded ==> Clean(l, s, Step(l, s, guarded, targets, p, op).value)
  {
  }

  /** Resolving fails exactly at the first refused retraction, with the code of the guard. */
  lemma {:induction false} ResolveOutcome(l: Ledger, s: Schema, guarded: bool, targets: set<AssertionId>, ops: seq<PlannedOp>)
    ensures var r := Resolve(l, s, guarded, targets, ops);
      && (r.Success? <==> !guarded || forall i :: 0 <= i < |ops| ==> !Refused(l, s, ops[i]))
      && (r.Success? && guarded ==> Clean(l, s, r.value))
      && (r.Failure? ==> exists k: nat :: FirstRefused(l, s, ops, k) && r.error == GuardCode(l, s, ops[k].target).value)
  {
    if ops != [] {
      var before, op := ops[..|ops| - 1], ops[|ops| - 1];
      ResolveOutcome(l, s, guarded, targets, before);
      var p := Resolve(l, s, guarded, targets, before);
      if p.Success? {
        StepOutcome(l, s, guarded, targets, p.value, op);
        if guarded && Refused(l, s, op) {
          assert forall j :: 0 <= j < |before| ==> before[j] == ops[j];
          assert FirstRefused(l, s, ops, |ops| - 1);
        }
        assert forall i :: 0 <= i < |ops| ==> ops[i] == if i < |before| then before[i] else op;
      } else {
        var k: nat :| FirstRefused(l, s, before, k) && p.error == GuardCode(l, s, before[k].target).value;
        assert before[k] == ops[k];
        assert FirstRefused(l, s, ops, k);
      }
    }
  }

  // What was kept: every fact to assert, and every target to revoke once.
  ghost predicate KeptExactly(l: Ledger, ops: seq<PlannedOp>, p: Pending) {
    && (forall f :: f in p.assertions <==> Asserts(l, ops, f))
    && (forall t :: t in p.revocations <==> Retracts(l, ops, t))
    && Distinct(p.revocations)
  }

  ghost predicate Asked(l: Ledger, targets: set<AssertionId>, op: PlannedOp, f: Fact) {
    !op.RetractOp? && op.fact == f && (op.AddOp? || NeedsAssertion(l, targets, f))
  }

  ghost predicate AskedBy(l: Ledger, targets: set<AssertionId>, ops: seq<PlannedOp>, f: Fact) {
    exists op :: op in ops && Asked(l, targets, op, f)
  }

  lemma StepKeeps(l: Ledger, s: Schema, guarded: bool, targets: set<AssertionId>, p: Pending, op: PlannedOp, f: Fact)
    requires KeysIndexed(p) && Step(l, s, guarded, targets, p, op).Success?
    ensures f in Step(l, s, guarded, targets, p, op).value.assertions <==> f in p.assertions || Asked(l, targets, op, f)
  {
    if op.RetractOp? {
    } else if op.AddOp? {
    } else if NeedsAssertion(l, targets, op.fact) && op.fact in p.byKey {
      assert p.assertions[p.byKey[op.fact]] == op.fact;
    }
  }

  lemma {:induction false} ResolveKeeps(l: Ledger, s: Schema, guarded: bool, targets: set<AssertionId>, ops: seq<PlannedOp>, f: Fact)
    requires Resolve(l, s, guarded, targets, ops).Success?
    ensures f in Resolve(l, s, guarded, targets, ops).value.assertions <==> AskedBy(l, targets, ops, f)
  {
    if ops != [] {
      var before, op := ops[..|ops| - 1], ops[|ops| - 1];
      ResolveKeeps(l, s, guarded, targets, before, f);
      ResolveOk(l, s, guarded, targets, before);
      StepKeeps(l, s, guarded, targets, Resolve(l, s, guarded, targets, before).value, op, f);
      assert ops == before + [op];
      assert forall o :: o in ops <==> o in before || o == op;
    }
  }

  lemma AskedMeans(l: Ledger, ops: seq<PlannedOp>, f: Fact)
    ensures AskedBy(l, Targets(ops), ops, f) <==> Asserts(l, ops, f)
  {
    NeedsMeans(l, ops, f);
    if AskedBy(l, Targets(ops), ops, f) {
      var op :| op in ops && Asked(l, Targets(ops), op, f);
      var i :| 0 <= i < |ops| && ops[i] == op;
    }
    if i :| 0 <= i < |ops| && !ops[i].RetractOp? && ops[i].fact == f && (ops[i].AddOp? || NeedsAssertion(l, Targets(ops), f)) {
      assert ops[i] in ops && Asked(l, Targets(ops), ops[i], f);
    }
  }

  lemma ResolvedKeeps(l: Ledger, s: Schema, guarded: bool, ops: seq<PlannedOp>)
    requires Resolve(l, s, guarded, Targets(ops), ops).Success?
    ensures KeptExactly(l, ops, Resolve(l, s, guarded, Targets(ops), ops).value)
  {
    var p := Resolve(l, s, guarded, Targets(ops), ops).value;
    ResolveOk(l, s, guarded, Targets(ops), ops);
    forall f
      ensures f in p.assertions <==> Asserts(l, ops, f)
    {
      ResolveKeeps(l, s, guarded, Targets(ops), ops, f);
      AskedMeans(l, ops, f);
    }
    forall t
      ensures t in p.revocations <==> Retracts(l, ops, t)
    {
      TargetsMean(l, ops, t);
      if t in p.byTarget {
        assert p.revocations[p.byTarget[t]] == t;
      }
    }
    forall i, j | 0 <= i < j < |p.revocations|
      ensures p.revocations[i] != p.revocations[j]
    {
      assert p.byTarget[p.revocations[i]] == i && p.byTarget[p.revocations[j]] == j;
    }
  }

  // ---------- when a batch succeeds ----------

  ghost predicate IsClaim(l: Ledger, id: AssertionId) {
    exists i :: 0 <= i < |l.claims| && l.claims[i].id == id
  }

  ghost predicate AllValid(ops: seq<PlannedOp>) {
    forall i :: 0 <= i < |ops| ==> ops[i].valid
  }

  ghost predicate NoneProtected(l: Ledger, s: Schema, ops: seq<PlannedOp>) {
    forall t :: Retracts(l, ops, t) ==> !Protected(l, s, t)
  }

  ghost predicate NoneReserved(l: Ledger, ops: seq<PlannedOp>) {
    forall f :: Asserts(l, ops, f) ==> !("__system__." <= f.pred)
  }

  ghost predicate AllKnown(l: Ledger, ops: seq<PlannedOp>) {
    forall t :: Retracts(l, ops, t) ==> IsClaim(l, t)
  }

  lemma KnownMeans(l: Ledger, id: AssertionId)
    ensures Known(l, id) <==> IsClaim(l, id)
  {
    if Known(l, id) {
      var c :| c in l.claims && c.id == id;
      var i :| 0 <= i < |l.claims| && l.claims[i] == c;
    }
    if i :| 0 <= i < |l.claims| && l.claims[i].id == id {
      assert l.claims[i] in l.claims;
    }
  }

  lemma NoneRefused(l: Ledger, s: Schema, ops: seq<PlannedOp>)
    ensures NoneProtected(l, s, ops) <==> forall i :: 0 <= i < |ops| ==> !Refused(l, s, ops[i])
  {
    forall i | 0 <= i < |ops| && ops[i].RetractOp?
      ensures Refused(l, s, ops[i]) <==> Retracts(l, ops, ops[i].target) && Protected(l, s, ops[i].target)
    {
      GuardMeans(l, s, ops[i].target);
    }
    if forall i :: 0 <= i < |ops| ==> !Refused(l, s, ops[i]) {
      forall t | Retracts(l, ops, t)
        ensures !Protected(l, s, t)
      {
        var i :| 0 <= i < |ops| && ops[i].RetractOp? && ops[i].target == t;
        assert !Refused(l, s, ops[i]);
      }
    }
  }

  // What a commit of everything kept comes to.
  lemma CommitKept(l: Ledger, ops: seq<PlannedOp>, p: Pending)
    requires KeptExactly(l, ops, p) && !(p.assertions == [] && p.revocations == [])
    ensures Commit(l, p.assertions, p.revocations).Success? <==> NoneReserved(l, ops) && AllKnown(l, ops)
    ensures !NoneReserved(l, ops) ==> Commit(l, p.assertions, p.revocations) == Failure("RESERVED_NAMESPACE")
    ensures NoneReserved(l, ops) && !AllKnown(l, ops) ==> Commit(l, p.assertions, p.revocations) == Failure("INVALID_REVOCATION")
  {
    forall t
      ensures Known(l, t) <==> IsClaim(l, t)
    {
      KnownMeans(l, t);
    }
    assert (exists f :: f in p.assertions && IsSystemPredicate(f.pred)) <==> !NoneReserved(l, ops);
    assert Revocable(l, p.revocations) <==> AllKnown(l, ops);
  }

  lemma NothingKept(l: Ledger, ops: seq<PlannedOp>, p: Pending)
    requires KeptExactly(l, ops, p) && p.assertions == [] && p.revocations == []
    ensures NoneReserved(l, ops) && AllKnown(l, ops)
  {
  }

  /**
   A batch succeeds exactly if its operations are valid, every target not yet revoked is a claim, under
   the guard no such target is protected, and nothing it has to assert is in the system namespace.
   */
  lemma BatchSucceeds(l: Ledger, s: Schema, guarded: bool, ops: seq<PlannedOp>)
    ensures CommitBatch(l, s, guarded, ops).Success?
      <==> AllValid(ops) && (guarded ==> NoneProtected(l, s, ops)) && NoneReserved(l, ops) && AllKnown(l, ops)
  {
    ValidMeans(ops);
    NoneRefused(l, s, ops);
    ResolveOutcome(l, s, guarded, Targets(ops), ops);
    if AllValid(ops) && (guarded ==> NoneProtected(l, s, ops)) {
      var p := Resolve(l, s, guarded, Targets(ops), ops).value;
      ResolvedKeeps(l, s, guarded, ops);
      if p.assertions == [] && p.revocations == [] {
        NothingKept(l, ops, p);
      } else {
        CommitKept(l, ops, p);
      }
    }
  }

  lemma ValidMeans(ops: seq<PlannedOp>)
    ensures AllValid(ops) <==> !exists op :: op in ops && !op.valid
  {
    if !AllValid(ops) {
      var i :| 0 <= i < |ops| && !ops[i].valid;
      assert ops[i] in ops;
    }
  }

  // The first retraction, in order, of a protected claim that is not revoked yet.
  ghost predicate FirstProtected(l: Ledger, s: Schema, ops: seq<PlannedOp>, k: nat) {
    && k < |ops| && ops[k].RetractOp? && ops[k].target !in l.revoker && Protected(l, s, ops[k].target)
    && forall j :: 0 <= j < k && ops[j].RetractOp? && ops[j].target !in l.revoker ==> !Protected(l, s, ops[j].target)
  }

  /** The error: an invalid operation first, then the guard's code, then the namespace, then an unknown target. */
  lemma BatchError(l: Ledger, s: Schema, guarded: bool, ops: seq<PlannedOp>)
    requires CommitBatch(l, s, guarded, ops).Failure?
    ensures var error := CommitBatch(l, s, guarded, ops).error;
      && (!AllValid(ops) ==> error == "INVALID_PLANNED_VALUE")
      && (AllValid(ops) && guarded && !NoneProtected(l, s, ops) ==>
            exists k: nat :: FirstProtected(l, s, ops, k) && ProtectedAs(l, s, ops[k].target, error))
      && (AllValid(ops) && (guarded ==> NoneProtected(l, s, ops)) ==>
            error == if NoneReserved(l, ops) then "INVALID_REVOCATION" else "RESERVED_NAMESPACE")
  {
    ValidMeans(ops);
    NoneRefused(l, s, ops);
    ResolveOutcome(l, s, guarded, Targets(ops), ops);
    if AllValid(ops) && guarded && !NoneProtected(l, s, ops) {
      var r := Resolve(l, s, guarded, Targets(ops), ops);
      var k: nat :| FirstRefused(l, s, ops, k) && r.error == GuardCode(l, s, ops[k].target).value;
      RefusedIsProtected(l, s, ops, k);
    } else if AllValid(ops) {
      var p := Resolve(l, s, guarded, Targets(ops), ops).value;
      ResolvedKeeps(l, s, guarded, ops);
      assert !(p.assertions == [] && p.revocations == []);
      CommitKept(l, ops, p);
    }
  }

  lemma RefusedIsProtected(l: Ledger, s: Schema, ops: seq<PlannedOp>, k: nat)
    requires FirstRefused(l, s, ops, k)
    ensures FirstProtected(l, s, ops, k) && ProtectedAs(l, s, ops[k].target, GuardCode(l, s, ops[k].target).value)
  {
    GuardMeans(l, s, ops[k].target);
    forall j | 0 <= j < k && ops[j].RetractOp? && ops[j].target !in l.revoker
      ensures !Protected(l, s, ops[j].target)
    {
      GuardMeans(l, s, ops[j].target);
      assert !Refused(l, s, ops[j]);
    }
  }
}
