/** Running the same batch a second time. */
module RepeatBatch {
  import opened Wrappers
  import opened Ledgers
  import opened BatchCommit
  import opened BatchProperties

  predicate NoAdds(ops: seq<PlannedOp>) {
    forall op :: op in ops ==> !op.AddOp?
  }

  // What the operation resolves to when the ledger already holds its effect.
  predicate Settled(l: Ledger, targets: set<AssertionId>, op: PlannedOp) {
    match op
    case RetractOp(target, _) => target in l.revoker
    case AddOp(_, _) => false
    case _ => !NeedsAssertion(l, targets, op.fact)
  }

  function SettledId(l: Ledger, targets: set<AssertionId>, op: PlannedOp): AssertionId
    requires Settled(l, targets, op)
  {
    if op.RetractOp? then l.revoker[op.target] else FindActiveAssertion(l, op.fact).value
  }

  lemma {:induction false} SettledResolve(l: Ledger, s: Schema, guarded: bool, targets: set<AssertionId>, ops: seq<PlannedOp>)
    requires forall op :: op in ops ==> Settled(l, targets, op)
    ensures var r := Resolve(l, s, guarded, targets, ops);
      && r.Success?
      && r.value.assertions == [] && r.value.revocations == [] && |r.value.resolutions| == |ops|
      && forall i :: 0 <= i < |ops| ==> assert ops[i] in ops; r.value.resolutions[i] == Existing(SettledId(l, targets, ops[i]))
  {
    if ops != [] {
      var before, op := ops[..|ops| - 1], ops[|ops| - 1];
      assert op in ops;
      SettledResolve(l, s, guarded, targets, before);
    }
  }

  lemma SettledAfter(l: Ledger, s: Schema, guarded: bool, ops: seq<PlannedOp>, i: nat)
    requires Valid(l) && CommitBatch(l, s, guarded, ops).Success? && NoAdds(ops) && i < |ops|
    ensures Settled(CommitBatch(l, s, guarded, ops).value.ledger, Targets(ops), ops[i])
  {
    var l' := CommitBatch(l, s, guarded, ops).value.ledger;
    assert ops[i] in ops;
    BatchReports(l, s, guarded, ops, i);
    if Coalesced(ops[i]) {
      FoundActive(l', ops[i].fact);
      FoundSurvives(l, s, guarded, ops, ops[i].fact);
    }
  }

  lemma FoundSurvives(l: Ledger, s: Schema, guarded: bool, ops: seq<PlannedOp>, f: Fact)
    requires Valid(l) && CommitBatch(l, s, guarded, ops).Success?
    ensures var l' := CommitBatch(l, s, guarded, ops).value.ledger;
      forall id :: Active(l', id, f) ==> id !in Targets(ops)
  {
    BatchActive(l, s, guarded, ops);
  }

  /** The second run keeps nothing and so commits nothing. */
  lemma RepeatCommitsNothing(l: Ledger, s: Schema, guarded: bool, ops: seq<PlannedOp>)
    requires Valid(l) && CommitBatch(l, s, guarded, ops).Success? && NoAdds(ops)
    ensures var l' := CommitBatch(l, s, guarded, ops).value.ledger;
      var again := CommitBatch(l', s, guarded, ops);
      && (forall op :: op in ops ==> Settled(l', Targets(ops), op))
      && again.Success? && !again.value.committed && again.value.ledger == l'
      && |again.value.ids| == |ops|
      && (forall i :: 0 <= i < |ops| ==> assert ops[i] in ops; again.value.ids[i] == SettledId(l', Targets(ops), ops[i]))
  {
    var l' := CommitBatch(l, s, guarded, ops).value.ledger;
    forall op | op in ops
      ensures Settled(l', Targets(ops), op)
    {
      var i :| 0 <= i < |ops| && ops[i] == op;
      SettledAfter(l, s, guarded, ops, i);
    }
    SettledResolve(l', s, guarded, Targets(ops), ops);
  }

  // The batch retracts the key's first active assertion while a later one stays active.
  ghost predicate Displaced(l: Ledger, targets: set<AssertionId>, f: Fact) {
    var first := FindActiveAssertion(l, f);
    first.Some? && first.value in targets && exists id :: Active(l, id, f) && id !in targets
  }

  lemma NewClaimFound(l: Ledger, ops: seq<PlannedOp>, p: Pending,
                      revoker: map<AssertionId, AssertionId>, f: Fact, id: AssertionId)
    requires Sources(ops, p) && NoAdds(ops) && f in p.byKey
    requires p.byKey[f] < |p.assertions| && p.assertions[p.byKey[f]] == f
    requires id == l.nextId + p.byKey[f] && id !in revoker
    ensures FindActive(NewClaims(l.nextId, p.assertions), revoker, f) == Some(id)
  {
    var added := NewClaims(l.nextId, p.assertions);
    var r := FindActive(added, revoker, f);
    assert added[p.byKey[f]] == Claim(id, f);
    assert added[p.byKey[f]] in added;
    FindActiveIs(added, revoker, f);
    var n :| 0 <= n < |added| && added[n] == Claim(r.value, f);
    assert p.assertions[n] == f;
  }

  lemma RepeatedSetId(l: Ledger, s: Schema, guarded: bool, ops: seq<PlannedOp>, i: nat)
    requires Valid(l) && CommitBatch(l, s, guarded, ops).Success? && NoAdds(ops)
    requires i < |ops| && Coalesced(ops[i])
    ensures var o := CommitBatch(l, s, guarded, ops).value;
      FindActiveAssertion(o.ledger, ops[i].fact) == Some(o.ids[i]) <==> !Displaced(l, Targets(ops), ops[i].fact)
  {
    if NeedsAssertion(l, Targets(ops), ops[i].fact) {
      NewIdFound(l, s, guarded, ops, i);
    } else {
      OldIdFound(l, s, guarded, ops, i);
    }
  }

  lemma NewIdFound(l: Ledger, s: Schema, guarded: bool, ops: seq<PlannedOp>, i: nat)
    requires Valid(l) && CommitBatch(l, s, guarded, ops).Success? && NoAdds(ops)
    requires i < |ops| && Coalesced(ops[i]) && NeedsAssertion(l, Targets(ops), ops[i].fact)
    ensures var o := CommitBatch(l, s, guarded, ops).value;
      FindActiveAssertion(o.ledger, ops[i].fact) == Some(o.ids[i]) <==> !Displaced(l, Targets(ops), ops[i].fact)
  {
    NewIdAmongNew(l, s, guarded, ops, i);
    OldSurvivor(l, s, guarded, ops, ops[i].fact);
    FindAfter(l, s, guarded, ops, ops[i].fact);
  }

  lemma NewIdAmongNew(l: Ledger, s: Schema, guarded: bool, ops: seq<PlannedOp>, i: nat)
    requires Valid(l) && CommitBatch(l, s, guarded, ops).Success? && NoAdds(ops)
    requires i < |ops| && Coalesced(ops[i]) && NeedsAssertion(l, Targets(ops), ops[i].fact)
    ensures var o, p := CommitBatch(l, s, guarded, ops).value, Kept(l, s, guarded, ops);
      && l.nextId <= o.ids[i]
      && FindActive(NewClaims(l.nextId, p.assertions), o.ledger.revoker, ops[i].fact) == Some(o.ids[i])
  {
    var o, p, f := CommitBatch(l, s, guarded, ops).value, Kept(l, s, guarded, ops), ops[i].fact;
    assert f in p.byKey && o.ids[i] == l.nextId + p.byKey[f] by {
      ReportedAt(l, s, guarded, ops, i);
    }
    assert o.ids[i] !in o.ledger.revoker by {
      NewIdNotRevoked(l, s, guarded, ops, o.ids[i]);
    }
    NewClaimFound(l, ops, p, o.ledger.revoker, f, o.ids[i]);
  }

  lemma NewIdNotRevoked(l: Ledger, s: Schema, guarded: bool, ops: seq<PlannedOp>, id: AssertionId)
    requires Valid(l) && CommitBatch(l, s, guarded, ops).Success?
    requires l.nextId <= id < l.nextId + |Kept(l, s, guarded, ops).assertions|
    ensures id !in CommitBatch(l, s, guarded, ops).value.ledger.revoker
  {
    var p := Kept(l, s, guarded, ops);
    BatchPieces(l, s, guarded, ops);
    assert NewClaims(l.nextId, p.assertions)[id - l.nextId] == Claim(id, p.assertions[id - l.nextId]);
    assert Active(CommitBatch(l, s, guarded, ops).value.ledger, id, p.assertions[id - l.nextId]);
  }

  lemma OldIdFound(l: Ledger, s: Schema, guarded: bool, ops: seq<PlannedOp>, i: nat)
    requires Valid(l) && CommitBatch(l, s, guarded, ops).Success?
    requires i < |ops| && Coalesced(ops[i]) && !NeedsAssertion(l, Targets(ops), ops[i].fact)
    ensures var o := CommitBatch(l, s, guarded, ops).value;
      FindActiveAssertion(o.ledger, ops[i].fact) == Some(o.ids[i])
  {
    var o, f := CommitBatch(l, s, guarded, ops).value, ops[i].fact;
    ReportedAt(l, s, guarded, ops, i);
    ExistingReports(l, s, guarded, ops, i);
    BatchActive(l, s, guarded, ops);
    FindActiveStable(l.claims, l.revoker, o.ledger.revoker, f);
    FindAfter(l, s, guarded, ops, f);
  }

  lemma FindAfter(l: Ledger, s: Schema, guarded: bool, ops: seq<PlannedOp>, f: Fact)
    requires Valid(l) && CommitBatch(l, s, guarded, ops).Success?
    ensures var o := CommitBatch(l, s, guarded, ops).value;
      var kept := FindActive(l.claims, o.ledger.revoker, f);
      FindActiveAssertion(o.ledger, f)
        == if kept.Some? then kept
           else FindActive(NewClaims(l.nextId, Kept(l, s, guarded, ops).assertions), o.ledger.revoker, f)
  {
    BatchPieces(l, s, guarded, ops);
    var o := CommitBatch(l, s, guarded, ops).value;
    FindActiveAppend(l.claims, NewClaims(l.nextId, Kept(l, s, guarded, ops).assertions), o.ledger.revoker, f);
  }

  lemma OldSurvivor(l: Ledger, s: Schema, guarded: bool, ops: seq<PlannedOp>, f: Fact)
    requires Valid(l) && CommitBatch(l, s, guarded, ops).Success?
    requires NeedsAssertion(l, Targets(ops), f)
    ensures var found := FindActive(l.claims, CommitBatch(l, s, guarded, ops).value.ledger.revoker, f);
      && (found.Some? <==> Displaced(l, Targets(ops), f))
      && (found.Some? ==> found.value < l.nextId)
  {
    var l' := CommitBatch(l, s, guarded, ops).value.ledger;
    BatchActive(l, s, guarded, ops);
    var found := FindActive(l.claims, l'.revoker, f);
    FindActiveIs(l.claims, l'.revoker, f);
    FoundActive(l, f);
    if found.Some? {
      assert Active(l, found.value, f) && found.value !in Targets(ops);
      assert Claim(found.value, f).id < l.nextId;
    }
    if Displaced(l, Targets(ops), f) {
      var id :| Active(l, id, f) && id !in Targets(ops);
      assert Claim(id, f) in l.claims && id !in l'.revoker;
    }
  }

  /** The second run reports the same ids exactly when no set key was displaced by the first. */
  lemma RepeatReportsSameIds(l: Ledger, s: Schema, guarded: bool, ops: seq<PlannedOp>)
    requires Valid(l) && CommitBatch(l, s, guarded, ops).Success? && NoAdds(ops)
    ensures var o := CommitBatch(l, s, guarded, ops).value;
      var again := CommitBatch(o.ledger, s, guarded, ops);
      again.Success?
      && (again.value.ids == o.ids <==> forall op :: op in ops && Coalesced(op) ==> !Displaced(l, Targets(ops), op.fact))
  {
    var o := CommitBatch(l, s, guarded, ops).value;
    RepeatCommitsNothing(l, s, guarded, ops);
    var again := CommitBatch(o.ledger, s, guarded, ops).value;
    forall i | 0 <= i < |ops|
      ensures ops[i] in ops
      ensures again.ids[i] == o.ids[i] <==> !(Coalesced(ops[i]) && Displaced(l, Targets(ops), ops[i].fact))
    {
      assert ops[i] in ops;
      if Coalesced(ops[i]) {
        RepeatedSetId(l, s, guarded, ops, i);
      } else {
        RetractReports(l, s, guarded, ops, i);
      }
    }
  }

  /** With unique active assertions per set key, repeating a batch is a complete no-op. */
  lemma RepeatIsNoOp(l: Ledger, s: Schema, guarded: bool, ops: seq<PlannedOp>)
    requires Valid(l) && CommitBatch(l, s, guarded, ops).Success? && NoAdds(ops)
    requires forall op :: op in ops && Coalesced(op) ==> AtMostOneActive(l, op.fact)
    ensures var o := CommitBatch(l, s, guarded, ops).value;
      CommitBatch(o.ledger, s, guarded, ops) == Success(Outcome(o.ledger, o.ids, false))
  {
    RepeatCommitsNothing(l, s, guarded, ops);
    RepeatReportsSameIds(l, s, guarded, ops);
    forall op | op in ops && Coalesced(op)
      ensures !Displaced(l, Targets(ops), op.fact)
    {
      FoundActive(l, op.fact);
      assert AtMostOneActive(l, op.fact);
    }
  }

  lemma RepeatedSteps(l: Ledger, s: Schema, f: Fact, ops: seq<PlannedOp>)
    requires l == Ledger([Claim(0, f), Claim(1, f)], map[], 2) && s == Schema(map[], {}, map[], {}, {})
    requires f.pred == "p" && ops == [RetractOp(0, true), SetOp(f, true)]
    ensures Resolve(l, s, true, {0}, ops) == Success(Pending([f], map[f := 0], [0], map[0 := 0], [NewRevocation(0), NewAssertion(0)]))
  {
    var done := [RetractOp(0, true)];
    assert ops[..1] == done && done[..0] == [];
    assert FindActiveAssertion(l, f) == Some(0);
    assert Known(l, 0) by { assert l.claims[0] in l.claims; }
    assert GuardCode(l, s, 0).None?;
    var start := Pending([], map[], [], map[], []);
    var p0 := Pending([], map[], [0], map[0 := 0], [NewRevocation(0)]);
    assert start.revocations + [0] == p0.revocations && start.resolutions + [NewRevocation(0)] == p0.resolutions;
    assert Step(l, s, true, {0}, start, ops[0]) == Success(p0);
    assert Resolve(l, s, true, {0}, done) == Success(p0);
    var p := Pending([f], map[f := 0], [0], map[0 := 0], [NewRevocation(0), NewAssertion(0)]);
    assert p0.assertions + [f] == p.assertions && p0.resolutions + [NewAssertion(0)] == p.resolutions;
    assert Step(l, s, true, {0}, p0, ops[1]) == Success(p);
  }

  /** Without uniqueness the ids can change: two active copies, the first of them replaced. */
  lemma RepeatCanChangeIds() returns (l: Ledger, s: Schema, ops: seq<PlannedOp>)
    ensures Valid(l) && NoAdds(ops) && CommitBatch(l, s, true, ops).Success?
    ensures var o := CommitBatch(l, s, true, ops).value;
      var again := CommitBatch(o.ledger, s, true, ops);
      again.Success? && again.value.ids != o.ids
  {
    var f := Fact("p", EntityRef("E", map[]), Scalar("v"), "");
    l := Ledger([Claim(0, f), Claim(1, f)], map[], 2);
    s := Schema(map[], {}, map[], {}, {});
    ops := [RetractOp(0, true), SetOp(f, true)];
    assert ops[0] in ops && ops[1] in ops;
    assert Targets(ops) == {0};
    RepeatedSteps(l, s, f, ops);
    assert Known(l, 0) by { assert l.claims[0] in l.claims; }
    assert Revocable(l, [0]);
    assert Active(l, 1, f) by { assert l.claims[1] in l.claims; }
    assert Displaced(l, Targets(ops), f);
    RepeatReportsSameIds(l, s, true, ops);
  }
}
