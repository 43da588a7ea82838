/**
 The Database route of entity writes: the loops that translate, coalesce and commit a batch, and
 that hand its results back plan by plan.
 */
module DatabaseRoute {
  import opened Wrappers
  import opened Ledgers
  import opened BatchCommit

  datatype WritePlan = WritePlan(ops: seq<PlannedOp>, canApply: bool)

  datatype WriteResult =
    | Applied(ids: seq<AssertionId>)
    | NotApplied
    | Failed(code: string)

  function AssertionInputs(ops: seq<PlannedOp>): seq<Fact> {
    if ops == [] then []
    else
      var op := ops[|ops| - 1];
      AssertionInputs(ops[..|ops| - 1]) + (if op.RetractOp? then [] else [op.fact])
  }

  function RevocationInputs(ops: seq<PlannedOp>): seq<AssertionId> {
    if ops == [] then []
    else
      var op := ops[|ops| - 1];
      RevocationInputs(ops[..|ops| - 1]) + (if op.RetractOp? then [op.target] else [])
  }

  // The input the two cursors stand at when operation k is reached is operation k's own.
  lemma {:induction false} InputsInStep(ops: seq<PlannedOp>, k: nat)
    requires k < |ops|
    ensures var done := ops[..k];
      && |AssertionInputs(done)| <= |AssertionInputs(ops)|
      && |RevocationInputs(done)| <= |RevocationInputs(ops)|
      && (!ops[k].RetractOp? ==>
            && |AssertionInputs(done)| < |AssertionInputs(ops)|
            && AssertionInputs(ops)[|AssertionInputs(done)|] == ops[k].fact)
      && (ops[k].RetractOp? ==>
            && |RevocationInputs(done)| < |RevocationInputs(ops)|
            && RevocationInputs(ops)[|RevocationInputs(done)|] == ops[k].target)
  {
    var before := ops[..|ops| - 1];
    if k < |before| {
      assert before[..k] == ops[..k];
      InputsInStep(before, k);
    } else {
      assert before == ops[..k];
    }
  }

  lemma {:induction false} FailureStays(l: Ledger, s: Schema, guarded: bool, targets: set<AssertionId>,
                                        ops: seq<PlannedOp>, k: nat)
    requires k <= |ops|
    requires Resolve(l, s, guarded, targets, ops[..k]).Failure?
    ensures Resolve(l, s, guarded, targets, ops) == Resolve(l, s, guarded, targets, ops[..k])
  {
    if k == |ops| {
      assert ops[..k] == ops;
    } else {
      var before := ops[..|ops| - 1];
      assert before[..k] == ops[..k];
      FailureStays(l, s, guarded, targets, before, k);
    }
  }

  function FlattenedOps(plans: seq<WritePlan>): seq<PlannedOp> {
    if plans == [] then [] else FlattenedOps(plans[..|plans| - 1]) + plans[|plans| - 1].ops
  }

  function ReportedTogether(results: seq<WriteResult>): seq<AssertionId> {
    if results == [] then []
    else
      var last := results[|results| - 1];
      ReportedTogether(results[..|results| - 1]) + (if last.Applied? then last.ids else [])
  }

  lemma {:induction false} FlattenedPrefix(plans: seq<WritePlan>, k: nat)
    requires k < |plans|
    ensures |FlattenedOps(plans[..k])| + |plans[k].ops| == |FlattenedOps(plans[..k + 1])|
    ensures |FlattenedOps(plans[..k + 1])| <= |FlattenedOps(plans)|
  {
    assert plans[..k + 1][..k] == plans[..k];
    if k + 1 < |plans| {
      var shorter := plans[..|plans| - 1];
      assert shorter[..k] == plans[..k] && shorter[..k + 1] == plans[..k + 1];
      FlattenedPrefix(shorter, k);
    } else {
      assert plans[..k + 1] == plans;
    }
  }

  /** The flat list of reported ids, cut into one result per plan. */
  method SliceResults(plans: seq<WritePlan>, ids: seq<AssertionId>) returns (results: seq<WriteResult>)
    requires |ids| == |FlattenedOps(plans)|
    ensures |results| == |plans|
    ensures forall i :: 0 <= i < |plans| ==> results[i].Applied? && |results[i].ids| == |plans[i].ops|
    ensures ReportedTogether(results) == ids
  {
    results := [];
    var offset := 0;
    for k := 0 to |plans|
      invariant offset == |FlattenedOps(plans[..k])| <= |ids|
      invariant |results| == k
      invariant forall i :: 0 <= i < k ==> results[i].Applied? && |results[i].ids| == |plans[i].ops|
      invariant ReportedTogether(results) == ids[..offset]
    {
      FlattenedPrefix(plans, k);
      var next := offset + |plans[k].ops|;
      var result := Applied(ids[offset..next]);
      assert (results + [result])[..k] == results;
      results := results + [result];
      assert ids[..next] == ids[..offset] + ids[offset..next];
      offset := next;
    }
    assert plans[..|plans|] == plans;
  }

  class Database {
    var ledger: Ledger

    constructor (l: Ledger)
      ensures ledger == l
    {
      ledger := l;
    }

    method CommitChanges(assertions: seq<Fact>, revocations: seq<AssertionId>) returns (r: Result<CommitResult, string>)
      modifies this
      ensures r == Commit(old(ledger), assertions, revocations)
      ensures ledger == if r.Success? then r.value.ledger else old(ledger)
    {
      r := Commit(ledger, assertions, revocations);
      if r.Success? {
        ledger := r.value.ledger;
      }
    }

    method PlannedOpsToInputs(ops: seq<PlannedOp>)
      returns (r: Result<(seq<Fact>, seq<AssertionId>), string>)
      ensures r.Failure? <==> exists op :: op in ops && !op.valid
      ensures r.Success? ==> r.value == (AssertionInputs(ops), RevocationInputs(ops))
      ensures r.Failure? ==> r.error == "INVALID_PLANNED_VALUE"
    {
      var assertions: seq<Fact> := [];
      var revocations: seq<AssertionId> := [];
      for k := 0 to |ops|
        invariant forall op :: op in ops[..k] ==> op.valid
        invariant assertions == AssertionInputs(ops[..k])
        invariant revocations == RevocationInputs(ops[..k])
      {
        var op := ops[k];
        if !op.valid {
          return Failure("INVALID_PLANNED_VALUE");
        }
        assert ops[..k + 1][..k] == ops[..k];
        if op.RetractOp? {
          revocations := revocations + [op.target];
        } else {
          assertions := assertions + [op.fact];
        }
      }
      assert ops[..|ops|] == ops;
      r := Success((assertions, revocations));
    }

    // One retraction: reported as it is, coalesced with an earlier one, or kept if the guard lets it through.
    method KeepRetraction(s: Schema, guarded: bool, target: AssertionId, kept: seq<AssertionId>, byTarget: map<AssertionId, nat>)
      returns (r: Result<(seq<AssertionId>, map<AssertionId, nat>, Resolution), string>)
      ensures r == (if target in ledger.revoker then Success((kept, byTarget, Existing(ledger.revoker[target])))
                    else if target in byTarget then Success((kept, byTarget, NewRevocation(byTarget[target])))
                    else if guarded && GuardCode(ledger, s, target).Some? then Failure(GuardCode(ledger, s, target).value)
                    else Success((kept + [target], byTarget[target := |kept|], NewRevocation(|kept|))))
    {
      if target in ledger.revoker {
        return Success((kept, byTarget, Existing(ledger.revoker[target])));
      }
      if target in byTarget {
        return Success((kept, byTarget, NewRevocation(byTarget[target])));
      }
      if guarded {
        var code := GuardCode(ledger, s, target);
        if code.Some? {
          return Failure(code.value);
        }
      }
      r := Success((kept + [target], byTarget[target := |kept|], NewRevocation(|kept|)));
    }

    // The loop over the operations, with its tables and the two cursors over the translated inputs.
    method ResolveOps(s: Schema, guarded: bool, ops: seq<PlannedOp>, assertionInputs: seq<Fact>, revocationInputs: seq<AssertionId>)
      returns (r: Result<Pending, string>)
      requires assertionInputs == AssertionInputs(ops) && revocationInputs == RevocationInputs(ops)
      ensures r == Resolve(ledger, s, guarded, Targets(ops), ops)
    {
      var nextAssertion, nextRevocation := 0, 0;
      var revocationTargets := Targets(ops);
      var keptAssertions: seq<Fact> := [];
      var keptByKey: map<Fact, nat> := map[];
      var keptRevocations: seq<AssertionId> := [];
      var keptByTarget: map<AssertionId, nat> := map[];
      var resolutions: seq<Resolution> := [];
      for k := 0 to |ops|
        invariant nextAssertion == |AssertionInputs(ops[..k])|
        invariant nextRevocation == |RevocationInputs(ops[..k])|
        invariant Resolve(ledger, s, guarded, revocationTargets, ops[..k])
               == Success(Pending(keptAssertions, keptByKey, keptRevocations, keptByTarget, resolutions))
      {
        var op := ops[k];
        InputsInStep(ops, k);
        assert ops[..k + 1][..k] == ops[..k];
        if op.RetractOp? {
          var kept := KeepRetraction(s, guarded, revocationInputs[nextRevocation], keptRevocations, keptByTarget);
          if kept.Failure? {
            FailureStays(ledger, s, guarded, revocationTargets, ops, k + 1);
            return Failure(kept.error);
          }
          nextRevocation := nextRevocation + 1;
          keptRevocations, keptByTarget := kept.value.0, kept.value.1;
          resolutions := resolutions + [kept.value.2];
        } else {
          var fact := assertionInputs[nextAssertion];
          nextAssertion := nextAssertion + 1;
          if op.AddOp? {
            resolutions := resolutions + [NewAssertion(|keptAssertions|)];
            keptAssertions := keptAssertions + [fact];
          } else {
            var existing := FindActiveAssertion(ledger, fact);
            if existing.Some? && existing.value !in revocationTargets {
              resolutions := resolutions + [Existing(existing.value)];
            } else {
              if fact !in keptByKey {
                keptByKey := keptByKey[fact := |keptAssertions|];
                keptAssertions := keptAssertions + [fact];
              }
              resolutions := resolutions + [NewAssertion(keptByKey[fact])];
            }
          }
        }
      }
      assert ops[..|ops|] == ops;
      r := Success(Pending(keptAssertions, keptByKey, keptRevocations, keptByTarget, resolutions));
    }

    method CommitPlannedOps(s: Schema, guarded: bool, ops: seq<PlannedOp>)
      returns (r: Result<seq<AssertionId>, string>)
      modifies this
      ensures var spec := CommitBatch(old(ledger), s, guarded, ops);
        match spec
        case Success(o) => r == Success(o.ids) && ledger == o.ledger
        case Failure(code) => r == Failure(code) && ledger == old(ledger)
    {
      var inputs :- PlannedOpsToInputs(ops);
      var p :- ResolveOps(s, guarded, ops, inputs.0, inputs.1);
      ResolveOk(ledger, s, guarded, Targets(ops), ops);
      ResolutionsInRange(ledger, Targets(ops), ops, p);
      if p.assertions == [] && p.revocations == [] {
        return Success(ReportedIds(p.resolutions, CommitResult(ledger, [], [])));
      }
      var commit :- CommitChanges(p.assertions, p.revocations);
      r := Success(ReportedIds(p.resolutions, commit));
    }

    /** Several write plans as one transaction; results stay local to each plan. */
    method ApplyWritePlans(s: Schema, plans: seq<WritePlan>) returns (results: seq<WriteResult>)
      modifies this
      ensures |results| == |plans|
      ensures plans == [] ==> ledger == old(ledger)
      ensures (exists plan :: plan in plans && !plan.canApply) ==>
        ledger == old(ledger) && forall r :: r in results ==> r == NotApplied
      ensures (forall plan :: plan in plans ==> plan.canApply) && plans != [] ==>
        match CommitBatch(old(ledger), s, true, FlattenedOps(plans))
        case Success(o) =>
          && ledger == o.ledger
          && (forall i :: 0 <= i < |plans| ==> results[i].Applied? && |results[i].ids| == |plans[i].ops|)
          && ReportedTogether(results) == o.ids
        case Failure(code) => ledger == old(ledger) && forall r :: r in results ==> r == Failed(code)
    {
      if plans == [] {
        return [];
      }
      if exists plan :: plan in plans && !plan.canApply {
        return seq(|plans|, _ => NotApplied);
      }
      var r := CommitPlannedOps(s, true, FlattenedOps(plans));
      if r.Failure? {
        return seq(|plans|, _ => Failed(r.error));
      }
      results := SliceResults(plans, r.value);
    }
  }
}
