/** What runs of planning and applying steps do to the ledger, however late a plan is applied. */
module RunEffects {
  import opened Wrappers
  import opened Ledgers
  import opened BatchCommit
  import opened Planner
  import opened IdentityBundles
  import PlanContents
  import opened PlannedEffects

  // ---------- plans stay available ----------

  lemma {:induction false} PlansStay(s: Schema, w: World, events: seq<Event>)
    ensures w.writes <= Run(s, w, events).writes && w.deletes <= Run(s, w, events).deletes
  {
    if events != [] {
      PlansStay(s, w, events[..|events| - 1]);
    }
  }

  // ---------- applying several plans ----------

  ghost predicate Selected(writes: seq<seq<PlannedOp>>, indexes: seq<nat>, plan: seq<PlannedOp>) {
    exists j :: 0 <= j < |indexes| && indexes[j] < |writes| && writes[indexes[j]] == plan
  }

  lemma {:induction false} SelectedAsk(writes: seq<seq<PlannedOp>>, indexes: seq<nat>, f: Fact)
    ensures AsksFor(SelectedOps(writes, indexes), f) <==> exists plan :: Selected(writes, indexes, plan) && AsksFor(plan, f)
  {
    if indexes != [] {
      SelectedAsk(writes, indexes[1..], f);
      var first := if indexes[0] < |writes| then writes[indexes[0]] else [];
      AsksForEither(first, SelectedOps(writes, indexes[1..]), f);
      SelectedCons(writes, indexes);
      assert indexes[0] < |writes| ==> Selected(writes, indexes, first);
    }
  }

  lemma {:induction false} SelectedTake(writes: seq<seq<PlannedOp>>, indexes: seq<nat>, id: AssertionId)
    ensures TakesBack(SelectedOps(writes, indexes), id) <==> exists plan :: Selected(writes, indexes, plan) && TakesBack(plan, id)
  {
    if indexes != [] {
      SelectedTake(writes, indexes[1..], id);
      var first := if indexes[0] < |writes| then writes[indexes[0]] else [];
      TakesBackEither(first, SelectedOps(writes, indexes[1..]), id);
      SelectedCons(writes, indexes);
      assert indexes[0] < |writes| ==> Selected(writes, indexes, first);
    }
  }

  lemma SelectedCons(writes: seq<seq<PlannedOp>>, indexes: seq<nat>)
    requires indexes != []
    ensures forall plan :: Selected(writes, indexes, plan) <==>
      (indexes[0] < |writes| && writes[indexes[0]] == plan) || Selected(writes, indexes[1..], plan)
  {
    var rest := indexes[1..];
    assert forall j :: 0 <= j < |rest| ==> rest[j] == indexes[j + 1];
    forall plan | Selected(writes, indexes, plan)
      ensures (indexes[0] < |writes| && writes[indexes[0]] == plan) || Selected(writes, rest, plan)
    {
      var j :| 0 <= j < |indexes| && indexes[j] < |writes| && writes[indexes[j]] == plan;
      assert j > 0 ==> rest[j - 1] == indexes[j];
    }
  }

  /**
   Applying write plans either leaves the world as it is or makes every fact active that some selected plan asks for
   and revokes every id that one retracts, and nothing else.
   */
  lemma WritesTakeEffect(s: Schema, w: World, indexes: seq<nat>)
    requires Valid(w.ledger)
    ensures var after := Next(s, w, WritesApplied(indexes));
      && after.writes == w.writes && after.deletes == w.deletes
      && (CommitBatch(w.ledger, s, true, SelectedOps(w.writes, indexes)).Failure? ==> after.ledger == w.ledger)
      && (CommitBatch(w.ledger, s, true, SelectedOps(w.writes, indexes)).Success? ==>
            Changed(w.ledger, after.ledger, SelectedOps(w.writes, indexes)))
  {
    if CommitBatch(w.ledger, s, true, SelectedOps(w.writes, indexes)).Success? {
      BatchChanges(w.ledger, s, true, SelectedOps(w.writes, indexes));
    }
  }

  lemma OneSelected(writes: seq<seq<PlannedOp>>, k: nat)
    requires k < |writes|
    ensures SelectedOps(writes, [k]) == writes[k]
  {
    assert [k][1..] == [];
  }

  lemma WriteApplies(s: Schema, before: World, k: nat, l: Ledger, command: WriteCommand)
    requires PlanWrite(l, s, command).Success? && Valid(before.ledger)
    requires k < |before.writes| && before.writes[k] == PlanWrite(l, s, command).value
    ensures var after := Next(s, before, WritesApplied([k])).ledger;
      if CommitBatch(before.ledger, s, true, before.writes[k]).Success? then
        && (forall f :: Writes(l, s, command, f) ==> exists id :: Active(after, id, f))
        && (forall t :: t in after.revoker <==> t in before.ledger.revoker || Withdraws(command, t))
      else after == before.ledger
  {
    OneSelected(before.writes, k);
    if CommitBatch(before.ledger, s, true, before.writes[k]).Success? {
      WriteTakesEffect(l, s, command, before.ledger, true);
    }
  }

  lemma WriteStays(s: Schema, w: World, e: Event, plan: seq<PlannedOp>, events: seq<Event>)
    requires Next(s, w, e).writes == w.writes + [plan]
    ensures var before := Run(s, Next(s, w, e), events); |w.writes| < |before.writes| && before.writes[|w.writes|] == plan
  {
    PlansStay(s, Next(s, w, e), events);
  }

  /** A planned write, applied after any further events: if its batch is accepted, everything it writes is active then. */
  lemma WrittenLate(s: Schema, w: World, command: WriteCommand, events: seq<Event>)
    requires PlanWrite(w.ledger, s, command).Success?
    requires Valid(Run(s, Next(s, w, WritePlanned(command)), events).ledger)
    ensures var plan, before := PlanWrite(w.ledger, s, command).value, Run(s, Next(s, w, WritePlanned(command)), events);
            var after := Next(s, before, WritesApplied([|w.writes|])).ledger;
      if CommitBatch(before.ledger, s, true, plan).Success? then
        && (forall f :: Writes(w.ledger, s, command, f) ==> exists id :: Active(after, id, f))
        && (forall t :: t in after.revoker <==> t in before.ledger.revoker || Withdraws(command, t))
      else after == before.ledger
  {
    WriteStays(s, w, WritePlanned(command), PlanWrite(w.ledger, s, command).value, events);
    WriteApplies(s, Run(s, Next(s, w, WritePlanned(command)), events), |w.writes|, w.ledger, command);
  }

  lemma DeleteTakesEffect(l: Ledger, s: Schema, target: EntityRef, metaValid: bool, later: Ledger, id: AssertionId, f: Fact)
    requires PlanDelete(l, s, target, metaValid).Success? && f.entity == target && Active(l, id, f)
    requires Valid(later) && CommitBatch(later, s, false, PlanDelete(l, s, target, metaValid).value).Success?
    ensures var after := CommitBatch(later, s, false, PlanDelete(l, s, target, metaValid).value).value.ledger;
      !Active(after, id, f) && id in after.revoker
  {
    var plan := PlanDelete(l, s, target, metaValid).value;
    RetractAllTargets(l.claims, l.revoker, target, metaValid);
    assert Claim(id, f) in l.claims;
    TargetsAre(plan, id);
    BatchChanges(later, s, false, plan);
  }

  lemma DeleteApplies(s: Schema, before: World, k: nat, l: Ledger, target: EntityRef, metaValid: bool, id: AssertionId, f: Fact)
    requires PlanDelete(l, s, target, metaValid).Success? && f.entity == target && Active(l, id, f)
    requires k < |before.deletes| && before.deletes[k] == PlanDelete(l, s, target, metaValid).value && Valid(before.ledger)
    ensures var plan, after := before.deletes[k], Next(s, before, DeleteApplied(k)).ledger;
      if CommitBatch(before.ledger, s, false, plan).Success? then !Active(after, id, f) && id in after.revoker
      else after == before.ledger
  {
    if CommitBatch(before.ledger, s, false, before.deletes[k]).Success? {
      DeleteTakesEffect(l, s, target, metaValid, before.ledger, id, f);
    }
  }

  lemma DeleteStays(s: Schema, w: World, target: EntityRef, metaValid: bool, events: seq<Event>)
    requires PlanDelete(w.ledger, s, target, metaValid).Success?
    ensures var before := Run(s, Next(s, w, DeletePlanned(target, metaValid)), events);
      |w.deletes| < |before.deletes| && before.deletes[|w.deletes|] == PlanDelete(w.ledger, s, target, metaValid).value
  {
    var planned := Next(s, w, DeletePlanned(target, metaValid));
    PlansStay(s, planned, events);
    assert planned.deletes == w.deletes + [PlanDelete(w.ledger, s, target, metaValid).value];
  }

  /** A planned delete, applied after any further events: everything that was active of the entity is revoked then. */
  lemma DeletedLate(s: Schema, w: World, target: EntityRef, metaValid: bool, events: seq<Event>, id: AssertionId, f: Fact)
    requires PlanDelete(w.ledger, s, target, metaValid).Success?
    requires Valid(Run(s, Next(s, w, DeletePlanned(target, metaValid)), events).ledger)
    requires f.entity == target && Active(w.ledger, id, f)
    ensures var plan, before := PlanDelete(w.ledger, s, target, metaValid).value,
                                Run(s, Next(s, w, DeletePlanned(target, metaValid)), events);
            var after := Next(s, before, DeleteApplied(|w.deletes|)).ledger;
      if CommitBatch(before.ledger, s, false, plan).Success? then !Active(after, id, f) && id in after.revoker
      else after == before.ledger
  {
    DeleteStays(s, w, target, metaValid, events);
    DeleteApplies(s, Run(s, Next(s, w, DeletePlanned(target, metaValid)), events), |w.deletes|, w.ledger, target, metaValid, id, f);
  }

  lemma CreateApplies(s: Schema, before: World, k: nat, l: Ledger, target: EntityRef, meta: string, metaValid: bool, p: string)
    requires PlanCreate(l, s, target, meta, metaValid).Success? && p in target.identity && Valid(before.ledger)
    requires k < |before.writes| && before.writes[k] == PlanCreate(l, s, target, meta, metaValid).value
    ensures var after := Next(s, before, WritesApplied([k])).ledger;
      if CommitBatch(before.ledger, s, true, before.writes[k]).Success?
      then exists id :: Active(after, id, Fact(p, target, Scalar(target.identity[p]), meta))
      else after == before.ledger
  {
    OneSelected(before.writes, k);
    var plan := before.writes[k];
    if CommitBatch(before.ledger, s, true, plan).Success? {
      PlanContents.CreatePlanned(l, s, target, meta, metaValid);
      var f := Fact(p, target, Scalar(target.identity[p]), meta);
      BundleAsks(s, target, meta, metaValid, plan, f);
      AskedIsActive(before.ledger, s, true, plan, f);
    }
  }

  /** A planned create, applied after any further events: every identity field of the entity is active then. */
  lemma CreatedLate(s: Schema, w: World, target: EntityRef, meta: string, metaValid: bool, events: seq<Event>, p: string)
    requires PlanCreate(w.ledger, s, target, meta, metaValid).Success? && p in target.identity
    requires Valid(Run(s, Next(s, w, CreatePlanned(target, meta, metaValid)), events).ledger)
    ensures var plan, before := PlanCreate(w.ledger, s, target, meta, metaValid).value,
                                Run(s, Next(s, w, CreatePlanned(target, meta, metaValid)), events);
            var after := Next(s, before, WritesApplied([|w.writes|])).ledger;
      if CommitBatch(before.ledger, s, true, plan).Success?
      then exists id :: Active(after, id, Fact(p, target, Scalar(target.identity[p]), meta))
      else after == before.ledger
  {
    var e := CreatePlanned(target, meta, metaValid);
    WriteStays(s, w, e, PlanCreate(w.ledger, s, target, meta, metaValid).value, events);
    CreateApplies(s, Run(s, Next(s, w, e), events), |w.writes|, w.ledger, target, meta, metaValid, p);
  }
}
