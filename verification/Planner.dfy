/** Planning of create, write and delete commands against the ledger of the moment. */
module Planner {
  import opened Wrappers
  import opened Ledgers
  import opened BatchCommit

  datatype Change =
    | Assign(value: FieldValue, multi: bool)   // "set" writes single fields, "add" multi fields
    | Retract(id: AssertionId)

  // `meta` is the command metadata merged with the mutation's own.
  datatype Mutation = Mutation(pred: string, change: Change, meta: string, valid: bool)

  datatype WriteCommand = WriteCommand(
    target: EntityRef,
    mutations: seq<Mutation>,
    createIfMissing: bool,
    includeDependencies: bool,
    meta: string,
    metaValid: bool)

  // Selector resolution gives a value to every identity predicate of the type and to no other.
  predicate Resolved(s: Schema, ref: EntityRef) {
    && ref.entityType in s.identityPreds
    && (forall p :: p in ref.identity ==> p in s.identityPreds[ref.entityType])
    && (forall p :: p in s.identityPreds[ref.entityType] ==> p in ref.identity)
  }

  predicate Visible(l: Ledger, s: Schema, ref: EntityRef) {
    exists c :: c in l.claims && c.id !in l.revoker && c.fact.entity == ref
      && c.fact.pred in s.fieldOwner && s.fieldOwner[c.fact.pred] == ref.entityType
  }

  function IdentityFact(ref: EntityRef, pred: string, meta: string): Fact
    requires pred in ref.identity
  {
    Fact(pred, ref, Scalar(ref.identity[pred]), meta)
  }

  /** The set operations that assert the whole identity bundle of an entity, at most once per plan. */
  function MaterializationOps(s: Schema, ref: EntityRef, meta: string, valid: bool, materialized: set<EntityRef>): seq<PlannedOp>
    requires Resolved(s, ref)
  {
    if ref in materialized then []
    else
      var preds := s.identityPreds[ref.entityType];
      seq(|preds|, i requires 0 <= i < |preds| =>
        assert preds[i] in preds;
        SetOp(IdentityFact(ref, preds[i], meta), valid))
  }

  datatype Draft = Draft(dependencyOps: seq<PlannedOp>, mutationOps: seq<PlannedOp>, materialized: set<EntityRef>)

  function PlanMutation(l: Ledger, s: Schema, command: WriteCommand, d: Draft, m: Mutation): Result<Draft, string> {
    if m.pred !in s.fieldOwner || s.fieldOwner[m.pred] != command.target.entityType then Failure("FIELD_NOT_FOUND")
    else if IsIdentityPred(s, m.pred) then Failure("INV_7C_IDENTITY_PROTECTED")
    else
      match m.change
      case Retract(id) =>
        if !Known(l, id) then Failure("ASSERTION_NOT_FOUND")
        else if exists c :: c in l.claims && c.id == id && (c.fact.pred != m.pred || c.fact.entity != command.target) then
          Failure("ASSERTION_TARGET_MISMATCH")
        else Success(d.(mutationOps := d.mutationOps + [RetractOp(id, m.valid)]))
      case Assign(value, multi) =>
        if multi != (m.pred in s.multiPreds) then Failure("FIELD_CARDINALITY_MISMATCH")
        else if value.Reference? != (m.pred in s.refPreds) then Failure("FIELD_VALUE_TYPE_MISMATCH")
        else
          var fact := Fact(m.pred, command.target, value, m.meta);
          var op := if multi then AddOp(fact, m.valid) else SetOp(fact, m.valid);
          var d' := d.(mutationOps := d.mutationOps + [op]);
          if value.Scalar? then Success(d')
          else if !Resolved(s, value.ref) then Failure("SELECTOR_INVALID")
          else if Visible(l, s, value.ref) then Success(d')
          else if !command.includeDependencies then Failure("DEPENDENCY_NOT_FOUND")
          else Success(d'.(
            dependencyOps := d.dependencyOps + MaterializationOps(s, value.ref, m.meta, m.valid, d.materialized),
            materialized := d.materialized + {value.ref}))
  }

  function PlanMutations(l: Ledger, s: Schema, command: WriteCommand, ms: seq<Mutation>): Result<Draft, string> {
    if ms == [] then Success(Draft([], [], {}))
    else
      var d :- PlanMutations(l, s, command, ms[..|ms| - 1]);
      PlanMutation(l, s, command, d, ms[|ms| - 1])
  }

  function PlanWrite(l: Ledger, s: Schema, command: WriteCommand): Result<seq<PlannedOp>, string> {
    if !Resolved(s, command.target) then Failure("SELECTOR_INVALID")
    else
      var d :- PlanMutations(l, s, command, command.mutations);
      if Visible(l, s, command.target) then Success(d.dependencyOps + d.mutationOps)
      else if !command.createIfMissing then Failure("ENTITY_NOT_FOUND")
      else
        Success(d.dependencyOps
          + MaterializationOps(s, command.target, command.meta, command.metaValid, d.materialized)
          + d.mutationOps)
  }

  function PlanCreate(l: Ledger, s: Schema, target: EntityRef, meta: string, metaValid: bool): Result<seq<PlannedOp>, string> {
    if !Resolved(s, target) then Failure("SELECTOR_INVALID")
    else if Visible(l, s, target) then Failure("ENTITY_ALREADY_EXISTS")
    else Success(MaterializationOps(s, target, meta, metaValid, {}))
  }

  function RetractAll(claims: seq<Claim>, revoker: map<AssertionId, AssertionId>, ref: EntityRef, valid: bool): seq<PlannedOp> {
    if claims == [] then []
    else
      var c := claims[0];
      (if c.fact.entity == ref && c.id !in revoker then [RetractOp(c.id, valid)] else [])
        + RetractAll(claims[1..], revoker, ref, valid)
  }

  /** Whole-entity delete: one retraction for every active claim under the reference. */
  function PlanDelete(l: Ledger, s: Schema, target: EntityRef, metaValid: bool): Result<seq<PlannedOp>, string> {
    if !Resolved(s, target) then Failure("SELECTOR_INVALID")
    else if !Visible(l, s, target) then Failure("ENTITY_NOT_FOUND")
    else Success(RetractAll(l.claims, l.revoker, target, metaValid))
  }

  /** The planner's loop over the mutations. */
  method PlanDependenciesAndMutations(l: Ledger, s: Schema, command: WriteCommand) returns (r: Result<Draft, string>)
    ensures r == PlanMutations(l, s, command, command.mutations)
  {
    var dependencyOps: seq<PlannedOp> := [];
    var mutationOps: seq<PlannedOp> := [];
    var materialized: set<EntityRef> := {};
    var ms := command.mutations;
    for k := 0 to |ms|
      invariant PlanMutations(l, s, command, ms[..k]) == Success(Draft(dependencyOps, mutationOps, materialized))
    {
      assert ms[..k + 1][..k] == ms[..k];
      var step := PlanMutation(l, s, command, Draft(dependencyOps, mutationOps, materialized), ms[k]);
      if step.Failure? {
        PlanFailureStays(l, s, command, ms, k + 1);
        return step;
      }
      dependencyOps, mutationOps, materialized := step.value.dependencyOps, step.value.mutationOps, step.value.materialized;
    }
    assert ms[..|ms|] == ms;
    r := Success(Draft(dependencyOps, mutationOps, materialized));
  }

  lemma {:induction false} PlanFailureStays(l: Ledger, s: Schema, command: WriteCommand, ms: seq<Mutation>, k: nat)
    requires k <= |ms|
    requires PlanMutations(l, s, command, ms[..k]).Failure?
    ensures PlanMutations(l, s, command, ms) == PlanMutations(l, s, command, ms[..k])
  {
    if k == |ms| {
      assert ms[..k] == ms;
    } else {
      assert ms[..|ms| - 1][..k] == ms[..k];
      PlanFailureStays(l, s, command, ms[..|ms| - 1], k);
    }
  }
}
