/**
 Evaluating a captured request and replaying the run it produces. Engines are functions of a plan
 and of the facts of the plan's dependency predicates; whatever evaluates replays as matched.
 */
module ReplayRuns {
  import opened Wrappers
  import opened ReplayWorlds
  import opened ReplayCapture
  import opened ReplayPrograms
  import StructuralCodec

  // The facts of each predicate, with their order forgotten.
  type FactSets = map<string, multiset<ProjectedFact>>

  datatype Observation = Ran(engine: string, output: string) | NotRun(engine: string, status: string, diagnostic: string)

  datatype GoalResult = GoalResult(rowCount: nat, content: string)

  datatype Frame = ResultFrame(engine: string, result: GoalResult) | OtherFrame(engine: string, status: string, diagnostic: string)

  datatype Side = Side(name: string, result: GoalResult, frames: seq<Frame>)

  // Engines and the parts of the protocol defined elsewhere.
  datatype Runtime = Runtime(
    schema: Schema,
    valid: Plan -> bool,
    dependencies: Plan -> Result<seq<string>, string>,
    engines: seq<string>,
    observe: (Plan, FactSets) -> Result<seq<Observation>, string>,
    goalResult: (string, string, seq<string>, FactSets) -> Result<GoalResult, string>,
    rowLimit: nat)

  datatype Candidate = Candidate(goal: string, wire: StructuralCodec.Json)

  datatype Request = Request(goal: string, wire: StructuralCodec.Json, candidate: Option<Candidate>,
                             baseline: Relation, effective: Relation, closureTargets: seq<string>, scenarioDependencies: seq<string>)

  datatype Run = Run(goal: string, wire: StructuralCodec.Json, candidate: Option<Candidate>,
                     baselineWorld: ReplayWorld, effectiveWorld: ReplayWorld,
                     baseline: Side, effective: Side, candidateEffective: Option<Side>)

  datatype SideReplay = SideReplay(side: string, resultMatch: bool, framesMatch: bool)

  datatype Report = Report(matched: bool, baseline: SideReplay, effective: SideReplay, candidateEffective: Option<SideReplay>)

  function FactsOf(relation: Relation): FactSets {
    map p | p in relation :: multiset(relation[p])
  }

  function Restrict(relation: Relation, preds: seq<string>): Relation {
    map p | p in preds && p in relation :: relation[p]
  }

  predicate HasAll(relation: Relation, preds: seq<string>) {
    forall p :: p in preds ==> p in relation
  }

  // ---------- frames ----------

  function FrameOf(runtime: Runtime, goal: string, o: Observation, targets: seq<string>, facts: FactSets): Result<Frame, string> {
    match o
    case Ran(engine, output) =>
      var result :- runtime.goalResult(goal, output, targets, facts);
      Success(ResultFrame(engine, result))
    case NotRun(engine, status, diagnostic) => Success(OtherFrame(engine, status, diagnostic))
  }

  function FramesOf(runtime: Runtime, goal: string, observations: seq<Observation>, targets: seq<string>, facts: FactSets)
    : Result<seq<Frame>, string>
  {
    if observations == [] then Success([])
    else
      var first :- FrameOf(runtime, goal, observations[0], targets, facts);
      var rest :- FramesOf(runtime, goal, observations[1..], targets, facts);
      Success([first] + rest)
  }

  method CollectFrames(runtime: Runtime, goal: string, observations: seq<Observation>, targets: seq<string>, facts: FactSets)
    returns (r: Result<seq<Frame>, string>)
    ensures r == FramesOf(runtime, goal, observations, targets, facts)
  {
    var frames: seq<Frame> := [];
    assert observations[0..] == observations;
    ghost var all := FramesOf(runtime, goal, observations, targets, facts);
    BehindNothing(all);
    for k := 0 to |observations|
      invariant all == Behind(frames, FramesOf(runtime, goal, observations[k..], targets, facts))
    {
      assert observations[k..][0] == observations[k] && observations[k..][1..] == observations[k + 1..];
      var frame := FrameOf(runtime, goal, observations[k], targets, facts);
      if frame.Failure? {
        return Failure(frame.error);
      }
      BehindOne(frames, frame.value, FramesOf(runtime, goal, observations[k + 1..], targets, facts));
      frames := frames + [frame.value];
    }
    assert frames + [] == frames;
    r := Success(frames);
  }

  function EnginesOf(frames: seq<Frame>): seq<string> {
    seq(|frames|, i requires 0 <= i < |frames| => frames[i].engine)
  }

  // ---------- one side ----------

  /** A side is evaluated on its own dependencies; its results are judged in the whole world. */
  function EvaluateSide(runtime: Runtime, name: string, goal: string, plan: Plan, execution: Relation, world: Relation,
                        targets: seq<string>): Result<Side, string>
  {
    var observations :- runtime.observe(plan, FactsOf(execution));
    var frames :- FramesOf(runtime, goal, observations, targets, FactsOf(world));
    if EnginesOf(frames) != runtime.engines then Failure("ENGINE_INVENTORY_MISMATCH")
    else if frames == [] || !frames[0].ResultFrame? then Failure("CANONICAL_ENGINE_UNAVAILABLE")
    else Success(Side(name, frames[0].result, frames))
  }

  function ReplaySide(runtime: Runtime, declared: Side, goal: string, plan: Plan, relation: Relation, targets: seq<string>)
    : Result<SideReplay, string>
  {
    var dependencies :- runtime.dependencies(plan);
    if !HasAll(relation, dependencies) then Failure("RELATION_INCOMPLETE")
    else
      var observations :- runtime.observe(plan, FactsOf(Restrict(relation, dependencies)));
      var frames :- FramesOf(runtime, goal, observations, targets, FactsOf(relation));
      if EnginesOf(frames) != runtime.engines then Failure("ENGINE_INVENTORY_MISMATCH")
      else if frames == [] || !frames[0].ResultFrame? then Failure("CANONICAL_ENGINE_UNAVAILABLE")
      else Success(SideReplay(declared.name, frames[0].result == declared.result, frames == declared.frames))
  }

  // ---------- evaluation ----------

  function Decode(runtime: Runtime, wire: StructuralCodec.Json): Result<Plan, string> {
    var plan := PlanFromWire(wire, runtime.valid);
    if plan.Failure? then Failure("PROGRAM_SHAPE_INVALID") else Success(plan.value)
  }

  function Seal(runtime: Runtime, plan: Plan): Result<StructuralCodec.Json, string> {
    var wire := PlanWire(plan, runtime.valid);
    if wire.Failure? then Failure("PROGRAM_SHAPE_INVALID") else Success(wire.value)
  }

  function DecodeCandidate(runtime: Runtime, candidate: Option<Candidate>): Result<Option<Plan>, string> {
    if candidate.None? then Success(None)
    else
      var plan :- Decode(runtime, candidate.value.wire);
      Success(Some(plan))
  }

  function SealCandidate(runtime: Runtime, candidate: Option<Candidate>, plan: Option<Plan>): Result<Option<Candidate>, string> {
    if candidate.None? || plan.None? then Success(None)
    else
      var wire :- Seal(runtime, plan.value);
      Success(Some(Candidate(candidate.value.goal, wire)))
  }

  function DependenciesOf(runtime: Runtime, plan: Option<Plan>): Result<seq<string>, string> {
    if plan.None? then Success([]) else runtime.dependencies(plan.value)
  }

  function EvaluateCandidate(runtime: Runtime, request: Request, plan: Option<Plan>, dependencies: seq<string>): Result<Option<Side>, string> {
    if request.candidate.None? || plan.None? then Success(None)
    else if !HasAll(request.effective, dependencies) then Failure("KEY_ERROR")
    else
      var side :- EvaluateSide(runtime, "candidate_effective", request.candidate.value.goal, plan.value,
                               Restrict(request.effective, dependencies), request.effective, request.closureTargets);
      Success(Some(side))
  }

  predicate WithinLimit(runtime: Runtime, side: Side) {
    side.result.rowCount <= runtime.rowLimit
  }

  function ElementsOf(preds: seq<string>): set<string> {
    set p | p in preds
  }

  // All sides of a run, within the row limit, with the program sealed again.
  function EvaluateSides(runtime: Runtime, request: Request, primary: Plan, candidate: Option<Plan>, dependencies: seq<string>,
                         candidateDependencies: seq<string>, baselineWorld: ReplayWorld, effectiveWorld: ReplayWorld)
    : Result<Run, string>
  {
    var baseline :- EvaluateSide(runtime, "baseline", request.goal, primary,
                                 Restrict(request.baseline, dependencies), request.baseline, []);
    var effective :- EvaluateSide(runtime, "effective", request.goal, primary,
                                  Restrict(request.effective, dependencies), request.effective, request.closureTargets);
    var candidateSide :- EvaluateCandidate(runtime, request, candidate, candidateDependencies);
    if !WithinLimit(runtime, baseline) || !WithinLimit(runtime, effective)
       || (candidateSide.Some? && !WithinLimit(runtime, candidateSide.value)) then Failure("LIMIT_EXCEEDED")
    else
      var wire :- Seal(runtime, primary);
      var sealedCandidate :- SealCandidate(runtime, request.candidate, candidate);
      Success(Run(request.goal, wire, sealedCandidate, baselineWorld, effectiveWorld, baseline, effective, candidateSide))
  }

  /** Evaluates a request in which the worlds are already resolved, and seals the run. */
  function EvaluateGoal(runtime: Runtime, request: Request): Result<Run, string> {
    var primary :- Decode(runtime, request.wire);
    var candidate :- DecodeCandidate(runtime, request.candidate);
    var baselineWorld :- CaptureWorld(runtime.schema, request.baseline, []);
    var dependencies :- runtime.dependencies(primary);
    var candidateDependencies :- DependenciesOf(runtime, candidate);
    if request.baseline.Keys
         != ElementsOf(dependencies) + ElementsOf(candidateDependencies) + ElementsOf(request.scenarioDependencies)
    then Failure("RELATION_INCOMPLETE")
    else
      var effectiveWorld :- CaptureWorld(runtime.schema, request.effective, request.closureTargets);
      if !HasAll(request.effective, dependencies) then Failure("KEY_ERROR")
      else EvaluateSides(runtime, request, primary, candidate, dependencies, candidateDependencies, baselineWorld, effectiveWorld)
  }

  // ---------- replay ----------

  function ReplayCandidate(runtime: Runtime, run: Run, plan: Option<Plan>, relation: Relation): Result<Option<SideReplay>, string> {
    if run.candidate.None? then Success(None)
    else if run.candidateEffective.None? || plan.None? then Failure("ASSERTION")
    else
      var side :- ReplaySide(runtime, run.candidateEffective.value, run.candidate.value.goal, plan.value, relation,
                             run.effectiveWorld.closureTargets);
      Success(Some(side))
  }

  predicate Matches(side: SideReplay) {
    side.resultMatch && side.framesMatch
  }

  /** Re-executes a run from nothing but what it sealed. */
  function ReplayRun(runtime: Runtime, run: Run): Result<Report, string> {
    var primary :- Decode(runtime, run.wire);
    var candidate :- DecodeCandidate(runtime, run.candidate);
    var baselineRelation :- WorldRelation(runtime.schema, run.baselineWorld);
    var effectiveRelation :- WorldRelation(runtime.schema, run.effectiveWorld);
    var baseline :- ReplaySide(runtime, run.baseline, run.goal, primary, baselineRelation, run.baselineWorld.closureTargets);
    var effective :- ReplaySide(runtime, run.effective, run.goal, primary, effectiveRelation, run.effectiveWorld.closureTargets);
    var other :- ReplayCandidate(runtime, run, candidate, effectiveRelation);
    Success(Report(Matches(baseline) && Matches(effective) && (other.Some? ==> Matches(other.value)), baseline, effective, other))
  }

  // ---------- what evaluates replays ----------

  lemma SameFactSets(a: Relation, b: Relation, preds: seq<string>)
    requires SameFacts(a, b)
    ensures FactsOf(a) == FactsOf(b) && FactsOf(Restrict(a, preds)) == FactsOf(Restrict(b, preds))
    ensures HasAll(a, preds) <==> HasAll(b, preds)
  {
  }

  /** A side that evaluated on a relation replays as matched on any relation with the same facts. */
  lemma SideReplays(runtime: Runtime, name: string, goal: string, plan: Plan, dependencies: seq<string>,
                    world: Relation, restored: Relation, targets: seq<string>)
    requires runtime.dependencies(plan) == Success(dependencies) && HasAll(world, dependencies) && SameFacts(restored, world)
    requires EvaluateSide(runtime, name, goal, plan, Restrict(world, dependencies), world, targets).Success?
    ensures var side := EvaluateSide(runtime, name, goal, plan, Restrict(world, dependencies), world, targets).value;
      ReplaySide(runtime, side, goal, plan, restored, targets) == Success(SideReplay(name, true, true))
  {
    SameFactSets(restored, world, dependencies);
  }

  lemma SealedPlanDecodes(runtime: Runtime, wire: StructuralCodec.Json)
    requires Decode(runtime, wire).Success?
    ensures Seal(runtime, Decode(runtime, wire).value) == Success(wire)
  {
    AcceptedPlan(wire, runtime.valid);
  }

  // The pieces of an evaluation that succeeded.
  ghost predicate Evaluated(runtime: Runtime, request: Request, run: Run, primary: Plan, dependencies: seq<string>,
                            candidate: Option<Plan>, candidateDependencies: seq<string>) {
    && Decode(runtime, request.wire) == Success(primary) && Seal(runtime, primary) == Success(run.wire)
    && DecodeCandidate(runtime, request.candidate) == Success(candidate)
    && SealCandidate(runtime, request.candidate, candidate) == Success(run.candidate)
    && runtime.dependencies(primary) == Success(dependencies)
    && DependenciesOf(runtime, candidate) == Success(candidateDependencies)
    && CaptureWorld(runtime.schema, request.baseline, []) == Success(run.baselineWorld)
    && CaptureWorld(runtime.schema, request.effective, request.closureTargets) == Success(run.effectiveWorld)
    && HasAll(request.baseline, dependencies) && HasAll(request.effective, dependencies)
    && EvaluateSide(runtime, "baseline", request.goal, primary, Restrict(request.baseline, dependencies), request.baseline, [])
         == Success(run.baseline)
    && EvaluateSide(runtime, "effective", request.goal, primary, Restrict(request.effective, dependencies), request.effective,
                    request.closureTargets) == Success(run.effective)
    && EvaluateCandidate(runtime, request, candidate, candidateDependencies) == Success(run.candidateEffective)
    && run.goal == request.goal
    && WithinLimit(runtime, run.baseline) && WithinLimit(runtime, run.effective)
    && (run.candidateEffective.Some? ==> WithinLimit(runtime, run.candidateEffective.value))
  }

  lemma SidePieces(runtime: Runtime, request: Request, primary: Plan, candidate: Option<Plan>, dependencies: seq<string>,
                   candidateDependencies: seq<string>, baselineWorld: ReplayWorld, effectiveWorld: ReplayWorld, run: Run)
    requires EvaluateSides(runtime, request, primary, candidate, dependencies, candidateDependencies, baselineWorld, effectiveWorld)
          == Success(run)
    ensures Seal(runtime, primary) == Success(run.wire)
    ensures SealCandidate(runtime, request.candidate, candidate) == Success(run.candidate)
    ensures EvaluateSide(runtime, "baseline", request.goal, primary, Restrict(request.baseline, dependencies), request.baseline, [])
         == Success(run.baseline)
    ensures EvaluateSide(runtime, "effective", request.goal, primary, Restrict(request.effective, dependencies), request.effective,
                         request.closureTargets) == Success(run.effective)
    ensures EvaluateCandidate(runtime, request, candidate, candidateDependencies) == Success(run.candidateEffective)
    ensures run.goal == request.goal && run.baselineWorld == baselineWorld && run.effectiveWorld == effectiveWorld
    ensures WithinLimit(runtime, run.baseline) && WithinLimit(runtime, run.effective)
    ensures run.candidateEffective.Some? ==> WithinLimit(runtime, run.candidateEffective.value)
  {
  }

  lemma EvaluationPieces(runtime: Runtime, request: Request)
    returns (run: Run, primary: Plan, dependencies: seq<string>, candidate: Option<Plan>, candidateDependencies: seq<string>)
    requires EvaluateGoal(runtime, request).Success?
    ensures EvaluateGoal(runtime, request) == Success(run)
    ensures Evaluated(runtime, request, run, primary, dependencies, candidate, candidateDependencies)
  {
    run := EvaluateGoal(runtime, request).value;
    primary := Decode(runtime, request.wire).value;
    candidate := DecodeCandidate(runtime, request.candidate).value;
    dependencies := runtime.dependencies(primary).value;
    candidateDependencies := DependenciesOf(runtime, candidate).value;
    var baselineWorld := CaptureWorld(runtime.schema, request.baseline, []).value;
    var effectiveWorld := CaptureWorld(runtime.schema, request.effective, request.closureTargets).value;
    SidePieces(runtime, request, primary, candidate, dependencies, candidateDependencies, baselineWorld, effectiveWorld, run);
    assert forall p :: p in dependencies ==> p in ElementsOf(dependencies);
  }

  lemma TargetsSealed(runtime: Runtime, relations: Relation, targets: seq<string>)
    requires CaptureWorld(runtime.schema, relations, targets).Success?
    ensures CaptureWorld(runtime.schema, relations, targets).value.closureTargets == targets
  {
  }

  lemma CandidateSealed(runtime: Runtime, request: Request, candidate: Option<Plan>, sealedAs: Option<Candidate>)
    requires DecodeCandidate(runtime, request.candidate) == Success(candidate)
    requires SealCandidate(runtime, request.candidate, candidate) == Success(sealedAs)
    ensures sealedAs == request.candidate
  {
    if request.candidate.Some? {
      SealedPlanDecodes(runtime, request.candidate.value.wire);
    }
  }

  lemma CandidateReplays(runtime: Runtime, request: Request, run: Run, candidate: Option<Plan>, dependencies: seq<string>,
                         effective: Relation)
    requires DecodeCandidate(runtime, request.candidate) == Success(candidate) && run.candidate == request.candidate
    requires DependenciesOf(runtime, candidate) == Success(dependencies) && SameFacts(effective, request.effective)
    requires EvaluateCandidate(runtime, request, candidate, dependencies) == Success(run.candidateEffective)
    requires run.effectiveWorld.closureTargets == request.closureTargets
    ensures ReplayCandidate(runtime, run, candidate, effective)
         == Success(if request.candidate.None? then None else Some(SideReplay("candidate_effective", true, true)))
  {
    if request.candidate.Some? {
      SideReplays(runtime, "candidate_effective", request.candidate.value.goal, candidate.value, dependencies,
                  request.effective, effective, request.closureTargets);
    }
  }

  // The status of a replay whose pieces are known.
  lemma ReplayFromPieces(runtime: Runtime, run: Run, primary: Plan, candidate: Option<Plan>, b: Relation, e: Relation,
                         baseline: SideReplay, effective: SideReplay, other: Option<SideReplay>)
    requires Decode(runtime, run.wire) == Success(primary) && DecodeCandidate(runtime, run.candidate) == Success(candidate)
    requires WorldRelation(runtime.schema, run.baselineWorld) == Success(b)
    requires WorldRelation(runtime.schema, run.effectiveWorld) == Success(e)
    requires ReplaySide(runtime, run.baseline, run.goal, primary, b, run.baselineWorld.closureTargets) == Success(baseline)
    requires ReplaySide(runtime, run.effective, run.goal, primary, e, run.effectiveWorld.closureTargets) == Success(effective)
    requires ReplayCandidate(runtime, run, candidate, e) == Success(other)
    ensures ReplayRun(runtime, run)
         == Success(Report(Matches(baseline) && Matches(effective) && (other.Some? ==> Matches(other.value)), baseline, effective, other))
  {
  }

  /** Replaying a run that was evaluated gives `matched`, for the baseline, the effective and the candidate side. */
  lemma EvaluateThenReplay(runtime: Runtime, request: Request) returns (run: Run)
    requires EvaluateGoal(runtime, request).Success?
    requires CanonicalRelation(runtime.schema, request.baseline) && CanonicalRelation(runtime.schema, request.effective)
    ensures EvaluateGoal(runtime, request) == Success(run)
    ensures ReplayRun(runtime, run)
         == Success(Report(true, SideReplay("baseline", true, true), SideReplay("effective", true, true),
                           if request.candidate.None? then None else Some(SideReplay("candidate_effective", true, true))))
  {
    var primary, dependencies, candidate, candidateDependencies;
    run, primary, dependencies, candidate, candidateDependencies := EvaluationPieces(runtime, request);
    EvaluatedReplays(runtime, request, run, primary, dependencies, candidate, candidateDependencies);
  }

  lemma EvaluatedReplays(runtime: Runtime, request: Request, run: Run, primary: Plan, dependencies: seq<string>,
                         candidate: Option<Plan>, candidateDependencies: seq<string>)
    requires Evaluated(runtime, request, run, primary, dependencies, candidate, candidateDependencies)
    requires CanonicalRelation(runtime.schema, request.baseline) && CanonicalRelation(runtime.schema, request.effective)
    ensures ReplayRun(runtime, run)
         == Success(Report(true, SideReplay("baseline", true, true), SideReplay("effective", true, true),
                           if request.candidate.None? then None else Some(SideReplay("candidate_effective", true, true))))
  {
    SealedPlanDecodes(runtime, request.wire);
    CandidateSealed(runtime, request, candidate, run.candidate);
    WorldRestored(runtime.schema, request.baseline, []);
    WorldRestored(runtime.schema, request.effective, request.closureTargets);
    TargetsSealed(runtime, request.baseline, []);
    TargetsSealed(runtime, request.effective, request.closureTargets);
    var b := WorldRelation(runtime.schema, run.baselineWorld).value;
    var e := WorldRelation(runtime.schema, run.effectiveWorld).value;
    SideReplays(runtime, "baseline", request.goal, primary, dependencies, request.baseline, b, []);
    SideReplays(runtime, "effective", request.goal, primary, dependencies, request.effective, e, request.closureTargets);
    CandidateReplays(runtime, request, run, candidate, candidateDependencies, e);
    ReplayFromPieces(runtime, run, primary, candidate, b, e, SideReplay("baseline", true, true), SideReplay("effective", true, true),
                     if request.candidate.None? then None else Some(SideReplay("candidate_effective", true, true)));
  }
}
