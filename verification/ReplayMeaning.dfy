/**
 What evaluation and replay report: a side is what the engines show, and a replay matches exactly if
 evaluating again from what the run sealed gives what the run declares.
 */
module ReplayMeaning {
  import opened Wrappers
  import opened ReplayWorlds
  import opened ReplayCapture
  import opened ReplayPrograms
  import opened ReplayRuns

  // ---------- one side ----------

  // The facts an engine sees: those of the listed predicates, with their order forgotten.
  ghost predicate SeesExactly(seen: FactSets, relation: Relation, preds: seq<string>) {
    && (forall p :: p in seen <==> p in relation && exists i :: 0 <= i < |preds| && preds[i] == p)
    && (forall p :: p in seen ==> seen[p] == multiset(relation[p]))
  }

  lemma RestrictedFacts(relation: Relation, preds: seq<string>)
    ensures SeesExactly(FactsOf(Restrict(relation, preds)), relation, preds)
  {
  }

  // One frame: the goal judged in the whole world if the engine ran, its own report if it did not.
  ghost predicate Shows(runtime: Runtime, goal: string, o: Observation, targets: seq<string>, world: FactSets, frame: Frame) {
    && frame.engine == o.engine
    && (o.Ran? ==> frame.ResultFrame? && runtime.goalResult(goal, o.output, targets, world) == Success(frame.result))
    && (o.NotRun? ==> frame.OtherFrame? && frame.status == o.status && frame.diagnostic == o.diagnostic)
  }

  lemma {:induction false} FramesShow(runtime: Runtime, goal: string, observations: seq<Observation>, targets: seq<string>,
                                      world: FactSets, frames: seq<Frame>)
    ensures FramesOf(runtime, goal, observations, targets, world) == Success(frames)
      <==> |frames| == |observations|
           && forall i :: 0 <= i < |frames| ==> Shows(runtime, goal, observations[i], targets, world, frames[i])
  {
    if observations == [] {
    } else if frames == [] {
    } else {
      FramesShow(runtime, goal, observations[1..], targets, world, frames[1..]);
      assert frames == [frames[0]] + frames[1..];
      var tail := frames[1..];
      assert forall i :: 0 <= i < |tail| ==> tail[i] == frames[i + 1];
      assert forall i :: 0 <= i < |observations| - 1 ==> observations[1..][i] == observations[i + 1];
      FrameShows(runtime, goal, observations[0], targets, world, frames[0]);
      if |frames| == |observations| {
        AllShowCons(runtime, goal, observations, targets, world, frames);
      }
    }
  }

  lemma FrameShows(runtime: Runtime, goal: string, o: Observation, targets: seq<string>, world: FactSets, frame: Frame)
    ensures FrameOf(runtime, goal, o, targets, world) == Success(frame) <==> Shows(runtime, goal, o, targets, world, frame)
  {
  }

  lemma AllShowCons(runtime: Runtime, goal: string, observations: seq<Observation>, targets: seq<string>, world: FactSets,
                    frames: seq<Frame>)
    requires |frames| == |observations| > 0
    ensures (forall i :: 0 <= i < |frames| ==> Shows(runtime, goal, observations[i], targets, world, frames[i]))
      <==> Shows(runtime, goal, observations[0], targets, world, frames[0])
           && forall i :: 0 <= i < |frames| - 1 ==> Shows(runtime, goal, observations[1..][i], targets, world, frames[1..][i])
  {
    if Shows(runtime, goal, observations[0], targets, world, frames[0])
       && forall i :: 0 <= i < |frames| - 1 ==> Shows(runtime, goal, observations[1..][i], targets, world, frames[1..][i]) {
      forall i | 0 <= i < |frames|
        ensures Shows(runtime, goal, observations[i], targets, world, frames[i])
      {
        if i > 0 {
          assert observations[1..][i - 1] == observations[i] && frames[1..][i - 1] == frames[i];
        }
      }
    }
    if forall i :: 0 <= i < |frames| ==> Shows(runtime, goal, observations[i], targets, world, frames[i]) {
      forall i | 0 <= i < |frames| - 1
        ensures Shows(runtime, goal, observations[1..][i], targets, world, frames[1..][i])
      {
        assert Shows(runtime, goal, observations[i + 1], targets, world, frames[i + 1]);
      }
    }
  }

  /**
   What a side says: one frame for every observation that the plan gives on the facts it may see, by
   exactly the declared engines in order; its result is that of the first engine, which ran.
   */
  ghost predicate SideShows(runtime: Runtime, side: Side, goal: string, plan: Plan, seen: FactSets, world: FactSets,
                            targets: seq<string>) {
    var observed := runtime.observe(plan, seen);
    && observed.Success? && |side.frames| == |observed.value| == |runtime.engines| > 0
    && (forall i :: 0 <= i < |side.frames| ==>
          && Shows(runtime, goal, observed.value[i], targets, world, side.frames[i])
          && side.frames[i].engine == runtime.engines[i])
    && side.frames[0].ResultFrame? && side.result == side.frames[0].result
  }

  lemma EnginesMean(frames: seq<Frame>, engines: seq<string>)
    ensures EnginesOf(frames) == engines
      <==> |frames| == |engines| && forall i :: 0 <= i < |frames| ==> frames[i].engine == engines[i]
  {
    if |frames| == |engines| && forall i :: 0 <= i < |frames| ==> frames[i].engine == engines[i] {
      assert EnginesOf(frames) == engines;
    }
    if EnginesOf(frames) == engines {
      assert forall i :: 0 <= i < |frames| ==> EnginesOf(frames)[i] == frames[i].engine;
    }
  }

  /** Evaluating a side succeeds with a side exactly if that is what the engines show. */
  lemma SideMeaning(runtime: Runtime, side: Side, goal: string, plan: Plan, execution: Relation, world: Relation,
                    targets: seq<string>)
    ensures EvaluateSide(runtime, side.name, goal, plan, execution, world, targets) == Success(side)
      <==> SideShows(runtime, side, goal, plan, FactsOf(execution), FactsOf(world), targets)
  {
    var observed := runtime.observe(plan, FactsOf(execution));
    if observed.Success? {
      FramesShow(runtime, goal, observed.value, targets, FactsOf(world), side.frames);
      EnginesMean(side.frames, runtime.engines);
    }
  }

  // ---------- replaying one side ----------

  /**
   A replayed side matches exactly if evaluating it on the facts of its dependencies gives the declared
   side; its result alone matches exactly if that evaluation gives the declared result.
   */
  lemma ReplayMeaning(runtime: Runtime, declared: Side, goal: string, plan: Plan, relation: Relation, targets: seq<string>,
                      dependencies: seq<string>)
    requires runtime.dependencies(plan) == Success(dependencies)
    requires ReplaySide(runtime, declared, goal, plan, relation, targets).Success?
    ensures var again := EvaluateSide(runtime, declared.name, goal, plan, Restrict(relation, dependencies), relation, targets);
            var replay := ReplaySide(runtime, declared, goal, plan, relation, targets).value;
      && again.Success? && replay.side == declared.name
      && (replay.resultMatch <==> again.value.result == declared.result)
      && (replay.framesMatch <==> again.value.frames == declared.frames)
      && (Matches(replay) <==> again == Success(declared))
  {
  }

  /** A side can be replayed exactly if its dependencies are there and evaluating it succeeds. */
  lemma ReplaySucceeds(runtime: Runtime, declared: Side, goal: string, plan: Plan, relation: Relation, targets: seq<string>)
    ensures ReplaySide(runtime, declared, goal, plan, relation, targets).Success?
      <==> && runtime.dependencies(plan).Success?
           && (forall p :: p in runtime.dependencies(plan).value ==> p in relation)
           && EvaluateSide(runtime, declared.name, goal, plan, Restrict(relation, runtime.dependencies(plan).value), relation,
                           targets).Success?
  {
  }

  // ---------- replaying a run ----------

  // Evaluating a declared side again, in a restored world.
  ghost predicate Reproduced(runtime: Runtime, declared: Side, goal: string, plan: Plan, relation: Relation, targets: seq<string>) {
    && runtime.dependencies(plan).Success?
    && (forall p :: p in runtime.dependencies(plan).value ==> p in relation)
    && EvaluateSide(runtime, declared.name, goal, plan, Restrict(relation, runtime.dependencies(plan).value), relation, targets)
         == Success(declared)
  }

  // The sealed pieces of a run.
  ghost predicate Opened(runtime: Runtime, run: Run, primary: Plan, candidate: Option<Plan>, b: Relation, e: Relation) {
    && Decode(runtime, run.wire) == Success(primary) && DecodeCandidate(runtime, run.candidate) == Success(candidate)
    && WorldRelation(runtime.schema, run.baselineWorld) == Success(b)
    && WorldRelation(runtime.schema, run.effectiveWorld) == Success(e)
  }

  lemma SideReproduced(runtime: Runtime, declared: Side, goal: string, plan: Plan, relation: Relation, targets: seq<string>)
    requires ReplaySide(runtime, declared, goal, plan, relation, targets).Success?
    ensures Matches(ReplaySide(runtime, declared, goal, plan, relation, targets).value)
      <==> Reproduced(runtime, declared, goal, plan, relation, targets)
  {
    ReplaySucceeds(runtime, declared, goal, plan, relation, targets);
    ReplayMeaning(runtime, declared, goal, plan, relation, targets, runtime.dependencies(plan).value);
  }

  lemma CandidateDecoded(runtime: Runtime, run: Run, candidate: Option<Plan>)
    requires DecodeCandidate(runtime, run.candidate) == Success(candidate)
    ensures candidate.Some? <==> run.candidate.Some?
    ensures run.candidate.Some? ==> Decode(runtime, run.candidate.value.wire) == Success(candidate.value)
  {
  }

  /**
   A replay that can be carried out answers matched exactly if the baseline, the effective and, if the
   run has one, the candidate side are each reproduced from the sealed program and worlds.
   */
  lemma ReplayMatchesExactly(runtime: Runtime, run: Run, primary: Plan, candidate: Option<Plan>, b: Relation, e: Relation)
    requires ReplayRun(runtime, run).Success? && Opened(runtime, run, primary, candidate, b, e)
    ensures run.candidate.Some? ==> candidate.Some? && run.candidateEffective.Some?
    ensures ReplayRun(runtime, run).value.matched
      <==> && Reproduced(runtime, run.baseline, run.goal, primary, b, run.baselineWorld.closureTargets)
           && Reproduced(runtime, run.effective, run.goal, primary, e, run.effectiveWorld.closureTargets)
           && (run.candidate.Some? ==>
                 Reproduced(runtime, run.candidateEffective.value, run.candidate.value.goal, candidate.value, e,
                            run.effectiveWorld.closureTargets))
  {
    CandidateDecoded(runtime, run, candidate);
    SideReproduced(runtime, run.baseline, run.goal, primary, b, run.baselineWorld.closureTargets);
    SideReproduced(runtime, run.effective, run.goal, primary, e, run.effectiveWorld.closureTargets);
    if run.candidate.Some? {
      SideReproduced(runtime, run.candidateEffective.value, run.candidate.value.goal, candidate.value, e,
                     run.effectiveWorld.closureTargets);
    }
  }

  /** A run with another baseline result than the one evaluated again is not answered with matched. */
  lemma TamperedResultShows(runtime: Runtime, run: Run, primary: Plan, candidate: Option<Plan>, b: Relation, e: Relation, other: Side)
    requires ReplayRun(runtime, run).Success? && Opened(runtime, run, primary, candidate, b, e)
    requires Reproduced(runtime, other, run.goal, primary, b, run.baselineWorld.closureTargets)
    requires other.name == run.baseline.name && other.result != run.baseline.result
    ensures !ReplayRun(runtime, run).value.matched && !ReplayRun(runtime, run).value.baseline.resultMatch
  {
    ReplayMatchesExactly(runtime, run, primary, candidate, b, e);
    var dependencies := runtime.dependencies(primary).value;
    ReplayMeaning(runtime, run.baseline, run.goal, primary, b, run.baselineWorld.closureTargets, dependencies);
  }

  // ---------- evaluating a goal ----------

  // A side of the run: what the engines show on the dependencies, within the row limit.
  ghost predicate SideOf(runtime: Runtime, side: Side, name: string, goal: string, plan: Plan, world: Relation,
                         dependencies: seq<string>, targets: seq<string>) {
    && side.name == name && side.result.rowCount <= runtime.rowLimit
    && SideShows(runtime, side, goal, plan, FactsOf(Restrict(world, dependencies)), FactsOf(world), targets)
  }

  // Every side of the run is what the engines show in the requested worlds.
  ghost predicate SidesShown(runtime: Runtime, request: Request, run: Run, primary: Plan, dependencies: seq<string>,
                             candidate: Option<Plan>, candidateDependencies: seq<string>) {
    && SideOf(runtime, run.baseline, "baseline", request.goal, primary, request.baseline, dependencies, [])
    && SideOf(runtime, run.effective, "effective", request.goal, primary, request.effective, dependencies, request.closureTargets)
    && (run.candidateEffective.Some? <==> request.candidate.Some?)
    && (request.candidate.Some? ==>
          && candidate.Some?
          && SideOf(runtime, run.candidateEffective.value, "candidate_effective", request.candidate.value.goal, candidate.value,
                    request.effective, candidateDependencies, request.closureTargets))
  }

  lemma OneSide(runtime: Runtime, name: string, goal: string, plan: Plan, world: Relation, dependencies: seq<string>,
                targets: seq<string>, side: Side)
    requires EvaluateSide(runtime, name, goal, plan, Restrict(world, dependencies), world, targets) == Success(side)
    requires WithinLimit(runtime, side)
    ensures SideOf(runtime, side, name, goal, plan, world, dependencies, targets)
  {
    assert side.name == name;
    SideMeaning(runtime, side, goal, plan, Restrict(world, dependencies), world, targets);
  }

  lemma CandidateSide(runtime: Runtime, request: Request, candidate: Option<Plan>, dependencies: seq<string>, side: Option<Side>)
    requires DecodeCandidate(runtime, request.candidate) == Success(candidate)
    requires EvaluateCandidate(runtime, request, candidate, dependencies) == Success(side)
    ensures side.Some? <==> request.candidate.Some?
    ensures side.Some? ==>
      && candidate.Some?
      && EvaluateSide(runtime, "candidate_effective", request.candidate.value.goal, candidate.value,
                      Restrict(request.effective, dependencies), request.effective, request.closureTargets) == Success(side.value)
  {
  }

  lemma PiecesShown(runtime: Runtime, request: Request, run: Run, primary: Plan, dependencies: seq<string>,
                    candidate: Option<Plan>, candidateDependencies: seq<string>)
    requires Evaluated(runtime, request, run, primary, dependencies, candidate, candidateDependencies)
    ensures SidesShown(runtime, request, run, primary, dependencies, candidate, candidateDependencies)
  {
    OneSide(runtime, "baseline", request.goal, primary, request.baseline, dependencies, [], run.baseline);
    OneSide(runtime, "effective", request.goal, primary, request.effective, dependencies, request.closureTargets, run.effective);
    CandidateSide(runtime, request, candidate, candidateDependencies, run.candidateEffective);
    if request.candidate.Some? {
      OneSide(runtime, "candidate_effective", request.candidate.value.goal, candidate.value, request.effective,
              candidateDependencies, request.closureTargets, run.candidateEffective.value);
    }
  }

  /** The sides of an evaluated run are what the engines show in the requested worlds. */
  lemma EvaluatedSides(runtime: Runtime, request: Request)
    returns (run: Run, primary: Plan, dependencies: seq<string>, candidate: Option<Plan>, candidateDependencies: seq<string>)
    requires EvaluateGoal(runtime, request).Success?
    ensures EvaluateGoal(runtime, request) == Success(run)
    ensures Evaluated(runtime, request, run, primary, dependencies, candidate, candidateDependencies)
    ensures SidesShown(runtime, request, run, primary, dependencies, candidate, candidateDependencies)
  {
    run, primary, dependencies, candidate, candidateDependencies := EvaluationPieces(runtime, request);
    PiecesShown(runtime, request, run, primary, dependencies, candidate, candidateDependencies);
  }

  // ---------- when a goal evaluates ----------

  // A side evaluates within the row limit.
  ghost predicate CanShow(runtime: Runtime, name: string, goal: string, plan: Plan, world: Relation, dependencies: seq<string>,
                          targets: seq<string>) {
    exists side :: SideOf(runtime, side, name, goal, plan, world, dependencies, targets)
  }

  lemma SideEvaluates(runtime: Runtime, name: string, goal: string, plan: Plan, world: Relation, dependencies: seq<string>,
                      targets: seq<string>, r: Result<Side, string>)
    requires r == EvaluateSide(runtime, name, goal, plan, Restrict(world, dependencies), world, targets)
    ensures CanShow(runtime, name, goal, plan, world, dependencies, targets) <==> r.Success? && WithinLimit(runtime, r.value)
  {
    if r.Success? && WithinLimit(runtime, r.value) {
      OneSide(runtime, name, goal, plan, world, dependencies, targets, r.value);
    }
    if side :| SideOf(runtime, side, name, goal, plan, world, dependencies, targets) {
      SideMeaning(runtime, side, goal, plan, Restrict(world, dependencies), world, targets);
    }
  }

  // The sealed program is the one that was decoded, so sealing it again succeeds.
  lemma SealingSucceeds(runtime: Runtime, request: Request, primary: Plan, candidate: Option<Plan>)
    requires Decode(runtime, request.wire) == Success(primary) && DecodeCandidate(runtime, request.candidate) == Success(candidate)
    ensures Seal(runtime, primary).Success? && SealCandidate(runtime, request.candidate, candidate).Success?
    ensures candidate.Some? <==> request.candidate.Some?
  {
    SealedPlanDecodes(runtime, request.wire);
    if request.candidate.Some? {
      SealedPlanDecodes(runtime, request.candidate.value.wire);
    }
  }

  lemma SidesSteps(runtime: Runtime, request: Request, primary: Plan, candidate: Option<Plan>, dependencies: seq<string>,
                   candidateDependencies: seq<string>, b: ReplayWorld, e: ReplayWorld,
                   baseline: Result<Side, string>, effective: Result<Side, string>, other: Result<Option<Side>, string>)
    requires Seal(runtime, primary).Success? && SealCandidate(runtime, request.candidate, candidate).Success?
    requires baseline == EvaluateSide(runtime, "baseline", request.goal, primary,
                                      Restrict(request.baseline, dependencies), request.baseline, [])
    requires effective == EvaluateSide(runtime, "effective", request.goal, primary,
                                       Restrict(request.effective, dependencies), request.effective, request.closureTargets)
    requires other == EvaluateCandidate(runtime, request, candidate, candidateDependencies)
    ensures EvaluateSides(runtime, request, primary, candidate, dependencies, candidateDependencies, b, e).Success?
      <==> && baseline.Success? && effective.Success? && other.Success?
           && WithinLimit(runtime, baseline.value) && WithinLimit(runtime, effective.value)
           && (other.value.Some? ==> WithinLimit(runtime, other.value.value))
  {
  }

  ghost predicate CandidateEvaluates(runtime: Runtime, request: Request, candidate: Option<Plan>, dependencies: seq<string>) {
    request.candidate.Some? ==>
      && candidate.Some?
      && (forall p :: p in dependencies ==> p in request.effective)
      && CanShow(runtime, "candidate_effective", request.candidate.value.goal, candidate.value, request.effective, dependencies,
                 request.closureTargets)
  }

  lemma CandidateSteps(runtime: Runtime, request: Request, candidate: Option<Plan>, dependencies: seq<string>,
                       other: Result<Option<Side>, string>)
    requires candidate.Some? <==> request.candidate.Some?
    requires other == EvaluateCandidate(runtime, request, candidate, dependencies)
    ensures CandidateEvaluates(runtime, request, candidate, dependencies)
      <==> other.Success? && (other.value.Some? ==> WithinLimit(runtime, other.value.value))
  {
    if request.candidate.Some? {
      var r := EvaluateSide(runtime, "candidate_effective", request.candidate.value.goal, candidate.value,
                            Restrict(request.effective, dependencies), request.effective, request.closureTargets);
      SideEvaluates(runtime, "candidate_effective", request.candidate.value.goal, candidate.value, request.effective,
                    dependencies, request.closureTargets, r);
    }
  }

  /** The sides of a request evaluate exactly if each of them does, within the row limit. */
  lemma SidesSucceed(runtime: Runtime, request: Request, primary: Plan, candidate: Option<Plan>, dependencies: seq<string>,
                     candidateDependencies: seq<string>, b: ReplayWorld, e: ReplayWorld)
    requires Decode(runtime, request.wire) == Success(primary) && DecodeCandidate(runtime, request.candidate) == Success(candidate)
    ensures EvaluateSides(runtime, request, primary, candidate, dependencies, candidateDependencies, b, e).Success?
      <==> && CanShow(runtime, "baseline", request.goal, primary, request.baseline, dependencies, [])
           && CanShow(runtime, "effective", request.goal, primary, request.effective, dependencies, request.closureTargets)
           && CandidateEvaluates(runtime, request, candidate, candidateDependencies)
  {
    SealingSucceeds(runtime, request, primary, candidate);
    var baseline := EvaluateSide(runtime, "baseline", request.goal, primary, Restrict(request.baseline, dependencies), request.baseline, []);
    var effective := EvaluateSide(runtime, "effective", request.goal, primary, Restrict(request.effective, dependencies),
                                  request.effective, request.closureTargets);
    var other := EvaluateCandidate(runtime, request, candidate, candidateDependencies);
    SideEvaluates(runtime, "baseline", request.goal, primary, request.baseline, dependencies, [], baseline);
    SideEvaluates(runtime, "effective", request.goal, primary, request.effective, dependencies, request.closureTargets, effective);
    CandidateSteps(runtime, request, candidate, candidateDependencies, other);
    SidesSteps(runtime, request, primary, candidate, dependencies, candidateDependencies, b, e, baseline, effective, other);
  }

  /**
   A request whose program decodes evaluates exactly if both worlds can be captured, the baseline holds
   exactly what the plans and the scenario depend on, the effective world holds what the primary plan
   depends on, and the sides evaluate.
   */
  lemma EvaluationSucceeds(runtime: Runtime, request: Request, primary: Plan, candidate: Option<Plan>, dependencies: seq<string>,
                           candidateDependencies: seq<string>, b: Result<ReplayWorld, string>, e: Result<ReplayWorld, string>)
    requires Decode(runtime, request.wire) == Success(primary) && DecodeCandidate(runtime, request.candidate) == Success(candidate)
    requires runtime.dependencies(primary) == Success(dependencies)
    requires DependenciesOf(runtime, candidate) == Success(candidateDependencies)
    requires b == CaptureWorld(runtime.schema, request.baseline, [])
    requires e == CaptureWorld(runtime.schema, request.effective, request.closureTargets)
    ensures EvaluateGoal(runtime, request).Success?
      <==> && b.Success? && e.Success? && (forall p :: p in dependencies ==> p in request.effective)
           && (forall p :: p in request.baseline <==>
                 p in dependencies || p in candidateDependencies || p in request.scenarioDependencies)
           && EvaluateSides(runtime, request, primary, candidate, dependencies, candidateDependencies, b.value, e.value).Success?
  {
    KeysListed(request.baseline, dependencies, candidateDependencies, request.scenarioDependencies);
  }

  lemma KeysListed(relation: Relation, a: seq<string>, b: seq<string>, c: seq<string>)
    ensures relation.Keys == ElementsOf(a) + ElementsOf(b) + ElementsOf(c)
      <==> forall p :: p in relation <==> p in a || p in b || p in c
  {
    if forall p :: p in relation <==> p in a || p in b || p in c {
      assert forall p :: p in relation.Keys <==> p in ElementsOf(a) + ElementsOf(b) + ElementsOf(c);
    }
  }
}
