# A verified model of FactGraph's write path, evaluator, replay and receipts

FactGraph keeps facts in an append-only ledger, evaluates rule bodies over the visible facts, and seals evaluations
so that they can be checked and replayed without the store. This project models the parts of that machinery where
several loops and indexes have to agree, and proves what they promise.

`dafny verify dfyconfig.toml` checks everything.

## What is modelled

- **Ledger writes** (`Ledger`, `BatchCommit`, `Database`, `Planner`, then `BatchProperties`, `BatchSuccess`,
  `RepeatBatch`, `IdentityBundles`, `PlanContents`, `PlannedEffects`, `RunEffects`). The ledger is a list of claims, a
  map from revoked claims to their revokers and a counter of fresh ids; a commit is atomic. A batch of planned
  operations is coalesced by ingest key and by revocation target, guarded, and committed at most once. Plans are made
  against the ledger of the moment and applied later, possibly more than once, in any interleaving.
- **The native evaluator** (`WhereEval`, with `Frontiers` and `WinningCases`). Environments are extended atom by atom
  over `pred`, `eq`, `ne`, comparison, `in`, arithmetic and `not`, including the errors each atom can raise, the
  validator's safety conditions, the look-up index, the error of sorting bindings whose values cannot be ordered, and
  the check of a binding against the branches.
- **What a body means** (`Semantics`, `AtomMeaning`, `BodyMeaning`, `WhereMeaning`, `DiagnosisMeaning`): when a binding
  satisfies an atom, solves a branch and a body, and when one raises, told without the evaluator's functions; evaluation,
  checks, matches and diagnosis are these.
- **Diagnosis** (`Seeding`, `SeededBranches`, `SeedingLimits`, `TextRequests`, `IntegerReadings`, `EarlyNegation`,
  `TextInsideNegation`, `SeedingConditions`, `Diagnose`): matching a requested binding, locating the atom at which a frontier seeded with the
  request dies out, and exactly when seeding is filtering.
- **The work gate** (`Estimate`, `EstimateMeaning`, `WorkGate`, `CostMeaning`, `FullScans`,
  `ScanMeaning`): the saturating estimate,
  what it counts, what verification inspects and scans, and the bounds.
- **Overlays** (`Overlay`, `OverlayAlgebra`, `OverlayMeaning`, `OverlayCheck`, `OverlayReport`): hypothetical replacement
  and removal of visible facts.
- **Codecs** (`Base64Url`, `Base64Alphabet`, `StringOrder`, `StructuralCodec`, `FloatTexts`, `CodecExactness`,
  `WireFormat`, `StructuralDecoder`): unpadded base64url and the tagged tree codec with its depth limit and shared node budget.
- **Sealed replay** (`ReplayWorlds`, `ReplayCapture`, `CaptureMeaning`, `ReplayPrograms`, `ReplayRuns`, `ReplayMeaning`)
  and **isolated replay** (`IsolatedReplay`).
- **Receipts** (`ReceiptKeys`, `Receipts`, `ReceiptCheck`, `ReceiptPlayback`, `ReceiptMeaning`): the indexed static check
  and its two consumers.
- **Entity views** (`EntityView`, `RefCache`, `SnapshotContents`, `SnapshotMeaning`, `HydrationSuccess`, `FindMeaning`):
  hydration with a shared reference cache, and what a snapshot and a find request hold.

Loops that fill lists and tables are methods proved against functions; the theorems are lemmas about those functions.
Digests are abstract functions or plain equality of what they digest (they are taken to be injective). Other
parameters stand for code or services whose definition the model does not need: canonical storage forms of scalars,
the grammar of plan bodies, the engines, goal results, materialized identities, the total order of environment sort
keys and the one of bindings, and the type an encoded reference names. Sorting distinct bindings is taken to raise if
and only if two of them cannot be ordered.

## What the code does not promise

Seven expectations turned out to be false of the code. Each is stated with an input that breaks it and, where a
condition decides it, with the exact condition.

- Starting the frontier from the requested binding is not filtering the evaluated bindings when a decimal string is
  requested for a variable first bound by arithmetic: the arithmetic check accepts `"5"` for 5, but no evaluated
  binding equals `"5"` (`DecimalStringDiverges`). `FirstTextOutput` says exactly when the frontier survives that atom and
  when it raises, for every branch. `SeedingExactness` says exactly when seeding is still filtering, for branches that
  use such a variable only where it is coerced (in comparisons and arithmetic).
- It is not filtering either when a `not` body uses a requested variable that the branch binds only later
  (`EarlyNegationDiverges`). No match is lost then, and `NegationExactness` says which survivors are no matches.
- A match is lost when a decimal string is requested for a variable that arithmetic inside `not` binds first
  (`TextInsideNegationDiverges`), which `NegationIntegersRequested` excludes.
- Repeating a batch can change reported ids when a set key has two active assertions and the first is retracted
  (`RepeatCanChangeIds`); `RepeatReportsSameIds` gives the condition.
- A removal-only overlay can report an added binding (`AdditionReported`), because the difference compares only the
  primary matches. It does exactly when the former primary match is gone and another remains; that one matched all along
  (`RemovalDiff`).
- A find request with limit zero yields one item (`FindAtLimitZero`, with `OneVisible` for an input); `LimitIsPrefix`
  gives the condition.
- The work estimate covers the tuples that are compared with conditions (`InspectionBounded`, met by `EstimateIsTight`),
  but not all the facts that are scanned: arity checks, look-up indexes and copies into views come on top
  (`EstimateExceeded`). Twice the estimate covers everything (`ScannedBounded`), and no smaller multiple does.

## Model

| member | source | states |
|---|---|---|
| `Ledgers.CommitActive` | src/factgraph/core/store/database.py:1171-1425 | after an atomic commit a fact's active ids are the old ones that were not revoked, and the fresh ids of its new assertions |
| `Ledgers.CommitKeepsValid` | src/factgraph/core/store/database.py:1552-1595 | a commit keeps ids unique and below the counter, and every revoker recorded once |
| `BatchCommit.ResolveOk` | src/factgraph/application/entity_write.py:391-452 | the coalescing tables are inverse to the kept lists and every operation is resolved to its own input: an existing id, or the index of its kept assertion or revocation |
| `BatchProperties.ResolveCount` | src/factgraph/application/entity_write.py:421-439 | the kept assertions number the add operations plus the distinct set keys that need one |
| `BatchProperties.BatchActive` | src/factgraph/application/entity_write.py:391-468 | for every fact, the active set after the batch is the old one without the retracted targets, plus new assertions, each of a fact that some set or add operation of the batch asks for; ids are fresh |
| `BatchProperties.BatchReports` | src/factgraph/application/entity_write.py:453-468 | a set operation reports an id with its ingest key that is active afterwards, an add operation its own fresh id, a retraction the revoker of its target |
| `BatchProperties.NeededMeansNoSurvivor` | src/factgraph/application/entity_write.py:426-436 | with at most one active assertion per key, a set needs a new assertion exactly when none survives the batch |
| `BatchProperties.BatchKeepsUnique` | src/factgraph/application/entity_write.py:391-468 | a batch without add operations on a key keeps at most one active assertion for it |
| `BatchSuccess.GuardMeans` | src/factgraph/application/retract_guard.py:115-159 | the guard refuses exactly revokers, claims of an identity predicate of some type and claims of an exists predicate, each with its own code, in this order; field claims and unknown ids pass |
| `BatchSuccess.BatchSucceeds` | src/factgraph/application/entity_write.py:386-468 | a batch commits if and only if its operations translate, every target not yet revoked is a claim, under the guard none of these is protected, and nothing it has to assert is in the system namespace |
| `BatchSuccess.BatchError` | src/factgraph/application/entity_write.py:386-468 | otherwise the error is, in this order: an operation that does not translate, the guard's code for the first protected target, the reserved namespace, an unknown target |
| `DatabaseRoute.Database.PlannedOpsToInputs` | src/factgraph/application/entity_write.py:82-157 | operations become assertion and revocation inputs in order, or nothing if one of them does not translate |
| `DatabaseRoute.Database.CommitPlannedOps` | src/factgraph/application/entity_write.py:378-468 | the loop over operations with its tables and two cursors equals the batch specification, error code included, and a failed batch leaves the ledger as it was |
| `DatabaseRoute.SliceResults` | src/factgraph/application/entity_write.py:335-365 | the per-plan slices have the plans' lengths and concatenate back to the flat list of reported ids |
| `DatabaseRoute.Database.ApplyWritePlans` | src/factgraph/application/entity_write.py:307-375 | several plans are one guarded transaction: all applied with their own ids, or none, each with the error code of the batch |
| `RepeatBatch.RepeatCommitsNothing` | src/factgraph/application/entity_write.py:391-461 | a successful batch without adds, run again, keeps nothing, commits nothing and leaves the ledger as it is |
| `RepeatBatch.RepeatReportsSameIds` | src/factgraph/application/entity_write.py:391-461 | the second run reports the same ids in the same order if and only if no set key had another active assertion behind a retracted one |
| `RepeatBatch.RepeatIsNoOp` | src/factgraph/application/entity_write.py:391-482 | with unique active assertions per set key, repeating a batch is a no-op that reports the same ids, even if it retracts and re-sets one value |
| `RepeatBatch.RepeatCanChangeIds` | src/factgraph/application/entity_write.py:481-485 | two active copies of a fact, the first retracted and the fact set again: the second run reports another id |
| `Planner.PlanDependenciesAndMutations` | src/factgraph/application/entity_write.py:829-915 | the planning loop with its two lists and its set of materialized references equals planning mutation by mutation |
| `PlanContents.DraftContents` | src/factgraph/application/entity_write.py:829-1048 | mutations are planned if and only if each is accepted, otherwise with the code of the first that is not; each comes to its own retract, add or set operation in order, and the dependencies are the identity bundles of the missing entities referred to, each where it is first referred to |
| `PlanContents.WritePlanned` | src/factgraph/application/entity_write.py:194-254 | a write is planned if and only if its target is identified, its mutations are accepted, and the target has an active field or may be created; the plan is the dependencies, the missing target's bundle unless a dependency makes it, and the changes |
| `PlanContents.CreatePlanned` | src/factgraph/application/entity_write.py:488-560 | a create plan is the whole identity bundle, in order, of an entity without an active field; otherwise the entity exists already |
| `PlanContents.DeletePlanned` | src/factgraph/application/entity_write.py:643-709 | a delete plan retracts every active claim of a visible entity once, in the order of the ledger |
| `PlannedEffects.PlanAsks` | src/factgraph/application/entity_write.py:194-254 | a write plan asks for exactly the facts that its command assigns and the identity facts of what it makes, and takes back exactly the ids it retracts |
| `PlannedEffects.WriteTakesEffect` | src/factgraph/application/entity_write.py:307-468 | however late a write plan is committed, every fact its command writes is then active, every id it retracts is revoked, and no other fact is asserted and no other id revoked |
| `PlannedEffects.PlannedWriteCommits` | src/factgraph/application/entity_write.py:307-468 | on the ledger it was planned for, with predicates as the schema makes them, a write plan is committed if and only if its values and metadata translate |
| `IdentityBundles.MaterializationOk` | src/factgraph/application/entity_write.py:991-1017 | materializing an entity sets its whole identity bundle together |
| `IdentityBundles.PlanWriteOk` | src/factgraph/application/entity_write.py:194-254 | a write plan touches identity fields only by whole bundles |
| `IdentityBundles.PlanDeleteOk` | src/factgraph/application/entity_write.py:643-709 | a delete plan retracts all or none of the active claims of every bundle |
| `IdentityBundles.GuardedSparesIdentity` | src/factgraph/application/entity_write.py:1091-1139 | a guarded batch never revokes an active identity claim |
| `IdentityBundles.NextKeepsInv` | src/factgraph/application/entity_write.py:194-375 | every step, planning or applying, keeps the ledger invariant and every outstanding plan harmless |
| `IdentityBundles.BundlesStayWhole` | src/factgraph/application/entity_write.py:386-452 | from an empty database, in any interleaving of create, write, batch and delete plan and apply steps, each entity and metadata has exactly one active claim for every identity field or for none |
| `IdentityBundles.OnlyDeleteRevokesIdentity` | src/factgraph/application/entity_write.py:712-782 | if a step takes away an identity claim it is a whole-entity delete, and then the whole bundle is gone |
| `RunEffects.WritesTakeEffect` | src/factgraph/application/entity_write.py:307-375 | applying write plans leaves the world as it is or makes exactly what the selected plans ask for active and revoked |
| `RunEffects.WrittenLate` | src/factgraph/application/entity_write.py:194-375 | a write planned now and applied after any further events makes what it writes active and what it retracts revoked, or is refused as a whole |
| `RunEffects.CreatedLate` | src/factgraph/application/entity_write.py:488-640 | a create planned now and applied after any further events makes every identity field of the entity active, or is refused as a whole |
| `RunEffects.DeletedLate` | src/factgraph/application/entity_write.py:643-782 | a delete planned now and applied after any further events revokes everything that was active of the entity, or is refused as a whole |
| `Seeding.CandidatesEnough` | src/factgraph/core/rules/where_eval.py:1102-1132 | the look-up index hides no matching row: scanning its candidates gives the environments of a full scan |
| `Semantics.DecimalReads` | src/factgraph/core/rules/where_eval.py:703-724 | decimal text stands for its integer wherever an atom reads an integer |
| `AtomMeaning.StepExact` | src/factgraph/core/rules/where_eval.py:471-937 | an atom outside `not` extends an environment by exactly the bindings of its variables that satisfy it: a visible row, equality or inequality of values, an order of integers, membership, or an integer sum, difference, negation or product |
| `AtomMeaning.StepRaises` | src/factgraph/core/rules/where_eval.py:471-937 | and it raises exactly for an unknown predicate, a row of another arity, or a comparison or arithmetic on a value that is no integer |
| `BodyMeaning.NotExact` | src/factgraph/core/rules/where_eval.py:657-700 | a `not` keeps an environment if and only if none of its bodies has a satisfying extension, and raises exactly if its bodies share a bound variable unequally or one tried before raises |
| `WhereMeaning.BranchMeaning` | src/factgraph/core/rules/where_eval.py:425-468 | a branch raises if and only if some atom raises on an environment that solves the atoms before it; otherwise it yields exactly the environments that solve all its atoms |
| `WhereMeaning.EvaluationMeaning` | src/factgraph/core/rules/where_eval.py:50-97 | a body fails to evaluate if and only if it is not valid, a branch raises, or two solutions cannot be ordered; otherwise it yields exactly the solutions of its branches, each once |
| `WhereMeaning.SafeBranchMeans` | src/factgraph/core/rules/where_ast_validate.py:388-510 | the validator admits a branch if and only if each atom is admitted with what the atoms before it bind: a side to bind from, operands that are bound, and `not` bodies that read something bound |
| `Seeding.ExtendGrows` | src/factgraph/core/rules/where_eval.py:471-937 | every extension keeps its environment and binds exactly the atom's variables |
| `Seeding.ExtendSeeded` | src/factgraph/application/diagnose_runtime.py:258-300 | extending an environment merged with the request gives exactly the compatible extensions, merged |
| `SeededBranches.SeedingEqualsFiltering` | src/factgraph/application/diagnose_runtime.py:220-255 | a frontier started from the requested binding ends in exactly the environments of the unseeded run that pass the subset match, for branches with and without negation |
| `SeedingLimits.SafeIsSeedSafe` | src/factgraph/core/rules/where_ast_validate.py:388-510 | what the validator admits is safe to seed, up to the two stated conditions |
| `TextRequests.FirstTextOutput` | src/factgraph/core/rules/where_eval.py:852-937 | up to the first arithmetic output requested as something else than an integer the seeded frontier is the merged unseeded one; it survives that atom if and only if some environment that agrees with the request computes the requested value's integer, and raises if and only if the value stands for no integer and some environment agrees |
| `IntegerReadings.BranchRewritten` | src/factgraph/core/rules/where_eval.py:703-730 | where a branch uses variables only through coercion, running it from decimal strings is running it from their integers, with the strings put back, errors included |
| `IntegerReadings.SeedingExactness` | src/factgraph/application/diagnose_runtime.py:160-164 | seeding is filtering if integers are requested for arithmetic outputs; otherwise nothing evaluated matches, and where the branch only coerces those outputs, seeding is filtering if and only if no environment agrees with the request read as integers |
| `IntegerReadings.NoneReadsBindings` | src/factgraph/application/diagnose_runtime.py:160-164 | if every such request is a decimal string, that condition is that no evaluated binding matches the request read as integers |
| `EarlyNegation.MatchesAmongSurvivors` | src/factgraph/core/rules/where_eval.py:657-700 | frontier by frontier, the unseeded environments merged with the request are the seeded ones that pass each `not` with the request's not yet bound variables dropped |
| `EarlyNegation.NegationExactness` | src/factgraph/application/diagnose_runtime.py:220-255 | wherever `not` bodies use the request, the evaluated matches are exactly those survivors; no match is lost, and seeding is filtering if and only if all survivors are such |
| `SeedingConditions.AdmittedSeeding` | src/factgraph/application/diagnose_runtime.py:220-255 | a branch the validator admits, run from a request, ends in exactly the solutions that have every requested item, if integers are requested for what arithmetic first binds and requested variables of `not` bodies are bound before |
| `SeedingConditions.AdmittedNegations` | src/factgraph/application/diagnose_runtime.py:220-255 | without the second condition, but with integers for what arithmetic in `not` bodies first binds, these solutions are exactly the survivors that pass each `not` with the variables bound by then |
| `TextInsideNegation.TextInsideNegationDiverges` | src/factgraph/core/rules/where_eval.py:657-724 | p(5), q("5"), r("5"), the branch p(x), not (z = x + 0, q(z)), r(z) and the request z = "5": a match, yet the seeded frontier dies out |
| `SeedingLimits.DecimalStringDiverges` | src/factgraph/core/rules/where_eval.py:715-724 | p(5), z = x + 0 and the request z = "5": nothing matches, yet the seeded frontier survives |
| `SeedingLimits.EarlyNegationDiverges` | src/factgraph/core/rules/where_eval.py:657-700 | p(5), q(5,3), r(2), the branch p(x), not q(x,y), r(y) and the request y = 2: no binding, yet the seeded frontier survives |
| `Diagnose.FailsOnce` | src/factgraph/application/diagnose_runtime.py:231-255 | a branch fails at one atom at most, and not if it runs through |
| `Diagnose.FailsOrRuns` | src/factgraph/application/diagnose_runtime.py:231-255 | a branch evaluated without error runs through or fails at some atom |
| `Diagnose.DedupeKeepsFrontier` | src/factgraph/application/diagnose_runtime.py:303-315 | which atom fails does not depend on repetition or order in the frontier |
| `Diagnose.DedupeEnvs` | src/factgraph/application/diagnose_runtime.py:307-311 | the same environments, each once, in key order |
| `Diagnose.PrimaryEnv` | src/factgraph/application/diagnose_runtime.py:303-304 | the least environment of a non-empty frontier |
| `Diagnose.LocalizeBranch` | src/factgraph/application/diagnose_runtime.py:235-250 | a located atom has a non-empty frontier before it and an empty one after it, and the attempted binding is the least environment before it; None means that the branch runs through |
| `Diagnose.LocalizeFailedAtom` | src/factgraph/application/diagnose_runtime.py:220-255 | no considered branch fails deeper than the reported atom, ties go to the smallest branch, and None is returned exactly when every considered branch runs through |
| `Diagnose.DiagnoseNative` | src/factgraph/application/diagnose_runtime.py:119-217 | unknown variables are refused; otherwise it raises if and only if evaluation does, or some match has no winning case, or nothing matches and running a considered branch raises; matches are reported with their number and the least one of the smallest winning case, and without a match the deepest failure or that none exists |
| `Diagnose.FirstMatch` | src/factgraph/application/diagnose_runtime.py:166-187 | the match of the smallest winning case, the least one of those |
| `Diagnose.LocatedMeansNoMatch` | src/factgraph/application/diagnose_runtime.py:220-255 | a branch with a failing atom has no evaluated match, wherever its `not` bodies use the request |
| `Diagnose.NoMatchMeansLocated` | src/factgraph/application/diagnose_runtime.py:160-191 | when nothing matches, every branch that binds all requested variables has a failing atom |
| `DiagnosisMeaning.PassedMeaning` | src/factgraph/application/diagnose_runtime.py:160-191 | diagnosis passes if and only if some solution of the body has every requested item, and the reported match is one |
| `DiagnosisMeaning.FailsMeaning` | src/factgraph/application/diagnose_runtime.py:231-255 | a branch fails at an atom if and only if nothing raises up to it, something extends the request to a solution of the atoms before it, and nothing to one of that atom too |
| `DiagnosisMeaning.ConsideredMeans` | src/factgraph/application/diagnose_runtime.py:227-233 | a branch is passed over if and only if something is requested and no atom of the branch outside `not` mentions any of it |
| `DiagnosisMeaning.NotHoldsMeaning` | src/factgraph/core/store/_support_capture.py:498-506 | checking a `not` says whether no body has a satisfying extension, and raises as its bodies do |
| `DiagnosisMeaning.WinningMeaning` | src/factgraph/core/store/_support_capture.py:153-175 | the winning case is the first branch all of whose atoms the binding satisfies |
| `Estimate.SaturatingMultiply` | src/factgraph/application/evaluation_run_verification_runtime.py:429-434 | the product cut off just above the limit, whatever the division test decides |
| `Estimate.EstimateExpression` | src/factgraph/application/evaluation_run_verification_runtime.py:351-359 | the saturated binding bound of an AND body or of the sum over OR branches, `not` and aggregates nested to any depth |
| `Estimate.EstimateAtoms` | src/factgraph/application/evaluation_run_verification_runtime.py:362-366 | the saturated product of atom factors, although some factors are themselves not saturated |
| `Estimate.EstimateTerms` | src/factgraph/application/evaluation_run_verification_runtime.py:383-391 | the saturated product over aggregate terms |
| `Estimate.EstimateVerificationWork` | src/factgraph/application/evaluation_run_verification_runtime.py:319-348 | min(100001, (B + rows) * 3 * max(1, conditions) * max(1, facts)) in unbounded arithmetic; a negative row count is refused |
| `Estimate.EstimateMonotone` | src/factgraph/application/evaluation_run_verification_runtime.py:319-434 | more facts of any predicate, or more rows, never lower the estimate |
| `EstimateMeaning.BodyBoundMeans` | src/factgraph/application/evaluation_run_verification_runtime.py:351-391 | the binding bound is the sum over branches of the product of atom factors: facts of the predicate, bindings of a `not` body, values of a membership, and the bound of each aggregate's filter, each at least one |
| `EstimateMeaning.ConditionsCount` | src/factgraph/application/evaluation_run_verification_runtime.py:394-422 | the condition count is the number of atoms in the body tree, those inside `not` bodies and aggregates included |
| `WorkGate.PrefixBounded` | src/factgraph/application/evaluation_run_verification_runtime.py:362-380 | after any prefix of a branch there are at most as many environments as the product of its atom factors |
| `WorkGate.BindingsBounded` | src/factgraph/application/evaluation_run_verification_runtime.py:332-335 | a body yields at most as many bindings as the binding bound |
| `WorkGate.InspectionBounded` | src/factgraph/application/evaluation_run_verification_runtime.py:332-348 | the tuples compared by evaluation, by the search for winning branches and by rebuilding receipts, for all bindings and captured rows, never exceed the unsaturated estimate |
| `CostMeaning.CandidatesMean` | src/factgraph/core/rules/where_eval.py:1102-1132 | the rows tried are those equal to the atom at every constant and every bound variable, in order |
| `CostMeaning.InspectedMeans` | src/factgraph/application/evaluation_run_verification_runtime.py:58-122 | what is inspected: the branch of every captured row rebuilt, the branches run until one raises, and for every binding the branches checked until one holds, which is then rebuilt |
| `FullScans.ScannedBounded` | src/factgraph/core/rules/where_eval.py:484-490 | with arity checks, one look-up index per key and branch, and a copy of all facts for every binding counted too, everything scanned stays within twice the unsaturated estimate |
| `ScanMeaning.ScannedMeans` | src/factgraph/core/rules/where_eval.py:471-519 | what is scanned: rebuilt branches; for every atom run the compared tuples, the rows checked for their arity up to the first that differs, and all rows once for each new key of a branch; and for every binding a copy of all facts, the search and the rebuilding |
| `FullScans.Gate` | src/factgraph/application/evaluation_run_verification_runtime.py:104-122 | a bundle is admitted exactly when the unsaturated estimate is within 100,000; an admitted bundle compares at most that many tuples with conditions and scans at most 200,000 facts |
| `FullScans.EstimateExceeded` | src/factgraph/core/store/_support_capture.py:544-556 | the fact p(5) and the condition p(5): six facts are scanned and the estimate is three |
| `WinningCases.OwnBranchHolds` | src/factgraph/core/store/_support_capture.py:292-366 | a binding that a positive branch yields satisfies every atom of that branch when it is checked again |
| `WinningCases.WinnerFound` | src/factgraph/core/store/_support_capture.py:153-175 | the search for a winning branch ends no later than the branch that yielded the binding, unless checking an earlier branch raises |
| `WinningCases.AtomRaisesExactly` | src/factgraph/core/store/_support_capture.py:429-495 | checking an atom outside `not` raises exactly for a comparison or arithmetic with bound operands of which one is no integer |
| `WinningCases.BranchRaises` | src/factgraph/core/store/_support_capture.py:292-317 | checking a branch raises if and only if the atoms before some atom hold and checking that one raises |
| `WorkGate.EstimateIsTight` | src/factgraph/application/evaluation_run_verification_runtime.py:332-348 | one condition over one fact inspects exactly the estimate |
| `IsolatedReplay.ExecuteIsolated` | src/factgraph/application/evaluation_run_verification_runtime.py:182-257 | exactly one row per distinct head projection, each with the smallest receipt digest of its group, sorted; it fails if and only if some binding cannot be projected |
| `IsolatedReplay.OrderDoesNotMatter` | src/factgraph/application/evaluation_run_verification_runtime.py:194-257 | the rows do not depend on the order or repetition of the bindings |
| `IsolatedReplay.CandidateMeans` | src/factgraph/application/evaluation_run_verification_runtime.py:194-225 | a binding's candidate shows the canonical form of what it gives each selected variable, in order, and carries the digest of its receipt in the winning branch |
| `IsolatedReplay.SortedMeans` | src/factgraph/application/evaluation_run_verification_runtime.py:245-257 | rows are sorted by semantic digest, and among equal ones by receipt digest |
| `Overlay.ValidateActions` | src/factgraph/application/fact_overlay_runtime.py:245-338 | every error of every action in order, and none exactly when ids are distinct and every action fits the row it names: visible, current, of the right arity, entity and group key |
| `Overlay.ApplyProjection` | src/factgraph/application/fact_overlay_runtime.py:341-365 | the table-driven projection equals looking every row's action up |
| `OverlayAlgebra.FirstThenRest` | src/factgraph/application/fact_overlay_runtime.py:341-365 | all actions at once is the first one and then the others |
| `OverlayAlgebra.RestStillAccepted` | src/factgraph/application/fact_overlay_runtime.py:245-338 | after an accepted action the others are still accepted |
| `OverlayAlgebra.AnyOrder` | src/factgraph/application/fact_overlay_runtime.py:245-365 | applying accepted actions one at a time in any order gives the relation of applying them at once, every step being accepted |
| `OverlayAlgebra.RelationKept` | src/factgraph/application/fact_overlay_runtime.py:341-365 | the rows that stay keep their order; a replaced row has exactly the new tuple, the others their own; all keep assertion, arity, entity and group key |
| `OverlayAlgebra.RemovalsCounted` | src/factgraph/application/fact_overlay_runtime.py:341-365 | a predicate loses exactly as many rows as actions remove from it |
| `OverlayMeaning.ErrorsMean` | src/factgraph/application/fact_overlay_runtime.py:245-338 | exactly the errors that hold of some action are reported: a repeated id, no visible row, another tuple, arity, entity or group key than that of the row |
| `OverlayMeaning.AppliedMeans` | src/factgraph/application/fact_overlay_runtime.py:341-365 | after accepted actions a predicate holds exactly the rows no action names, unchanged, and for every replacement its new tuple under the same id |
| `OverlayReport.ViewAfter` | src/factgraph/application/fact_overlay_runtime.py:382-388 | the tuples then visible are those of untouched rows and the new tuples of replacements |
| `OverlayCheck.RunPhase` | src/factgraph/application/fact_overlay_runtime.py:214-242 | failed without a match, otherwise the number of matches and the least of them; it raises exactly if evaluation does, because evaluation has sorted the bindings already |
| `OverlayCheck.CheckOverlay` | src/factgraph/application/fact_overlay_runtime.py:48-117 | invalid actions are refused, both phases are reported with their difference, and an error in either phase, that of sorting bindings with values of different types included, fails the check |
| `OverlayReport.PhaseMeans` | src/factgraph/application/fact_overlay_runtime.py:214-242 | a phase fails exactly if no solution has the requested items; otherwise it reports the number of such solutions and the least of them |
| `OverlayReport.DiffMeans` | src/factgraph/application/fact_overlay_runtime.py:368-379 | the difference reports whether the status changed, the change of the count, and each primary binding that the other phase does not have |
| `OverlayCheck.RemovalIsMonotone` | src/factgraph/application/fact_overlay_runtime.py:79-95 | removal under a body without negation adds no matching binding and no match count, and cannot make the evaluation raise |
| `OverlayCheck.RemovalDiff` | src/factgraph/application/fact_overlay_runtime.py:368-379 | it never turns failed into passed; an added binding in the report matched before; one is reported if and only if something still matches and the former primary binding does not |
| `OverlayCheck.AdditionReported` | src/factgraph/application/fact_overlay_runtime.py:368-379 | facts p(1) and p(2), the branch p(x) and the removal of p(1): x = 2 is reported as added |
| `Base64Url.RoundTrip` | src/factgraph/application/evaluation_run_v1_runtime.py:294-296 | decoding undoes encoding for every byte string |
| `Base64Url.AcceptsCanonical` | src/factgraph/application/evaluation_run_bundle_runtime.py:1070-1077 | exactly the texts over the URL-safe alphabet, unpadded, of a possible length and with zero pad bits are accepted (RFC 4648 sections 3.2, 3.5 and 5), although the underlying decoder is lenient |
| `Base64Url.AcceptedIsEncoding` | src/factgraph/application/evaluation_run_bundle_runtime.py:1075-1077 | an accepted text is the encoding of its value |
| `Base64Alphabet.DigitIs` | src/factgraph/application/evaluation_run_v1_runtime.py:294-296 | a sextet is written as the character at its place in the alphabet of RFC 4648 section 5 |
| `Base64Alphabet.ValueIs` | src/factgraph/application/evaluation_run_bundle_runtime.py:1070-1077 | a character is read as its place in that alphabet; plus and slash read like minus and underscore |
| `Base64Alphabet.GroupIsWritten` | src/factgraph/application/evaluation_run_v1_runtime.py:294-296 | three bytes are the four digits of one number in base 64; a rest of one or two bytes is filled with zero bits |
| `CodecExactness.Encodable` | src/factgraph/application/evaluation_run_v1_runtime.py:275-326 | exactly the values without non-finite numbers, unsupported types or empty keys, nested no deeper than 64, can be encoded |
| `FloatTexts.FloatTextMeans` | src/factgraph/application/evaluation_run_v1_runtime.py:289-293 | floats are known by the hexadecimal texts of zero, subnormal and normal doubles, one for each sign, exponent from -1022 to 1023 and fraction of thirteen digits |
| `CodecExactness.RoundTrip` | src/factgraph/application/evaluation_run_v1_runtime.py:275-443 | decoding an encoding returns the value and lowers the budget by exactly its nodes; with fewer nodes left it fails |
| `CodecExactness.AcceptedReencodes` | src/factgraph/application/evaluation_run_v1_runtime.py:329-443 | an accepted node is the encoding of its value, at every depth and budget |
| `CodecExactness.ValueSurvives` | src/factgraph/application/evaluation_run_v1_runtime.py:275-443 | a plain value of depth at most 64 comes back, if and only if it has at most 100,000 nodes |
| `CodecExactness.TreeSurvives` | src/factgraph/application/evaluation_run_v1_runtime.py:329-443 | an accepted tree re-encodes to itself and has used exactly its nodes |
| `CodecExactness.OneTreePerValue` | src/factgraph/application/evaluation_run_v1_runtime.py:329-443 | no two trees decode to one value |
| `WireFormat.EncodedIsTree` | src/factgraph/application/evaluation_run_v1_runtime.py:275-326 | what is written for every value: the type, the kind, and its scalar, hexadecimal or base64url text, its items in order, or its entries in ascending order of their keys |
| `StructuralDecoder.DecodeStructural` | src/factgraph/application/evaluation_run_v1_runtime.py:329-443 | the decoder with its mutable budget returns the specified result and leaves the specified number of nodes |
| `ReplayWorlds.TermRestored` | src/factgraph/application/evaluation_run_v1_runtime.py:4141-4169 | a captured canonical term restores to itself; bytes go through base64url |
| `ReplayCapture.CaptureWorldLoop` | src/factgraph/application/evaluation_run_v1_runtime.py:2578-2647 | the capture loops with the shared set of seen witnesses equal capturing relation by relation in predicate order |
| `ReplayCapture.RestoreFactsLoop` | src/factgraph/application/evaluation_run_v1_runtime.py:4105-4138 | the restore loop equals restoring fact by fact |
| `ReplayCapture.WorldRestored` | src/factgraph/application/evaluation_run_v1_runtime.py:4105-4138 | a captured world restores without error to the same predicates with the same facts |
| `CaptureMeaning.CapturedWorld` | src/factgraph/application/evaluation_run_v1_runtime.py:2578-2647 | a captured world holds every predicate once in order, with its facts' terms in canonical form (bytes as base64url), sorted by digest |
| `CaptureMeaning.CaptureSucceeds` | src/factgraph/application/evaluation_run_v1_runtime.py:2578-2647 | relations can be captured if and only if such a world exists: every predicate known and with arguments, every term of its type, no witness id twice in the world, no digest twice in a relation |
| `ReplayPrograms.PlanRoundTrip` | src/factgraph/application/evaluation_run_v1_runtime.py:481-567 | a plan that encodes comes back from its wire form, if and only if its body has at most 100,000 nodes |
| `ReplayPrograms.AcceptedPlan` | src/factgraph/application/evaluation_run_v1_runtime.py:495-567 | an accepted wire form is the encoding of its plan |
| `ReplayPrograms.PlanEncodes` | src/factgraph/application/evaluation_run_v1_runtime.py:446-492 | a plan encodes if and only if it has one head and a valid, plain body nested no deeper than 64 |
| `ReplayPrograms.DecodesExactly` | src/factgraph/application/evaluation_run_v1_runtime.py:495-567 | a wire form decodes to a plan if and only if the plan encodes to it and its body has at most 100,000 nodes |
| `WireFormat.PlanIsWritten` | src/factgraph/application/evaluation_run_v1_runtime.py:481-492 | what is written for a plan: its identity and version, its body as a tree, and its head with the names of its variables |
| `ReplayRuns.CollectFrames` | src/factgraph/application/evaluation_run_v1_runtime.py:3161-3183 | one frame per engine observation, in order, up to the first result that cannot be formed |
| `ReplayRuns.SideReplays` | src/factgraph/application/evaluation_run_v1_runtime.py:3721-3820 | a side evaluated on its dependencies and judged in its world replays with the same result and frames on any relation with the same facts |
| `ReplayRuns.EvaluateThenReplay` | src/factgraph/application/evaluation_run_v1_runtime.py:3230-3516 | for every request that evaluates, replaying the sealed run succeeds with status matched, and baseline, effective and candidate side each match in result and frames |
| `ReplayMeaning.SideMeaning` | src/factgraph/application/evaluation_run_v1_runtime.py:3137-3227 | a side is one frame per observation by exactly the declared engines in order, a result judged in the whole world where the engine ran, and the result of the first engine |
| `ReplayMeaning.EvaluationSucceeds` | src/factgraph/application/evaluation_run_v1_runtime.py:3230-3516 | a request evaluates if and only if both worlds can be captured, the baseline holds exactly the predicates depended on, the effective world those of the plan, and every side evaluates within the row limit |
| `ReplayMeaning.ReplayMeaning` | src/factgraph/application/evaluation_run_v1_runtime.py:3721-3820 | a replayed side matches in its result, or in its frames, if and only if evaluating it again on its dependencies gives the declared result, or the declared frames |
| `ReplayMeaning.ReplayMatchesExactly` | src/factgraph/application/evaluation_run_v1_runtime.py:3659-3718 | a replay answers matched if and only if the baseline, the effective and, if there is one, the candidate side each evaluate again from the sealed program and worlds to what the run declares |
| `ReplayMeaning.TamperedResultShows` | src/factgraph/application/evaluation_run_v1_runtime.py:3813-3817 | a run whose declared baseline result is not the one evaluated again is not answered with matched |
| `ReceiptKeys.KeyNamesCase` | src/factgraph/application/evaluation_run_bundle_runtime.py:597-610 | the branch number parsed from a condition key is the one it was made with |
| `ReceiptKeys.KeysDiffer` | src/factgraph/application/evaluation_run_bundle_runtime.py:650-654 | no two conditions of a branch share a key, whatever their names contain |
| `ReceiptMeaning.KeyIs` | src/factgraph/application/evaluation_run_bundle_runtime.py:650-654 | a key is c, the branch number, a point, c, the place in the branch, a colon and the name |
| `Receipts.IndexById` | src/factgraph/application/evaluation_run_bundle_runtime.py:498-506 | the id index holds exactly the captured assertions |
| `Receipts.IndexByFact` | src/factgraph/application/evaluation_run_bundle_runtime.py:499-511 | looking a tuple up gives the sorted ids that a full scan of its relation finds |
| `Receipts.ReceiptCaseIndex` | src/factgraph/application/evaluation_run_bundle_runtime.py:597-610 | the one branch that all keys name, or an error if there is none |
| `Receipts.ExpectedConditions` | src/factgraph/application/evaluation_run_bundle_runtime.py:639-666 | one expected witness or step per condition of the branch, or an error exactly if a term cannot be grounded |
| `ReceiptCheck.IdsAgree` | src/factgraph/application/evaluation_run_bundle_runtime.py:684-693 | the look-up of every single id can never fail after the ids have been compared |
| `ReceiptCheck.WitnessesDescribe` | src/factgraph/application/evaluation_run_bundle_runtime.py:668-693 | the comparison by key tables is the plain statement about witnesses |
| `ReceiptCheck.ValidateReceiptStaticConsistency` | src/factgraph/application/evaluation_run_bundle_runtime.py:613-709 | success is the only branch the receipt describes in the plain sense (one witness with the scanned ids per predicate condition, one matching step per other condition, nothing else), and failure means that there is none |
| `ReceiptMeaning.GroundConditionMeans` | src/factgraph/application/evaluation_run_bundle_runtime.py:725-746 | a predicate condition is grounded term by term: constants as they are, variables as the binding says, in canonical form, under the types of the predicate |
| `ReceiptPlayback.PredicateCaptured` | src/factgraph/application/captured_receipt_evidence_runtime.py:274-312 | a predicate condition of an accepted receipt passes the captured-receipt check, listing the ids of a full scan |
| `ReceiptPlayback.PredicateEvidence` | src/factgraph/application/evaluation_run_evidence_runtime.py:374-418 | it passes the evidence check, each of those ids carrying the grounded tuple |
| `ReceiptPlayback.OtherPlaysBack` | src/factgraph/application/evaluation_run_evidence_runtime.py:419-424 | every other condition of an accepted receipt passes both checks |
| `ReceiptPlayback.PredicatesById` | src/factgraph/application/captured_receipt_evidence_runtime.py:352-361 | the predicate of every captured assertion; refused if and only if an id is captured twice |
| `ReceiptPlayback.CaptureReceipt` | src/factgraph/application/captured_receipt_evidence_runtime.py:80-115 | whatever is captured is, condition by condition, what the check yields in the branch that all keys name; an accepted receipt is captured without error, each predicate condition with the sorted ids that a full scan finds for its grounded tuple |
| `ReceiptPlayback.BuildEvidence` | src/factgraph/application/evaluation_run_evidence_runtime.py:124-126 | likewise for the evidence of its conditions, each of those ids carrying the grounded tuple, although the tables are built without a duplicate check |
| `ReceiptMeaning.CapturedIsCaptured` | src/factgraph/application/captured_receipt_evidence_runtime.py:274-312 | whatever the captured-receipt check passes, of an accepted receipt or not, names captured assertions of the predicate, in order and without repetition |
| `ReceiptMeaning.EvidenceIsCaptured` | src/factgraph/application/evaluation_run_evidence_runtime.py:374-418 | whatever the evidence builder cites is a captured assertion of the predicate with its own tuple |
| `RefCaches.RefCache.RecoverEntityRef` | src/factgraph/application/entity_view.py:273-299 | recovery through a sound cache is recovery from the visible facts, and the cache stays sound |
| `SnapshotContents.RecoverMeans` | src/factgraph/application/entity_view.py:273-333 | a reference is its type and the last terms of the first visible rows of its identity predicates, completed; or the error of its type or of the first identity field that cannot be read |
| `SnapshotContents.HydrateContentMeans` | src/factgraph/application/entity_view.py:336-371 | a single field shows the last term of the first row about the entity or nothing, a multi field those of all its rows in order; a reference field shows the recovered references; the first that fails is the error |
| `SnapshotMeaning.HydrateMeans` | src/factgraph/application/entity_view.py:209-270 | a snapshot is the recovered reference and one state per field in order, with the records of all claims and the active ones among them when asked for; or the first error |
| `HydrationSuccess.HydrateSucceeds` | src/factgraph/application/entity_view.py:209-371 | an entity hydrates if and only if it is visible, its identity can be recovered, and so can every reference that its fields show and, when asked for, its claims hold |
| `RefCaches.RefCache.HydrateSnapshot` | src/factgraph/application/entity_view.py:209-270 | a snapshot does not depend on what is cached, and the cache stays sound even when hydration fails |
| `RefCaches.HydrateEntities` | src/factgraph/application/entity_view.py:89-110 | a list hydrated with one cache is each reference hydrated on its own, up to the same first failure: one snapshot per reference, in order, as read off the view |
| `RefCaches.FindIn` | src/factgraph/application/entity_view.py:172-193 | items and warnings are those of fresh caches, over all references or over those up to the one whose item reaches the limit, where the loop stops |
| `RefCaches.Find` | src/factgraph/application/entity_view.py:172-199 | the same for everything visible of a type, in the order of the encoded references |
| `FindMeaning.EnumerateMeans` | src/factgraph/application/entity_view.py:442-479 | a find request goes through exactly the references that the exists predicate or a field of the type speaks about |
| `FindMeaning.FiltersMean` | src/factgraph/application/entity_view.py:491-509 | a snapshot passes the filters if and only if each names a field of which the value, or one of the values, is among those accepted |
| `FindMeaning.FoundItems` | src/factgraph/application/entity_view.py:172-199 | without a limit, the items are exactly the snapshots of visible references that hydrate and pass the filters |
| `FindMeaning.WarningsMean` | src/factgraph/application/entity_view.py:184-187 | and the warnings are those of the references that do not hydrate, in order, with the code of the error |
| `RefCaches.FindAtLimitZero` | src/factgraph/application/entity_view.py:191-193 | with limit zero, an entity that hydrates is still returned |
| `RefCaches.LimitIsPrefix` | src/factgraph/application/entity_view.py:191-193 | the items are the first n of the unlimited find if and only if n is positive or there are none |

## Left out

- DatabaseRoute.Database.CommitChanges: fresh ids come from a counter instead of random UUIDs, and precondition checks, locking and storage are not modelled; a commit fails only for an unknown or repeated revocation target.
- RefCaches.Find: a `get` request, whose known reference enters the cache unrecovered, is not modelled.
- WorkGate.InspectionBounded: tuples tried inside `not` bodies are not counted.
- FullScans.ScannedBounded: tuples tried inside `not` bodies are not counted, nor is the one-time decoding of the bundle into relations and a view before evaluation.
- IntegerReadings.SeedingExactness: for branches that read an arithmetic output requested as text where it is not coerced, only what happens up to its arithmetic atom is characterized.
- EarlyNegation.NegationExactness: both runs are taken to succeed; when the seeded run alone raises is not characterized.
- AtomMeaning.StepExact: aggregate terms, which the evaluator's comparisons and arithmetic accept, are not modelled.
- DatabaseRoute.Database.PlannedOpsToInputs: value validation and the metadata entries of an input are one flag and one token of the operation.
- Planner.PlanDependenciesAndMutations: the list of resolved dependencies that a plan also reports is not modelled.
- ReplayPrograms.PlanEncodes: the grammar check of plan bodies is a predicate parameter.
- CaptureMeaning.CaptureSucceeds: which of several errors a capture, a replay or a receipt check raises is not characterized; nor is it for the evaluator (`AtomMeaning.StepRaises`).
- SnapshotContents.RecoverMeans: how an identity is completed from its raw values is a function parameter.
- IsolatedReplay.ExecuteIsolated: claim, binding and scope digests are one function of the projection; the receipt is known by its branch and binding.
- ReplayRuns.EvaluateThenReplay: provider materialization, scenario resolution, policy structures, lineage and size limits of payloads are outside; the resolved baseline and effective relations are inputs, with scalars in the canonical form that scenario values have by construction.
- The legacy write route that applies operations one by one without a Database is not atomic, so the batch properties are not meant for it.
- Entity references with an encoded form that disagrees with their identity are not modelled: an entity is its type and identity.
- Aggregates take part in the estimate only; RuleRef atoms and the evaluator with the AST gate switched off are not modelled.
- The reordering of body atoms for bodies with system identity variables is not modelled; atoms are evaluated in the order given.
- Evaluated bindings are left in the order in which they are found; the source sorts them, which is modelled only as far as it can raise.
- Python's equality between values of different types (True equals 1) and Unicode digits in condition keys and coerced text are not modelled.
- Floating-point values are known by their canonical hexadecimal text; the where-IR codec of bundles with its own float token is not modelled.
- JSON text parsing, canonical JSON bytes, digests, seals and the field checks of protocol objects are not modelled.
- Foreign engines appear only as functions of a plan and the facts of its dependencies.
- The lenient base64 decoder follows the one of CPython's `binascii`, which is not part of the repository.
