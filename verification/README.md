# Kernel Infra: a verified model

Kernel Infra runs kernel candidates through judged stages on GPU hosts. A daemon per host owns a state
root and a socket, runs submissions and managed services side by side in one event loop, and keeps a
frontier of the best accepted runs per workload; a thin fleet layer places batches on hosts and moves
bundles and artifacts between them. This project models those parts in Dafny and proves what they keep.

- **Fleet planner** (`Planner`, `PlannerTheorems`, `Placement`): the greedy batch planner is the k-way merge
  of the nodes' rank streams, and optimal against every other allocation; what each pick prefers.
- **Results and frontier** (`Results`, `ResultTheorems`, `Frontier`, `FrontierTheorems`, `FrontierVerdicts`,
  `FrontierDeletion`, `FrontierInsertion`): aggregation of stage results, and the noise-banded reducer over
  whole histories, with the exact condition of every verdict.
- **Lifecycle** (`Runs`, `RunManager`, `RunTheorems`, `RunEndings`, `RunLives`, `Services`, `ServiceManager`,
  `IdleWatch`, `ServiceLives`, `Daemon`, `DaemonTheorems`, `Labels`, `DeploymentRecovery`, `StartRun`,
  `KernelServer`, `StoreFrontier`): one transition system whose steps are the code between two awaits.
  `Apply` gives the steps, and the theorems hold in every interleaving; a step that is not enabled changes
  nothing. The classes perform the steps on the managers' own fields: the methods of `RunManager` and
  `ServiceManager` that are not listed below each do one step and no more.
- **Ownership** (`Ownership`, `OwnershipTheorems`, `Endpoints`, `Startup`): the two-lock start of any number
  of daemons, one system call at a time, with crashes.
- **Artifacts and inbox** (`Paths`, `Digests`, `Manifests`, `Artifacts`, `Receiving`, `ArtifactTheorems`,
  `Inbox`, `InboxTheorems`, `Intake`, `Snapshots`, `SnapshotAmbiguity`): archives are sequences of members; the
  JSON codec, SHA-256 and the task parser are function parameters with the few laws each theorem names.
- **Diagnosis** (`Diagnosis`, `DiagnosisVerdicts`): the classifier and its verdict as functions of the
  attention threshold, and when each finding is answered.

`Wrappers`, `Texts`, `Contracts` and `Steps` hold the shared vocabulary: results, byte strings in Python's
string order, tasks as the parser admits them, and runs of a transition system.

Check everything with `dafny verify dfyconfig.toml`.

## What the code does not promise

Some natural expectations are false of the code. The model keeps the code, and each has its exact condition.

- A `stop` accepted while a deployment awaits attestation can be overtaken: the ready transition does not
  look at the state it overwrites (`DaemonTheorems.StopProtectsExactly`, `StopIsOvertaken`).
- A run cancelled before its coroutine first runs, or a second time while its cancellation handler waits for
  a live process, stays nonterminal until the next restart (`RunTheorems.AbandonedExactly`), and
  meanwhile pins the deployments it references (`DaemonTheorems.AbandonedRunPinsService`).
- Local slots leak: a pipe that cannot be opened after a slot was acquired loses the slot
  (`RunTheorems.SlotsAreConserved`, `SlotCanBeLost`). In the coroutine of a deployment it leaves the
  deployment nonterminal until a stop (`DaemonTheorems.ForsakenExactly`, `FailingPipeForsakes`).
- A batch can be accepted in part, when a later candidate has a blank name and there is no prefix
  (`Labels.BatchAcceptedInPart`, `LabelsAllowAllOrNothingExactly`).
- A dominated or guardrail-failing run is not inert: its compiler fingerprint can hide a later, better run
  (`FrontierDeletion.DroppingRejectedExactly`, `RejectedRunCanHide`).
- Different candidates can have the same snapshot hash without a collision of SHA-256, and the inbox then
  takes one for the other (`SnapshotAmbiguity.AmbiguousExactly`, `SharesHashExactly`, `ReusedExactly`,
  `Snapshots.OtherCandidateIsReused`).
- Cells of the frontier can rise or vanish when a run finishes that was accepted before others
  (`FrontierInsertion.InsertionKeepsCellExactly`, `InsertionCanRaise`).
- The exit code of a last stage that reported `passed` does not count
  (`RunTheorems.LastExitCodeIsIgnored`; `OrdinaryOutcome` says what counts).
- A batch may start on another node than a single submission would
  (`PlannerTheorems.FirstPickIsSelection`).
- Recovery of runs is fail-closed, recovery of deployments is so only if the very first broker call raises:
  any other failure leaves those ahead of it interrupted (`DeploymentRecovery.FailClosedExactly`,
  `RecoveryCanStopHalfway`).
- The writer exports manifests that the receiver refuses: identity fields it does not check, no terminal
  timestamp, or more than 16 MiB of encoded manifest (`ArtifactTheorems.ExportIsReceived`, `ExportCanBeRefused`).
- A daemon whose socket is `daemon` in its own state root can never start: both locks are then the same
  file (`OwnershipTheorems.LockPathsCoincide`, `CoincidingNeverServes`).

## Model

| member | source | states |
|---|---|---|
| Planner.SelectNode | src/kernel_infra/fleet.py:394-449 | one decision per observation with exactly the reasons that exclude it; fails exactly when no node is eligible (or a node is not in the catalog); otherwise picks the eligible node whose (queue, -idle, active, id) ranks strictly before every other |
| Planner.Reasons | src/kernel_infra/fleet.py:411-428 | a node has no exclusion reason exactly when its probe succeeded, it has the capabilities, deployments and disk asked for, and its broker answered |
| Planner.ReasonsAreExact | src/kernel_infra/fleet.py:409-423 | each reason is given exactly when it applies, naming exactly the missing capabilities or deployments |
| Planner.PlanBatchNodes | src/kernel_infra/fleet.py:452-518 | count outside 1..64 is refused; otherwise `count` assignments, each with its index, observation, `assigned_before` equal to the earlier picks of the node and its projected rank, every pick being the next in greedy order |
| Planner.AssignEligible | src/kernel_infra/fleet.py:474-481 | the eligible nodes of the decisions, each with its observation, and the greedy rounds over them |
| Planner.AssignRounds | src/kernel_infra/fleet.py:481-517 | the rounds of the planner: each extends the plan by the unique least projected rank |
| Planner.Least | src/kernel_infra/fleet.py:448-448 | the minimum under the lexicographic rank order |
| PlannerTheorems.ProjectedIncreases | src/kernel_infra/fleet.py:493-499 | the projected rank of a node strictly increases with the number of items on it |
| PlannerTheorems.RanksIncrease | src/kernel_infra/fleet.py:504-517 | the ranks a plan emits are strictly increasing |
| PlannerTheorems.KWayMerge | src/kernel_infra/fleet.py:481-517 | the (node, slot) pairs a plan emits are exactly the pairs of all eligible nodes that rank no later than its last one: a merge of the rank streams without a gap |
| PlannerTheorems.GreedyDominates | src/kernel_infra/fleet.py:481-517 | against any other slots listed by rank, the i-th rank of the plan is no larger than their i-th |
| PlannerTheorems.GreedyIsOptimal | src/kernel_infra/fleet.py:452-518 | for every allocation of as many items over the eligible nodes, the plan's i-th smallest projected rank is at most the allocation's, for every i |
| PlannerTheorems.MinimisesLongestQueue | src/kernel_infra/fleet.py:490-499 | no allocation has a smaller longest projected queue than the plan |
| PlannerTheorems.PlanIsStable | src/kernel_infra/fleet.py:467-518 | the plan for fewer items is a prefix of the plan for more; with equal counts, the plan does not depend on the iteration order of the eligible ids |
| PlannerTheorems.FirstPickIsSelection | src/kernel_infra/fleet.py:432-449 | the first pick is the node `select_node` chooses if and only if that node has an idle GPU or no node one queue place behind it overtakes it |
| PlannerTheorems.UniformNodesAgree | src/kernel_infra/fleet.py:432-449 | they agree when every eligible node has an idle GPU, or none has |
| PlannerTheorems.FirstPickCanDiffer | src/kernel_infra/fleet.py:490-506 | a concrete load on which the first pick and the selection differ |
| Placement.ProjectedIsPlaced | src/kernel_infra/fleet.py:490-500 | the projected rank of a node is its selection rank after the items are placed one by one, each taking an idle GPU or else lengthening the queue |
| Placement.SelectionExactly | src/kernel_infra/fleet.py:432-449 | the selected node has the shortest queue, then the most idle GPUs, then the fewest active runs, then the least id |
| Placement.NextExactly | src/kernel_infra/fleet.py:490-506 | each item goes to the node whose queue with one more is shortest, then to the one with the most idle GPUs left after the items it already holds, then the fewest runs and items, then the least id |
| Placement.PicksMostIdle | src/kernel_infra/fleet.py:490-517 | at every pick of a plan, of the nodes with an equal least queue after one more item the picked one has the most idle GPUs left |
| Placement.ItemsAreSpread | src/kernel_infra/fleet.py:490-517 | two items on empty nodes of 4 and 5 idle GPUs get one node each, the larger first |
| Placement.LoadsAreRead | src/kernel_infra/fleet.py:405-441 | the nodes that count are the usable ones, with their queue, their GPUs in state idle and their active runs |
| Results.ValidateStageResult | src/kernel_infra/results.py:28-133 | accepts exactly the consistent results whose rows name declared workloads, are positive and do not repeat; returns them unchanged |
| Results.AggregateRunResult | src/kernel_infra/results.py:134-207 | computes outcome, validity, gate, summaries, merged rows and fingerprints of the executed stages |
| Results.AggregateIsSound | src/kernel_infra/results.py:174-185 | over validated stage results, a frontier-eligible result completed, is valid, and has a positively timed row, not marked unstable, for each workload of the task and no other |
| Results.MergedRowsAreLatest | src/kernel_infra/results.py:168-169 | a workload has a merged row exactly when some stage reported one, and each field holds the value reported last |
| Results.MergedValidityMeaning | src/kernel_infra/results.py:162-167 | invalid if any stage was invalid, otherwise the validity of the last stage |
| Results.GatedOutcome | src/kernel_infra/results.py:186-191 | for stages gated one after another: completed exactly when all ran and the last passed, rejected exactly when the last reported invalid |
| ResultTheorems.ValidStageExactly | src/kernel_infra/results.py:28-133 | a stage result is accepted if and only if its validity fits its status and its rows name declared workloads, each once, with positive times |
| ResultTheorems.EligibleExactly | src/kernel_infra/results.py:174-185 | a run enters the frontier if and only if every stage ran and passed, none was invalid, the last is valid, every workload has a latest candidate and baseline time, and none was last reported unstable; no report counts as stable |
| ResultTheorems.OutcomeExactly | src/kernel_infra/results.py:147-207 | for any results: completed exactly if all stages ran and passed, rejected exactly if some was invalid and not that, infra_error otherwise; validity, reason and stage summaries as reported |
| ResultTheorems.MarksAreLatest | src/kernel_infra/results.py:172-172 | each fingerprint is that of the last stage that reports one |
| Frontier.RebuildFrontier | src/kernel_infra/frontier.py:15-125 | the cells and decisions are those of the reducer over the readable ledger rows of this task digest, in order |
| Frontier.Decide | src/kernel_infra/frontier.py:35-86 | the decision of one run, in the order unstable, ineligible, compiler-equivalent, guardrail, first-valid, comparison |
| Frontier.Consider | src/kernel_infra/frontier.py:33-111 | one run of the ledger: its decision, the new cells and the compiler fingerprints seen |
| Frontier.Deviations | src/kernel_infra/frontier.py:60-72 | the primary workloads that improve and those that regress beyond the noise floor, in task order |
| Frontier.CompareWithCells | src/kernel_infra/frontier.py:57-86 | per-cell-pareto, improves-primary or dominated, by the noise band around each primary cell |
| Frontier.GuardrailFailure | src/kernel_infra/frontier.py:139-150 | reports the first guardrail in task order that the run misses, and none exactly when all are met |
| Frontier.AbsorbRows | src/kernel_infra/frontier.py:88-99 | an accepted run takes exactly the cells it is strictly faster on |
| FrontierTheorems.SoundResultsAreReadable | src/kernel_infra/frontier.py:52-99 | on results that passed the aggregation gate no row or field lookup of the reducer fails |
| FrontierTheorems.FrontierIsNearOptimal | src/kernel_infra/frontier.py:57-99 | every run that reached comparison, anywhere in the history, has candidate_ms at least (1 - noise) times the final cell of every primary workload |
| FrontierTheorems.ZeroNoiseIsExact | src/kernel_infra/frontier.py:57-99 | with a zero noise floor each primary cell is the exact minimum over all compared runs |
| FrontierTheorems.CellsOnlyImprove | src/kernel_infra/frontier.py:82-96 | after any prefix the cells are empty or cover exactly the workloads, and no cell ever rises |
| FrontierTheorems.CellIsEarliestMinimum | src/kernel_infra/frontier.py:82-96 | each cell holds the numbers of the earliest accepted run with the smallest time |
| FrontierTheorems.GuardrailsHold | src/kernel_infra/frontier.py:139-150 | the cell of every guardrailed workload meets its minimum speedup |
| FrontierVerdicts.CompilerExactly | src/kernel_infra/frontier.py:128-138 | a run is identified by its cubin hash, failing that by its SASS hash, and failing that by its binary hash |
| FrontierVerdicts.SeenExactly | src/kernel_infra/frontier.py:45-51 | a fingerprint is known exactly if a stable, eligible run carried it, and the first of these is remembered |
| FrontierVerdicts.SkippedExactly | src/kernel_infra/frontier.py:35-51 | when a run is called unstable, ineligible or equivalent to which earlier run, in the history alone |
| FrontierVerdicts.GuardrailExactly | src/kernel_infra/frontier.py:52-56 | a run that is not skipped regresses a guardrail exactly if it is too slow for one, the first in task order being named, and is compared exactly if it is too slow for none |
| FrontierVerdicts.ComparisonExactly | src/kernel_infra/frontier.py:57-86 | a compared run is accepted over cells if and only if it beats the cell of some primary workload by more than the noise floor, and dominated if and only if it beats none; improved and regressed are exactly the primaries beyond (1 - noise) and (1 + noise) times the cell, in task order |
| FrontierVerdicts.AcceptedBeatsNoise | src/kernel_infra/frontier.py:60-86 | every accepted run but the first beats some primary cell by more than the noise floor |
| FrontierVerdicts.CellRecordsRun | src/kernel_infra/frontier.py:88-99 | every cell holds the id, times and speedup of an accepted run |
| FrontierVerdicts.CandidatesExactly | src/kernel_infra/frontier.py:16-27 | the history holds the runs of this task digest whose result can be read, in ledger order |
| FrontierTheorems.CompactionPreservesFrontier | src/kernel_infra/frontier.py:32-111 | replaying only the accepted runs gives the same cells and the same accept decisions; compacting twice changes nothing |
| FrontierDeletion.SkippedRunIsInert | src/kernel_infra/frontier.py:35-51 | dropping an unstable, ineligible or compiler-equivalent run changes no later verdict |
| FrontierDeletion.DroppingRejectedExactly | src/kernel_infra/frontier.py:52-101 | dropping a dominated or guardrail-failing run leaves all later accept decisions as they were if and only if the first later stable, eligible run with its fingerprint is then rejected, or there is none |
| FrontierDeletion.DroppingKeepsCells | src/kernel_infra/frontier.py:52-101 | under that condition the final cells are the same too |
| FrontierDeletion.RejectedRunCanHide | src/kernel_infra/frontier.py:47-56 | a run that misses a guardrail and hides a better run of the same binary |
| FrontierDeletion.ReplayFromSplits | src/kernel_infra/frontier.py:32-111 | the replayed verdicts are those of the reducer on the whole history |
| FrontierInsertion.CellAtMostExactly | src/kernel_infra/frontier.py:88-99 | a cell is at most a given time exactly if some accepted run is |
| FrontierInsertion.InsertionKeepsCellExactly | src/kernel_infra/store.py:186-195 | when a run enters the middle of the history, a cell neither rises nor vanishes if and only if the run it shows lies before, or the new run or a later one is now accepted and as fast |
| FrontierInsertion.InsertionCanRaise | src/kernel_infra/frontier.py:62-99 | a run whose insertion makes the holder of another cell a dominated run, so that the cell rises |
| StoreFrontier.FrontierCanBeAsked | src/kernel_infra/server.py:233-236 | in every reachable state the saved results of a task form a readable history |
| StoreFrontier.RebuildCanRead | src/kernel_infra/runner.py:178-188 | when a run that leaves its stage loop has saved its result, the rebuild cannot fail on what it reads |
| RunManagement.RunManager.SubmitRun | src/kernel_infra/runner.py:69-94 | refused exactly for a label that strips to nothing, a scoped task with a client that cannot scope, or a candidate that cannot be snapshotted; otherwise the run is accepted and owned by a coroutine that has not started |
| RunManagement.RunManager.SlotAcquired | src/kernel_infra/runner.py:297-331 | one permit is taken before the pipe is opened; if that fails the run ends with infra_error and the permit is gone |
| RunManagement.RunManager.StageFinishes | src/kernel_infra/runner.py:349-395 | the slot is given back and the stage loop goes on, stops or ends the run as the result and exit code say |
| RunManagement.RunManager.LeaveStage | src/kernel_infra/runner.py:166-197 | the loop body after a stage: next stage, aggregated ending, or infra_error when the frontier rebuild raises |
| RunManagement.RunManager.CancelRun | src/kernel_infra/runner.py:131-142 | refused for a terminal or unowned run; otherwise the reason is recorded and the coroutine cancelled |
| RunManagement.RunManager.CloseAll | src/kernel_infra/runner.py:143-149 | every coroutine not done is cancelled as interrupted, and no other entry changes |
| RunManagement.RunManager.Cancelling | src/kernel_infra/runner.py:326-365 | where a delivered cancellation takes the coroutine and which slot it gives back; the handler waits only for a live process, and otherwise ends the run at once |
| RunManagement.RunManager.ProcessInterrupted | src/kernel_infra/runner.py:198-221 | the cancellation handler saves the result under the recorded stop reason |
| RunManagement.RunManager.RecoverInterrupted | src/kernel_infra/runner.py:45-64 | succeeds exactly when every persisted job of a nonterminal run is answered, and then every nonterminal run becomes interrupted and they are counted; otherwise no run changes |
| RunManagement.RunManager.InterruptActive | src/kernel_infra/store.py:197-209 | ends exactly the nonterminal runs and counts them |
| RunTheorems.StepBalancesSlots | src/kernel_infra/runner.py:282-365 | any action on any run gives back exactly the slot the run stops holding, except that a pipe failing after the acquire loses one |
| RunTheorems.StepKeepsSlots | src/kernel_infra/runner.py:282-365 | every step of the manager but a crash keeps free permits plus slot holders, less one for a failing pipe |
| RunTheorems.SlotsAreConserved | src/kernel_infra/runner.py:282-365 | over every interleaving free permits plus slot holders equal the capacity less the pipe failures since the last crash, so they are conserved if and only if there were none |
| RunTheorems.SlotCanBeLost | src/kernel_infra/runner.py:297-316 | a history of three steps that loses a slot |
| RunTheorems.ReachedIsSound | src/kernel_infra/runner.py:151-365 | in every reachable state every run is sound: gates, saved outcomes, slots held and processes agree |
| RunTheorems.SavedOutcomeAgrees | src/kernel_infra/runner.py:178-246 | in every reachable state, of a run that ended with a saved result: the terminal state equals the saved outcome; executed stages are a prefix whose members but the last passed with exit 0; completed means all stages passed; rejected means the last reported invalid; eligible means completed, valid, timed and stable |
| RunTheorems.OrdinaryOutcome | src/kernel_infra/runner.py:166-197 | on the normal path rejected holds exactly when the last stage reported invalid, completed exactly when every stage passed |
| RunTheorems.LastExitCodeIsIgnored | src/kernel_infra/runner.py:170-186 | a nonzero exit of a passed last stage sets the terminal reason and the run still completes |
| RunTheorems.TerminalIsAbsorbing | src/kernel_infra/runner.py:131-246 | no step of the manager changes a terminal run |
| RunTheorems.AbandonedExactly | src/kernel_infra/runner.py:131-246 | a live run is left nonterminal without a coroutine exactly when a cancellation is delivered before its first step or while its cancellation handler waits |
| RunTheorems.HandlerWaitsExactly | src/kernel_infra/runner.py:500-505 | the handler waits exactly for a process that was alive when the stage was left; without one the delivered cancellation ends the run under its stop reason |
| RunTheorems.AbandonedStays | src/kernel_infra/runner.py:131-141 | such a run ends only by recovery |
| RunTheorems.CancelTwiceAbandons | src/kernel_infra/runner.py:198-221 | two delivered cancel requests abandon an executing run if and only if its process is alive; otherwise it ends as cancelled |
| RunEndings.StopEndsExactly | src/kernel_infra/runner.py:198-221 | the handler ends the run once its process is gone, and not before: under the recorded stop, or as interrupted if there is none, with a saved result of that outcome, not eligible, and the stages so far |
| RunEndings.DeliverExactly | src/kernel_infra/runner.py:198-221 | where a delivered cancellation takes a run at each of its awaits, and how it ends there |
| RunEndings.UnwindingEndsExactly | src/kernel_infra/runner.py:131-221 | a run told to stop is over under that stop once the cancellation is delivered, its output drained and its process gone, exactly unless the cancellation finds it before its first step or a second time in the handler |
| RunEndings.UnwindingKeepsSlots | src/kernel_infra/runner.py:349-365 | and no slot is lost on the way |
| RunEndings.CancelEnds | src/kernel_infra/runner.py:131-221 | one cancel of an executing run with a process ends it as cancelled, a close as interrupted |
| RunEndings.CancelDecides | src/kernel_infra/runner.py:131-221 | whatever happens after an accepted cancel, short of a close or crash, a run that ends has ended as cancelled with the stages it had finished |
| RunEndings.CloseDecides | src/kernel_infra/runner.py:143-221 | whatever happens after a close, but a cancel of the run, it has ended as interrupted |
| RunEndings.FailuresEnd | src/kernel_infra/runner.py:222-241 | what raises outside the cancellation handler ends the run as infra_error, not eligible, with the stages so far |
| RunEndings.StageDoneExactly | src/kernel_infra/runner.py:158-197 | after a stage the run goes on to the next one exactly if it passed with exit 0 and was not the last; otherwise it is over by what its stages reported, with the reason, or as infra_error if the frontier or the next pipe fails |
| RunLives.StateTells | src/kernel_infra/runner.py:151-395 | in every reachable state the state of a run tells where its coroutine is, and only a broker stage at work has a job |
| RunLives.ReportExactly | src/kernel_infra/runner.py:464-498 | what the broker client prints of an executing broker stage is recorded: queued or running, and the job id |
| RunLives.RunCompletes | src/kernel_infra/runner.py:151-197 | every run whose stages all pass completes while a slot is free, gives it back, and is eligible exactly as its stages reported |
| RunLives.RecoveryExactly | src/kernel_infra/runner.py:45-64 | after a crash a recovery interrupts exactly the nonterminal runs, without a result, if every job of theirs could be asked for, and changes nothing otherwise |
| ServiceManagement.ServiceManager.ActiveConsumers | src/kernel_infra/services.py:105-113 | exactly the nonterminal runs that reference the deployment |
| ServiceManagement.ServiceManager.StartService | src/kernel_infra/services.py:146-184 | accepted exactly when the directories exist, the service id has no nonterminal deployment, its endpoint is free and broker and client support managed services; a refusal changes nothing |
| ServiceManagement.ServiceManager.BeginRun | src/kernel_infra/services.py:353-383 | starting, unless the pipe cannot be opened, which leaves the deployment without a coroutine |
| ServiceManagement.ServiceManager.AttestationSucceeds | src/kernel_infra/services.py:419-440 | ready, whatever the state was, with an idle watcher if a grace period is set |
| ServiceManagement.ServiceManager.Cancelling | src/kernel_infra/services.py:382-391 | where a delivered cancellation takes the coroutine: a spawn is waited for once more and its child kept, a second cancellation loses it |
| ServiceManagement.ServiceManager.ChildArrives | src/kernel_infra/services.py:384-391 | the child of a cancelled spawn is registered and interrupted |
| ServiceManagement.ServiceManager.FinishRun | src/kernel_infra/services.py:474-495 | stopped if a stop reason was recorded, otherwise failed, and every entry of the deployment is dropped |
| ServiceManagement.ServiceManager.Stop | src/kernel_infra/services.py:215-236 | accepted exactly for a nonterminal deployment without active consumers, which becomes stopping; a refused stop changes nothing |
| ServiceManagement.ServiceManager.FinishStop | src/kernel_infra/services.py:238-251 | a deployment whose coroutine ended without a terminal state becomes stopped |
| ServiceManagement.ServiceManager.IdleRound | src/kernel_infra/services.py:497-542 | one poll of the idle watcher |
| ServiceManagement.ServiceManager.RecoverInterrupted | src/kernel_infra/services.py:267-294 | interrupts exactly the nonterminal deployments listed ahead of the first unanswered one; succeeds and counts them exactly when there is none; a failure has changed nothing exactly if the very first call raised |
| DeploymentRecovery.MarkInterrupted | src/kernel_infra/services.py:268-294 | the loop over the active deployments in the order of the store |
| DeploymentRecovery.RecoveredExactly | src/kernel_infra/services.py:267-294 | recovery succeeds exactly when every broker call is answered, and then nothing nonterminal is left |
| DeploymentRecovery.FailClosedExactly | src/kernel_infra/services.py:273-290 | a failed recovery left every deployment as it was if and only if the very first call raised |
| DeploymentRecovery.RecoveryCanStopHalfway | src/kernel_infra/services.py:273-290 | two deployments of which the first is interrupted when the second makes recovery fail |
| IdleWatch.IdleStopExactly | src/kernel_infra/services.py:497-542 | a poll stops the service if and only if it, an earlier poll at least the grace period before, and every poll between found no consumer |
| IdleWatch.IdleStopWasIdle | src/kernel_infra/services.py:497-542 | whatever else happens to the deployment, an idle stop finds it ready, without consumers, and polled idle since at least the grace period |
| ServiceLives.EndedExactly | src/kernel_infra/services.py:474-495 | whatever happens to a deployment short of a crash, once ended it is stopped if a stop was accepted or the idle watcher fired in its life, and failed if neither did |
| ServiceLives.PhaseTells | src/kernel_infra/services.py:343-495 | at every moment the phase of a deployment tells where its coroutine is, unless it was told to stop, and only a ready one with a grace period is watched |
| ServiceLives.BecomesReady | src/kernel_infra/services.py:353-440 | a deployment that starts and is attested is ready, and watched exactly if it has a grace period |
| ServiceLives.ExitEnds | src/kernel_infra/services.py:431-495 | the exit of the process ends a deployment as stopped if it was told to stop, and as failed otherwise |
| ServiceLives.StopEnds | src/kernel_infra/services.py:215-251 | every accepted stop can end its deployment as stopped |
| ServiceLives.RecoveryInterrupts | src/kernel_infra/services.py:267-294 | after a crash recovery interrupts what was not terminal |
| DaemonTheorems.StepKeepsServiceSound | src/kernel_infra/services.py:343-495 | every action keeps a deployment sound, and a terminal one unchanged |
| DaemonTheorems.ReachableWorlds | src/kernel_infra/services.py:146-178 | in every reachable state of runs, services, clients, crashes and recovery each service id has at most one nonterminal deployment |
| DaemonTheorems.ServingWasReconciled | src/kernel_infra/server.py:84-86 | from any crash, the daemon serves only after a recovery that reached the broker for every job persisted by a nonterminal run, and it opened after that, with every run and deployment terminal |
| DaemonTheorems.ForsakenExactly | src/kernel_infra/services.py:343-381 | a deployment is left nonterminal with a finished coroutine exactly when its pipe fails, or a cancellation arrives before its first step or in its finally block; an accepted stop ends it |
| DaemonTheorems.FailingPipeForsakes | src/kernel_infra/services.py:353-369 | a deployment whose pipe fails as it begins, and which then keeps its service id taken |
| DaemonTheorems.TerminalDeploymentsStay | src/kernel_infra/services.py:238-251 | stopped, failed and interrupted are absorbing under every step |
| DaemonTheorems.StepAddsNoConsumer | src/kernel_infra/server.py:161-171 | no step makes a run an active consumer of a deployment that is not ready |
| DaemonTheorems.BusyExactly | src/kernel_infra/services.py:105-113 | a deployment is busy exactly if a stage of some nonterminal run refers to it |
| DaemonTheorems.LeavingReadyProtects | src/kernel_infra/services.py:521-537 | a stop or idle expiry that takes a deployment out of ready finds no nonterminal run on it, and none references it in any continuation |
| DaemonTheorems.StopProtects | src/kernel_infra/services.py:215-236 | after an accepted stop that cannot be overtaken no nonterminal run references the deployment in any continuation |
| DaemonTheorems.StopProtectsExactly | src/kernel_infra/services.py:215-236 | that holds of an accepted stop if and only if the coroutine is not waiting for attestation of a live process |
| DaemonTheorems.StopIsOvertaken | src/kernel_infra/services.py:419-430 | otherwise: readiness overwrites stopping, a run is accepted, and the deployment stops under it |
| DaemonTheorems.AbandonedRunPinsService | src/kernel_infra/runner.py:131-141 | an abandoned run keeps the deployments it references busy through every step short of a crash, so that neither stop nor idle expiry changes them |
| KernelServer.Server.AssertTaskDeploymentsReady | src/kernel_infra/services.py:132-144 | true exactly when every referenced deployment is ready |
| KernelServer.Server.Submit | src/kernel_infra/server.py:161-171 | accepted exactly when the deployments are ready and the submission is not refused, as one step of the daemon; otherwise nothing changes |
| KernelServer.Server.SubmitMany | src/kernel_infra/server.py:172-195 | after the checks of the batch, the candidates before the first refused submission are accepted, in one stretch; the request succeeds exactly if that is all of them |
| Labels.AllOrNothingExactly | src/kernel_infra/server.py:182-194 | a batch is accepted as a whole or not at all if and only if no submission is refused or the first is |
| Labels.LabelsAllowAllOrNothingExactly | src/kernel_infra/runner.py:77-80 | as far as labels go: if and only if the prefix is not blank, no candidate has a blank name, or the first one has |
| Labels.BatchAcceptedInPart | src/kernel_infra/server.py:183-194 | a batch of two valid candidates of which one is accepted |
| Labels.StripOfBlank | src/kernel_infra/runner.py:78-80 | a text strips to nothing exactly if it consists of white space |
| Labels.StripExactly | src/kernel_infra/server.py:181-181 | stripping takes white space off both ends, and all there is |
| Labels.PaddedExactly | src/kernel_infra/server.py:185-185 | the number in a batch label is its index, in at least three digits |
| Labels.RefusedExactly | src/kernel_infra/runner.py:77-92 | a submission is refused exactly for a blank label, name or task id in that order, a client that cannot scope, or a failing snapshot |
| KernelServer.Server.Recover | src/kernel_infra/server.py:84-85 | both recoveries succeed exactly when every broker call is answered; the deployments ahead of the first unanswered one are interrupted, none if a job of a run is unanswered; and this is the run of the recovery events of the daemon |
| KernelServer.Server.Start | src/kernel_infra/server.py:51-90 | an undisturbed start serves exactly when it can take both locks and the socket and every broker call of both recoveries is answered, and then everything is terminal; otherwise it holds no lock; it recovers only with both locks, and then goes from the crashed world through the recovery events and the opening of the daemon |
| KernelServer.Server.RebootedIsCrashed | src/kernel_infra/server.py:84-85 | the world a start begins with is one that a crash leaves |
| StartRun.StartLeads | src/kernel_infra/server.py:84-86 | where recovery of the runs, of some deployments and the opening or the failure lead the daemon |
| Startup.Host.Reserve | src/kernel_infra/server.py:67-83 | a stale socket is replaced by one of the daemon, anything else in the way releases what is held |
| Startup.Host.TakeLocks | src/kernel_infra/server.py:58-66 | both locks, the state root first, or none |
| Startup.Host.Prepare | src/kernel_infra/server.py:51-83 | an undisturbed start reaches recovery exactly when both locks can be taken, the lock files differ and at most a stale socket lies in the way; otherwise the daemon is idle |
| Startup.Host.Acquire | src/kernel_infra/server.py:58-66 | a lock file is created and locked, or everything held is released |
| Startup.Host.Release | src/kernel_infra/server.py:103-112 | a bound socket is unlinked, the locks go, the lock files stay |
| OwnershipTheorems.StepKeepsInv | src/kernel_infra/server.py:51-112 | every system call, failure and crash of any daemon keeps the lock table, lock files and socket files consistent |
| OwnershipTheorems.OneOwner | src/kernel_infra/server.py:57-86 | with any number of daemons on any roots and sockets, one that recovers or serves holds both its locks, and no other daemon owns its root or its socket |
| OwnershipTheorems.NoLockLeftBehind | src/kernel_infra/server.py:88-112 | after a failed start, a close or a crash a daemon holds no lock |
| OwnershipTheorems.FilesAreKept | src/kernel_infra/server.py:69-80 | the socket of a recovering or serving daemon is removed by no other, and no step removes or replaces a file that is no socket |
| OwnershipTheorems.StartSucceedsExactly | src/kernel_infra/server.py:51-90 | the exact condition under which a start nobody interferes with reaches serving |
| Endpoints.StartExactly | src/kernel_infra/server.py:51-90 | in terms of processes and files: a start succeeds if and only if no daemon has a lock, nothing but lock files lies at their paths, the socket is not one of the two names in the root, and nobody listens at its path, nor is there another file |
| Endpoints.StartedIsBound | src/kernel_infra/server.py:76-83 | a started daemon has its socket at its path, and every other file is as it was |
| Endpoints.ForeignIsKept | src/kernel_infra/server.py:67-76 | the socket of a program that listens, and a file that is no socket, survive a start that fails on them |
| Endpoints.CloseLeavesStartable | src/kernel_infra/server.py:91-112 | a closed daemon leaves no socket and no lock, and can start again |
| OwnershipTheorems.LockPathsCoincide | src/kernel_infra/server.py:58-59 | the two lock paths are one file exactly for the socket named daemon in the state root |
| OwnershipTheorems.CoincidingNeverServes | src/kernel_infra/server.py:58-66 | a daemon with that socket never holds both locks |
| OwnershipTheorems.CrashLeavesStartable | src/kernel_infra/server.py:69-80 | after a crash the root and socket can be started on again |
| Digests.ArtifactSetStream | src/kernel_infra/fleet.py:967-978 | the bytes fed to the hash: the framed files sorted by path |
| Digests.FramesDecode | src/kernel_infra/fleet.py:970-977 | the framing is uniquely decodable, by an explicit decoder |
| Digests.PreimageIdentifiesSet | src/kernel_infra/fleet.py:967-978 | two file lists with distinct paths give the same stream exactly when they hold the same files, in whatever order |
| Digests.SortedIsAscending | src/kernel_infra/fleet.py:970-970 | sorting gives an ascending permutation |
| Texts.BelowExactly | src/kernel_infra/fleet.py:970-970 | the order of names: at the first place where two texts differ, the one that ends there or has the smaller byte comes first |
| Paths.ReadBack | src/kernel_infra/fleet.py:981-989 | a legal relative path is read back from its POSIX text and is safe |
| Paths.SafeParts | src/kernel_infra/fleet.py:981-989 | a text accepted as safe has only legal file names as parts, NUL bytes apart |
| Intake.JoinOfSplit | src/kernel_infra/fleet.py:981-989 | a text is its pieces joined by slashes |
| Intake.SafeExactly | src/kernel_infra/fleet.py:981-989 | a name is refused exactly if it is absolute, has a piece `..`, or has no other piece than empty ones and `.` |
| Manifests.ValidateArtifactManifest | src/kernel_infra/fleet.py:1001-1085 | accepts a JSON value exactly when it is the JSON of a sound manifest, and returns that manifest |
| Manifests.ValidateRows | src/kernel_infra/fleet.py:1066-1082 | accepts exactly the lists of normalized, strictly ascending rows, and sums their sizes |
| Manifests.ToJsonIsInjective | src/kernel_infra/fleet.py:1132-1146 | the JSON value determines the manifest |
| Artifacts.Walk | src/kernel_infra/fleet.py:1107-1125 | finds every file once and their total size, refusing exactly on a non-file or a limit exceeded |
| Artifacts.BuildArtifactManifest | src/kernel_infra/fleet.py:1088-1147 | succeeds exactly for a terminal run with an existing directory of plain files within the limits, and describes those files |
| Artifacts.WriteArtifactExport | src/kernel_infra/fleet.py:1150-1170 | the manifest first, then one member for each file |
| Receiving.ReceiveArtifactExport | src/kernel_infra/fleet.py:1173-1249 | returns a mirror exactly for accepted archives, and then the only one |
| Receiving.Unpack | src/kernel_infra/fleet.py:1183-1217 | the members are unpacked exactly when each is admissible after those before it |
| Receiving.DuplicateIsRefused | src/kernel_infra/fleet.py:1188-1191 | a repeated member name is never admissible |
| Receiving.ExtractedIsLegal | src/kernel_infra/fleet.py:1205-1217 | what is unpacked is a tree a file system can hold |
| Intake.TargetExactly | src/kernel_infra/fleet.py:992-998 | the manifest lies at the top of an export, everything else below `artifacts` |
| Intake.WellFormedExactly | src/kernel_infra/fleet.py:1183-1217 | an export passes the checks on its members, whatever their order, if and only if it starts with a manifest of at most 16 MiB and goes on with at most 10,000 files below `artifacts`, none in the way of another, within the byte limit; and it unpacks to just these |
| Intake.AcceptedExactly | src/kernel_infra/fleet.py:1173-1249 | the receiver accepts exactly the exports: such archives whose manifest is the one the writer makes of the files in them |
| ArtifactTheorems.ExportIsReceived | src/kernel_infra/fleet.py:1150-1249 | an export is received as exactly the exported manifest and tree if and only if its identity fields are well formed, its encoded manifest is at most 16 MiB and its files fit the receiver's limit |
| ArtifactTheorems.ExportCanBeRefused | src/kernel_infra/fleet.py:1049-1050 | a run without a terminal timestamp is exported, and refused by every receiver |
| ArtifactTheorems.ManifestIsSoundExactly | src/kernel_infra/fleet.py:1001-1147 | the manifest the writer builds validates exactly when the run's identity fields are well formed and the total fits |
| ArtifactTheorems.AcceptedIsAnExport | src/kernel_infra/fleet.py:1218-1249 | conversely an accepted tree is legal and its manifest (paths, sizes, total, set digest) is the one the writer makes of it |
| ArtifactTheorems.TamperingIsACollision | src/kernel_infra/fleet.py:1246-1248 | an archive accepted with the set digest of an exported tree holds that tree, or two different streams collide under SHA-256 |
| Inbox.FleetInbox.Receive | src/kernel_infra/fleet.py:571-659 | installs, finds installed or refuses the bundle; a refusal changes no entry, and no staging directory is left in any case |
| Inbox.FleetInbox.Install | src/kernel_infra/fleet.py:605-656 | a staged bundle is installed only if verified and not there, reused only if verified and the same |
| Inbox.Unpack | src/kernel_infra/fleet.py:579-604 | the staging directory after all members, or refusal |
| Intake.BundlePathExactly | src/kernel_infra/fleet.py:560-569 | a bundle holds its manifest, its task and things below `candidate` |
| Intake.UnpackedExactly | src/kernel_infra/fleet.py:579-604 | an archive unpacks, whatever the order of its members, if and only if all are files and directories that may lie in a bundle, no two are in each other's way, and the files weigh at most 256 MiB; and to just these files and directories |
| Intake.ReceivedExactly | src/kernel_infra/fleet.py:571-659 | a bundle is received exactly if its name is one, it unpacks and is genuine; installed if the name is free, reused if what is installed has the same manifest, task digest and candidate hash, and refused otherwise |
| InboxTheorems.InboxGrows | src/kernel_infra/fleet.py:571-659 | after any sequence of receives every entry is named by the address of its own task and candidate digests, and no installed entry changed |
| InboxTheorems.DriftIsACollision | src/kernel_infra/fleet.py:642-652 | a verified bundle is refused against an installed one only if two pairs of digests share an address or two tasks a digest |
| InboxTheorems.PayloadUnpacks | src/kernel_infra/fleet.py:552-607 | the archive of a payload, its members in any order, unpacks to the payload; it is refused exactly beyond 256 MiB |
| InboxTheorems.PayloadIsVerified | src/kernel_infra/fleet.py:535-551 | a created payload verifies under its own address |
| InboxTheorems.CreatedIsReceived | src/kernel_infra/fleet.py:530-659 | a created bundle within the limit is installed on first receipt and reported as reused on the second, which changes nothing |
| Snapshots.StreamAndSizesIdentify | src/kernel_infra/candidate.py:96-108 | the stream of a snapshot together with the sizes of its files in order identifies the files |
| Snapshots.Swallowed | src/kernel_infra/candidate.py:100-107 | the stream alone does not: a file whose content ends with the frame of another stands for both |
| Snapshots.CandidatesShareHash | src/kernel_infra/candidate.py:96-108 | so different candidates have the same hash without a collision of SHA-256 |
| Snapshots.OtherCandidateIsReused | src/kernel_infra/fleet.py:642-653 | and the inbox reports the second as reused when it holds the first |
| SnapshotAmbiguity.AmbiguousExactly | src/kernel_infra/candidate.py:96-108 | a candidate shares its stream with another one if and only if it has at least two files, or the content of its only file ends with the frame of a file that can lie after it |
| SnapshotAmbiguity.SharesHashExactly | src/kernel_infra/candidate.py:96-108 | without collisions of SHA-256, the same condition decides whether another candidate has its hash |
| SnapshotAmbiguity.ReusedExactly | src/kernel_infra/fleet.py:642-653 | asked for the address of a bundle it holds, the inbox answers that it has the archive of a bundle of the same task exactly if the candidates have the same hash |
| Diagnosis.BuildDiagnosis | src/kernel_infra/diagnostics.py:294-414 | refused for a missing or negative threshold; otherwise one finding per run, and the verdict they and the queue determine |
| Diagnosis.ProbeUnknown | src/kernel_infra/diagnostics.py:343-366 | the broker counts as unknown exactly when the snapshot is missing, in error, incomplete, malformed or of unknown freshness |
| Diagnosis.OneThresholdPerRun | src/kernel_infra/diagnostics.py:75-291 | for each run: unknown does not depend on the attention threshold, and its alarm is raised up to one threshold, always or never |
| Diagnosis.VerdictHasOneThreshold | src/kernel_infra/diagnostics.py:403-414 | for a fixed observation the unknown verdict does not depend on the threshold, attention is called up to one threshold, always or never, and raising it never turns ok into attention |
| Diagnosis.FindingsHaveEvidence | src/kernel_infra/diagnostics.py:134-291 | terminal exactly for ended runs; a suspected stall is overdue, over a declared timeout or on other GPUs than recorded; waiting and running runs are so locally or in the broker lists |
| Diagnosis.BrokerMattersExactly | src/kernel_infra/diagnostics.py:105-189 | the broker contents can change the finding of a run exactly when it is nonterminal, readable, not at a local or service stage, and has a broker job or a broker stage |
| DiagnosisVerdicts.RunningJobExactly | src/kernel_infra/diagnostics.py:218-262 | for the job listed last under the id of the run among the running ones of a known broker: a suspected stall if and only if it overran the declared run timeout by over five seconds, the run records other GPUs, or the run is overdue and not in state running |
| DiagnosisVerdicts.QueuedJobExactly | src/kernel_infra/diagnostics.py:183-216 | for a job only in the queue: a suspected stall if and only if it overran the declared queue timeout by over five seconds, otherwise a long wait if and only if its wait reaches the threshold |
| DiagnosisVerdicts.NoJobExactly | src/kernel_infra/diagnostics.py:157-291 | for a run without a job, or with one the broker neither runs nor queues: a suspected stall if and only if it is overdue |
| DiagnosisVerdicts.OnHostExactly | src/kernel_infra/diagnostics.py:128-148 | at a local or service stage: running, or waiting for capacity, long from the threshold on |
| DiagnosisVerdicts.UnknownExactly | src/kernel_infra/diagnostics.py:104-227 | when unknown is answered |
| DiagnosisVerdicts.ProgressingExactly | src/kernel_infra/diagnostics.py:87-291 | when progressing is answered |
| DiagnosisVerdicts.KnownExactly | src/kernel_infra/diagnostics.py:311-366 | the broker is known exactly if its status is current, complete and without error, and every item in it can be read |
| DiagnosisVerdicts.BrokerExactly | src/kernel_infra/diagnostics.py:318-388 | and then the jobs are looked up among the running and waiting ones as listed |
| DiagnosisVerdicts.VerdictExactly | src/kernel_infra/diagnostics.py:403-414 | unsure exactly if the broker or some run is unknown, otherwise attention exactly if some run is stalled or waits long or some job in the queue waits at least the threshold |

## Left out

- Store and log writes are taken to succeed, and log pumps not to fail; a crash between writing
  result.json and state.json (recovery then marks the run interrupted beside a saved result) is not modelled.
- Times in milliseconds are reals, clocks are counters; the rounding of ages to milliseconds is not modelled.
- Reason strings, notes, samples, metrics and the `speedup` and `correct` fields of stage rows.
- The field-by-field parsers of tasks, services, catalogs and receipts: their guarantees are preconditions
  (`ValidTask`), as is that `probe_fleet` observes each node once.
- Results.ValidateStageResult: does not model the shape checks of unknown fields, samples, notes, metrics and
  `speedup`, which refuse a stage result without touching the fields that are modelled.
- Signals, process groups and `exec_guard.py`: a process is alive until it exits or its group is gone.
- SSH, subprocess and HTTP transports, and the broker itself: their answers are arbitrary inputs.
- `cancel_checked` compares identity fields before the cancel that is modelled; `wait`, `status`,
  `bind_task` and `node_status` only read.
- Deployments are recovered one by one in the daemon's transition system; `ServiceManager.close` is the
  concurrent stop of its active deployments.
- Ownership is modelled as a step system of N processes; `Startup.Host` and `KernelServer.Server.Start`
  perform an undisturbed start. Other programs bind and listen on sockets, but do not remove files.
  Directories of the lock and socket files exist and are writable, and paths are not aliased by mounts.
- os.walk order, set iteration order and recursive globbing are arbitrary orders. File names are UTF-8
  byte strings; a name that is not valid UTF-8 makes the export raise.
- Lengths of 2^64 and more, for which the digest raises, are excluded only where unique decoding needs it.
- Tar framing, sparse members and truncated streams: an archive is a sequence of complete members.
- Files changing while they are exported, and two receives of one bundle racing to the same rename.
- `hash_snapshot` is a function parameter of the inbox; `Snapshots` states what its stream tells.
- `install_artifact_mirror`, route receipts, snapshots of the fleet and the command line.
- Adapters, Docker and CUDA examples.
