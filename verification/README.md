# Autoresearch supervisor: a verified model

This project models the autoresearch supervisor of ZaoFu (`src/zf/autoresearch`) in Dafny
and proves what it keeps over whole runs: an event-sourced queue consumer, a journaled
prepare/cleanup protocol over a git worktree, a rate limiter over a persisted history, and
several searches and folds over an append-only log.

`dafny verify dfyconfig.toml` checks everything.

## Files

| file | what it holds |
|---|---|
| `QueueModel.dfy`, `Resident.dfy` | the queue: derived state, plan and appends of one tick; the resident as loops over the log |
| `QueueAcks.dfy`, `QueueLifecycle.dfy`, `QueueTheorems.dfy` | three automata per id (acknowledgement, loop, evolution) and their invariant over producers, interleaved ticks and crashes; what it means for a reader of the log |
| `QueueAnswers.dfy` | what one tick does with each planned request: order, acknowledgement, answer |
| `QueueSharedIds.dfy`, `QueueUnguarded.dfy` | ids that a loop and an evolution request share; the same runs without the producer guard |
| `QueueGates.dfy`, `QueueGateStories.dfy` | causality and lifecycle of review gate events in the same runs |
| `QueueDrain.dfy` | how many ticks a backlog needs and which tick serves which action |
| `LoopProjection.dfy` | the read model and its agreement with the queue |
| `RequestIdentity.dfy`, `Text.dfy`, `Options.dfy` | the request id as each component derives it; string cleaning and optional values, shared |
| `WorktreeModel.dfy`, `WorktreeSession.dfy`, `WorktreeRecovery.dfy` | preparation steps and cleanup; the imperative form; crash recovery, ownership, re-entrance |
| `WorktreeStack.dfy` | nested preparations of any depth, crashed anywhere and unwound newest first |
| `CheckoutOverlay.dfy` | the name-status parser and the replay of a dirty checkout |
| `Triggers.dfy` | sliding-window budgets and cooldown |
| `FailureSignals.dfy` | failure detectors and their recovery searches |
| `LoopDriver.dfy` | the closed loop driver and its stop reasons |
| `ExperimentGraph.dfy`, `ReworkLedger.dfy`, `EvalResult.dfy` | best path, rework ledger, eval results |

## Modelling decisions

- An event is a type tag plus the identity the code derives from it and the payload fields
  that are read, already stripped; "" stands for a missing field. Instants are integers.
- SHA-256 is injective; the truncated SHA-1 of request ids and the redaction of payloads are
  function parameters with stated assumptions.
- The outside world is a parameter: runner outcomes, archive results, npm and git results,
  clock readings, cost readings. Only the resident writes lifecycle events, there is one
  resident, and event ids are unique and not empty.
- A loop request is produced only if `loop_request_exists` finds no loop event with its id
  (`src/zf/runtime/orchestrator_reactor.py`, lines 6348 to 6368); the guard is part of the
  producer step.
- Each preparation starts in a fresh run directory, npm leaves `web/node_modules` untouched,
  removes it or makes it a directory, and nobody else writes to the worktree while it is
  prepared.
- A crash of a tick keeps any prefix of its appends, and producers may append in between. A
  crash of a preparation keeps any prefix of its steps. A crash of a cleanup may also fall
  inside the removal of a directory.

## What turned out false, and the exact condition

- ACCEPTED does not always come before STARTED. Acknowledgements of loops and evolution
  requests share one set, and the producer guard looks at loop events alone, so both may use
  one id. Every id is acknowledged at most once over both families, and STARTED has an earlier
  ACCEPTED of its own family if and only if the other family did not acknowledge the id first
  (`AcknowledgedOnce`, `StartedAfterAcknowledgement`, `SharedIdReachable`).
- Crash recovery is complete for `zf.yaml`. It is not for the seed file while the overlay has
  changed it but preparation has not yet recorded and written its own (`SeedExposed`), not
  for dependencies that existed before and are relinked or reinstalled (`WebReplaced`), and
  not for HEAD when the baseline commit is made but not yet journaled, or when nothing was
  staged and the journal names the pre-existing HEAD (`HeadExposed`). `CrashRecovery` states
  each of the three as an if-and-only-if. An exception, unlike a crash, is harmless from the
  moment the commit is in memory (`FailureWhileJournaling`).
- Nested preparations do not always restore the worktree. HEAD comes back exactly if every
  baseline commit is recorded by its own level or a later one before the next commit, and no
  level before the first commit records a HEAD that has a parent (`HeadUnwinds`); an inner
  level with nothing staged can thus do the rewind of an outer one. Dependencies depend on
  what the last level leaves and on which level claims it (`WebUnwinds`), the seed file on
  overlays whose version no level at or below knows (`SeedUnwinds`).
- `cleanup_interrupted_prepared_worktree` decides by files alone, so a cleanup that died just
  before the rewind leaves HEAD on the baseline commit for good, unless an original file
  happens to equal the generated one (`InterruptedCleanupAgrees`, `InterruptedCleanupKeepsHead`).
- A cooldown above 60 minutes is not kept, because the check iterates over the last hour,
  unless the daily budget is one, which keeps a cooldown up to a day (`FullCooldownExactly`).
- Copy records can break the overlay: the source of a copy is unlinked like that of a rename.
  A source that is still in the checkout survives exactly if a record of its own comes later
  in the stream (`OverlayReproducesCheckout`, `CopyOrderMatters`).
- Without an explicit id, the directory a loop writes to and the one that is archived differ,
  and such requests share one output directory (`WrittenIsArchivedExactly`,
  `BareRequestsShareDirectory`).
- A document that does not name every default weight can come back with another total
  (`DefaultTotalSurvivesExactly`), and a passed result whose statuses are not normalized can
  come back failed (`RoundTripGates`). Swapping arguments swaps the winner only for a threshold that is
  not negative (`SwapSymmetricExactly`).
- Without the producer guard a loop id keeps to its lifecycle exactly if it is requested once
  (`UnguardedLifecycle`, `UnguardedRequestsStartTwice`).
- Review gate requests are not guarded, so an id requested twice is acknowledged and started
  twice by one tick; the lifecycle holds exactly for ids requested once (`GateLifecycle`,
  `SharedGateAcknowledgedTwice`).
- The delta verdict is not monotone in completed tasks: with a growing backlog, losing tasks
  counts as unchanged where keeping their number counts as regressed (`VerdictMonotone`).
- "One fixed set" of events settles a success handoff only up to repetitions of the trigger's
  own event type, which never count (`StalledExactly`).

Where code and documentation disagree the code is followed. `should_stop_loop` documents
"converged" as passed and improved, the driver also counts unchanged deltas.
`TriggerPolicy.severity_min` is never consulted. A record that renames something from or to
`zf.yaml` is skipped as a whole, including its other path.

## Model

| member | source | states |
|---|---|---|
| Resident.ResolvedIds | src/zf/autoresearch/resident.py:126-162 | the loop over the log collects exactly the keys some event takes out of the pool: an acknowledgement does so for review gates only, STARTED for loops and gates, only a terminal event for evolution requests |
| Resident.PendingRequests | src/zf/autoresearch/resident.py:180-201 | pending requests are the requests of the log, in order, whose key is not resolved |
| Resident.AcceptedIds | src/zf/autoresearch/resident.py:140-146 | loops and evolution requests are acknowledged in one shared set |
| Resident.Process.PlanActions | src/zf/autoresearch/resident.py:296-422 | the plan is evolution requests, then loops, then review gates, each in log order |
| Resident.Process.Acknowledge | src/zf/autoresearch/resident.py:459-486 | every planned runnable loop and evolution request not yet accepted is acknowledged once, before any cap applies |
| Resident.Process.Perform | src/zf/autoresearch/resident.py:489-619 | the lifecycle events each kind of action appends, in order, for either outcome |
| Resident.Process.RunOnce | src/zf/autoresearch/resident.py:425-622 | an authorized tick appends all acknowledgements and then the lifecycles of the served actions; an unauthorized one leaves the log unchanged |
| QueueAnswers.ServedExactly | src/zf/autoresearch/resident.py:487-541 | a tick serves as many planned actions as there are, as the cap allows and as come before a stop; a cap of 0 or less is none |
| QueueAnswers.PlannedExactly | src/zf/autoresearch/resident.py:126-201 | on any log a request is planned exactly if it was made and none of the listed events answers its id |
| QueueAnswers.PlanInOrder | src/zf/autoresearch/resident.py:296-422 | evolution requests come before loops and loops before review gates, and within a family the earlier request first |
| QueueAnswers.AcknowledgedExactly | src/zf/autoresearch/resident.py:459-486 | a tick acknowledges an id exactly if a runnable loop or an evolution request is planned under it and neither family acknowledged it before |
| QueueAnswers.ExecuteAnswers | src/zf/autoresearch/resident.py:541-608 | an action that runs is started and completed or failed as its runner says, any other is skipped, and a worktree report appears exactly if a loop ran and made one |
| QueueAnswers.AnsweredExactly | src/zf/autoresearch/resident.py:541-608 | a request planned once, at position p, is answered exactly if the tick gets to it: completed if and only if its own outcome is a success, failed if and only if not |
| QueueAnswers.RunAnswers | src/zf/autoresearch/evolution_resident.py:108-161 | in every run this holds for each loop and each evolution request |
| QueueLifecycle.LoopPhaseFacts | src/zf/autoresearch/resident.py:126-146 | the handled set of a loop is determined by the phase of the request in the lifecycle automaton, and the acknowledgements of loops bound it |
| QueueLifecycle.EvoPhaseFacts | src/zf/autoresearch/evolution_resident.py:29-52 | the same for evolution requests, which are resolved by a terminal event alone |
| QueueLifecycle.PlanOnce | src/zf/autoresearch/resident.py:310-345 | on an orderly log no loop and no evolution request is planned twice |
| QueueLifecycle.TickOrderly | src/zf/autoresearch/resident.py:459-608 | one tick, with any cap, stop point and outcomes, keeps every id to its three automata, also an id that both families use |
| QueueLifecycle.ProduceKeeps | src/zf/runtime/orchestrator_reactor.py:6348-6368 | a guarded request keeps the invariant even in the middle of a tick |
| QueueLifecycle.RunInv | src/zf/autoresearch/resident.py:425-622 | every state of every run of guarded producers, interleaved ticks and crashes satisfies the invariant |
| QueueTheorems.LoopLifecycle | src/zf/autoresearch/resident.py:459-608 | in every reachable log two events of one loop request are in strict order REQUESTED, ACCEPTED, STARTED, terminal, so each occurs at most once |
| QueueTheorems.LoopCausality | src/zf/autoresearch/resident.py:535-608 | every completed or failed loop has an earlier STARTED, and every loop event an earlier request of matching policy |
| QueueTheorems.AcknowledgedOnce | src/zf/autoresearch/resident.py:459-486 | in every reachable log each id is acknowledged at most once over loops and evolution requests together |
| QueueTheorems.StartedAfterAcknowledgement | src/zf/autoresearch/resident.py:140-146 | whatever starts was acknowledged before by exactly one family: an earlier ACCEPTED of its own exists if and only if the other family has none under that id |
| QueueTheorems.EvolutionLifecycle | src/zf/autoresearch/evolution_resident.py:108-161 | an evolution request is acknowledged once and answered at most once; only STARTED may repeat |
| QueueTheorems.EvolutionStaysPending | src/zf/autoresearch/evolution_resident.py:29-43 | an evolution request is planned exactly until a terminal event answers it |
| QueueTheorems.StartedNeverPlannedAgain | src/zf/autoresearch/resident.py:126-137 | a loop that crashed after STARTED, or a review gate after its acknowledgement, is never planned again in any continuation |
| QueueTheorems.TickPrefixReachable | src/zf/autoresearch/resident.py:425-622 | the run model reaches every prefix of what one call of the resident appends |
| QueueTheorems.TickReachesOnlyPrefixes | src/zf/autoresearch/resident.py:425-622 | after a tick, appends and crashes alone never leave anything but a prefix of what that call appends |
| QueueTheorems.UnguardedRequestsStartTwice | src/zf/autoresearch/loop_requests.py:254-257 | without the guard, two requests under one id are both started in one tick |
| QueueUnguarded.UnguardedLifecycle | src/zf/autoresearch/loop_requests.py:242-257 | with producers that do not ask the guard, the loop events of an id are in strict lifecycle order if and only if the id is requested at most once |
| QueueSharedIds.SharedIdSkipsAcknowledgement | src/zf/autoresearch/resident.py:140-146 | a loop whose id is accepted as an evolution request starts without an ACCEPTED of its own |
| QueueSharedIds.SharedIdReachable | src/zf/runtime/orchestrator_reactor.py:6348-6368 | for every id a guarded run reaches such a log |
| QueueGates.GateCausality | src/zf/autoresearch/resident.py:920-965 | in every reachable log each review gate event comes after its cause, from request to acknowledgement to start to answer |
| QueueGateStories.GateLifecycle | src/zf/autoresearch/resident.py:920-965 | in every reachable log the gate events of an id are a beginning of its lifecycle, each once and in order, if and only if the id is requested at most once |
| QueueGateStories.SharedGateAcknowledgedTwice | src/zf/autoresearch/resident.py:149-162 | two gate requests under one id are both acknowledged and started by one tick |
| QueueDrain.TickConsumesPrefix | src/zf/autoresearch/resident.py:487-541 | an undisturbed tick consumes exactly the actions it serves; the next plan is the rest, in the same order |
| QueueDrain.ServedInItsTick | src/zf/autoresearch/resident.py:487-541 | under cap k the action at position p is served by tick p / k and by no other |
| QueueDrain.DrainBound | src/zf/autoresearch/resident.py:487-541 | with distinct ids a backlog of n actions is drained exactly from tick ceil(n / k) on |
| QueueDrain.DrainsInTime | src/zf/autoresearch/resident.py:487-541 | on any log, ids distinct or not, t ticks take at least t * k actions off the plan, so it is empty from tick ceil(n / k) on |
| QueueDrain.FirstTickAcknowledgesAll | src/zf/autoresearch/resident.py:450-486 | after the first authorized tick every runnable loop and evolution request is accepted, also beyond the cap |
| QueueDrain.ReachablePlanDistinct | src/zf/autoresearch/resident.py:296-422 | a reachable plan has distinct ids as soon as the review gate requests do |
| QueueDrain.ReachableDrains | src/zf/autoresearch/resident.py:448-541 | from every idle state of every run, undisturbed ticks are a continuation of the run and drain its plan exactly from tick ceil(n / k) on, once pending gate ids are distinct |
| LoopProjection.CountRows | src/zf/autoresearch/loop_requests.py:326-327 | the counter gives for every status the number of rows that have it |
| LoopProjection.Project | src/zf/autoresearch/loop_requests.py:260-344 | the projection counts, per request id, the status set by its last lifecycle event |
| LoopProjection.RowIsLast | src/zf/autoresearch/loop_requests.py:288-299 | on any log a row holds the type of the last loop event of its id |
| LoopProjection.SummaryExactly | src/zf/autoresearch/loop_requests.py:326-339 | pending, active, completed, failed and skipped count the ids whose last loop event is of the matching type |
| LoopProjection.SummaryPartitions | src/zf/autoresearch/loop_requests.py:326-339 | on any log, pending + active + completed + failed + skipped = total |
| LoopProjection.RowIsPhase | src/zf/autoresearch/loop_requests.py:288-299 | on an orderly log the row status is the phase of the request |
| LoopProjection.ReadModelAgrees | src/zf/autoresearch/loop_requests.py:242-344 | in every reachable log the rows shown as pending are exactly the requests the resident still plans, each counted once |
| RequestIdentity.BuiltPayloadCoherent | src/zf/autoresearch/loop_requests.py:178-239 | for every built payload the plan, command, envelope and lifecycle events compute the same non-empty id |
| RequestIdentity.Precedence | src/zf/autoresearch/loop_requests.py:178-212 | loop_request_id decides before request_id, even a blank one hides the other, and otherwise trigger or invocation, fingerprint and fallback are joined and hashed |
| RequestIdentity.WrittenIsArchivedExactly | src/zf/autoresearch/resident.py:204-234 | the written directory is the archived one exactly when the payload has an explicit id or the event is called "request" |
| RequestIdentity.DirectoryShared | src/zf/autoresearch/resident.py:204-234 | two requests without an explicit id write to one directory exactly when trigger and fingerprint give them the same origin |
| RequestIdentity.BareRequestsShareDirectory | src/zf/runtime/loop_actions.py:281-311 | requests with no id, trigger or fingerprint get distinct plan ids but one shared output directory |
| WorktreeSession.Session.EnsureWebDependencies | src/zf/autoresearch/orchestrator.py:281-325 | the mode and the new node_modules for every combination of package, compiler and link |
| WorktreeSession.Session.PrepareWorktree | src/zf/autoresearch/orchestrator.py:524-668 | the state after any number of preparation steps |
| WorktreeSession.Session.CleanupFile | src/zf/autoresearch/worktree_preparation.py:56-80 | a generated file is restored or removed only if its content is the recorded one, and the report says which |
| WorktreeSession.Session.CleanupWebDependencies | src/zf/autoresearch/worktree_preparation.py:210-254 | dependencies are removed only if recorded as the framework's own link or installation |
| WorktreeSession.Session.CleanupPreparedWorktree | src/zf/autoresearch/worktree_preparation.py:33-137 | cleanup changes the tree alone, and reports every file as restored, removed or retained |
| WorktreeSession.Session.CrashAndCleanup | src/zf/autoresearch/orchestrator.py:524-697 | a preparation that dies after any step, followed by cleanup, gives back zf.yaml always and seed file, dependencies and HEAD exactly outside the named windows, and the report says whether zf.yaml was restored and HEAD rewound |
| WorktreeSession.ReportExactly | src/zf/autoresearch/worktree_preparation.py:54-137 | for any tree and journal: a file is reported retained exactly if it is there and not the recorded one, restored or removed exactly if it is; dependencies and HEAD likewise; the status is "cleaned" exactly if nothing is retained |
| WorktreeSession.ReportTrue | src/zf/autoresearch/worktree_preparation.py:54-92 | what is reported restored has its backup, what is removed is gone, what is retained is untouched, and HEAD moved exactly if reported |
| WorktreeSession.LaterWorkReported | src/zf/autoresearch/worktree_preparation.py:66-91 | edits of generated files after a full preparation are reported as retained, so the status is not "cleaned" |
| WorktreeSession.FullPreparationCleans | src/zf/autoresearch/worktree_preparation.py:41-92 | after a complete preparation nothing is retained, and each file is restored if it existed and removed otherwise |
| WorktreeRecovery.PrepareAt | src/zf/autoresearch/orchestrator.py:555-668 | the closed form of the state after n steps: from the first journal write on the journal equals the in-memory manifest |
| WorktreeRecovery.CrashRecovery | src/zf/autoresearch/orchestrator.py:555-697 | for every prefix of the preparation, cleanup restores zf.yaml always, and seed file, dependencies and HEAD exactly outside the named windows; absent dependencies become absent again |
| WorktreeRecovery.FailureRecovery | src/zf/autoresearch/orchestrator.py:669-697 | the exception handler achieves the same after a failure in any journaled step |
| WorktreeRecovery.FailureWhileJournaling | src/zf/autoresearch/orchestrator.py:596-697 | an exception inside a journal write has the outcome of the completed write, because the handler journals what is in memory |
| WorktreeRecovery.FailureRemovesWeb | src/zf/autoresearch/orchestrator.py:669-697 | whatever a failed preparation recorded, the handler makes cleanup remove dependencies that were not there before |
| WorktreeRecovery.EnsureCompiles | src/zf/autoresearch/orchestrator.py:281-325 | a worktree with a web package ends up with a compiler exactly if it had one, the repository has one and only a link is in the way, or npm installed one |
| WorktreeRecovery.EnsureModes | src/zf/autoresearch/orchestrator.py:281-325 | when each mode is returned and what it leaves at node_modules |
| WorktreeRecovery.CleanupOwnsOnly | src/zf/autoresearch/worktree_preparation.py:54-137 | on any tree and manifest, cleanup alters only what the manifest proves to be the framework's, and moves HEAD by at most one commit and only from the recorded checkpoint |
| WorktreeRecovery.LaterWorkSurvives | src/zf/autoresearch/worktree_preparation.py:103-137 | a commit on top of the checkpoint and edits of generated files survive cleanup |
| WorktreeRecovery.CleanupReentrant | src/zf/autoresearch/worktree_preparation.py:54-92 | any number of cleanups cut off anywhere, then a full one, reach what one cleanup reaches |
| WorktreeRecovery.CutParts | src/zf/autoresearch/worktree_preparation.py:54-92 | a cleanup cut off after k parts has done exactly the first k |
| WorktreeRecovery.InterruptedCleanupAgrees | src/zf/autoresearch/worktree_preparation.py:140-207 | the guarded entry point equals cleanup exactly when its pending test fires or HEAD is not at the checkpoint |
| WorktreeRecovery.InterruptedCleanupRestoresFiles | src/zf/autoresearch/worktree_preparation.py:140-207 | the guarded entry point treats files and dependencies exactly as cleanup does |
| WorktreeRecovery.InterruptedCleanupKeepsHead | src/zf/autoresearch/worktree_preparation.py:186-207 | after a cleanup that died before the rewind, the guarded entry point restores HEAD exactly if an original file equals the generated one |
| WorktreeStack.HeadUnwinds | src/zf/autoresearch/worktree_preparation.py:103-137 | for stacked preparations of any depth and crash points, unwound newest first, HEAD comes back if and only if every commit is recorded before the next one and no level before the first commit records a HEAD with a parent |
| WorktreeStack.WebAfterUnwind | src/zf/autoresearch/worktree_preparation.py:210-254 | unwinding removes what the last level left if some level that found no dependencies claims it, and leaves it otherwise |
| WorktreeStack.WebUnwinds | src/zf/autoresearch/worktree_preparation.py:210-254 | the exact condition under which the dependencies of a stack come back |
| WorktreeStack.SeedUnwinds | src/zf/autoresearch/worktree_preparation.py:68-80 | the seed file of a stack comes back if and only if no exposed overlay left a version that the levels above bring back and no level up to it knows |
| WorktreeStack.ZfUnwinds | src/zf/autoresearch/worktree_preparation.py:54-67 | zf.yaml comes back from every stack |
| WorktreeStack.StackUnwinds | src/zf/autoresearch/orchestrator.py:557-567 | the whole worktree comes back if and only if HEAD, dependencies and seed file meet their conditions |
| WorktreeStack.CoveredUnwinds | src/zf/autoresearch/orchestrator.py:557-567 | levels that could each be cleaned up on their own can be stacked |
| CheckoutOverlay.ParseInvertsPrint | src/zf/autoresearch/orchestrator.py:359-405 | splitting, filtering and parsing the NUL-separated stream inverts printing it |
| CheckoutOverlay.TruncatedRecordIgnored | src/zf/autoresearch/orchestrator.py:373-405 | a stream that breaks off inside a record loses that record alone |
| CheckoutOverlay.SyncTracked | src/zf/autoresearch/orchestrator.py:370-425 | the token loop replays the parsed records on the worktree and summarizes them, truncated streams included |
| CheckoutOverlay.OverlayReproducesCheckout | src/zf/autoresearch/orchestrator.py:373-425 | replaying a diff on the HEAD tree reproduces the checkout on every unprotected path if and only if each copy of such a path that is still in the checkout is followed by a record that brings the path back |
| CheckoutOverlay.OverlayAt | src/zf/autoresearch/orchestrator.py:373-425 | the same path by path, protected paths and several records of one path included |
| CheckoutOverlay.CopyOrderMatters | src/zf/autoresearch/orchestrator.py:376-396 | for a modified file and a copy of it, the order of the two records decides whether the overlay loses the file |
| CheckoutOverlay.ChangesAreReported | src/zf/autoresearch/orchestrator.py:346-425 | for any stream, every changed path is named in the summary and zf.yaml never is |
| CheckoutOverlay.SummaryExactly | src/zf/autoresearch/orchestrator.py:376-418 | each list of the summary holds exactly the paths of the records of its kind, and none of a record that names zf.yaml |
| CheckoutOverlay.NothingInvented | src/zf/autoresearch/orchestrator.py:376-418 | for any stream, contents come from the checkout alone, and a path disappears only for its deletion or as the old path of a pair |
| Triggers.FindRecentAccepted | src/zf/autoresearch/triggers.py:216-229 | the accepted decisions not older than the window, future ones included |
| Triggers.DecideTrigger | src/zf/autoresearch/triggers.py:232-285 | the decision with its priority of skip reasons |
| Triggers.ScanTriggerDecisions | src/zf/autoresearch/triggers.py:355-383 | each decision of a scan sees the persisted history and the earlier decisions of the scan |
| Triggers.AcceptsExactly | src/zf/autoresearch/triggers.py:257-285 | with a clock that does not run backwards a signal is accepted exactly if it is eligible, both windows have room, and its problem was not accepted within the cooldown or the last hour |
| Triggers.ReasonsExactly | src/zf/autoresearch/triggers.py:232-285 | each skip reason as an if-and-only-if on the policy, the two windows and the cooldown, and what the decision records |
| Triggers.KeptExactly | src/zf/autoresearch/triggers.py:355-396 | a caller that persists accepted decisions only leaves out exactly the others |
| Triggers.BudgetsHold | src/zf/autoresearch/triggers.py:216-396 | over any sequence of persisted scans and any clock, every closed one-hour and 24-hour window is within budget, and decisions on one problem are more than min(cooldown, 60 minutes) apart |
| Triggers.FullCooldownExactly | src/zf/autoresearch/triggers.py:257-285 | every policy keeps its whole cooldown on every scan if and only if it accepts nothing, or the cooldown is at most 60 minutes, or at most a day with a daily budget of one |
| FailureSignals.Detect | src/zf/autoresearch/failure_signals.py:406-530 | the detector loops report, in log order, the events that satisfy the pointwise condition |
| FailureSignals.SignalsRising | src/zf/autoresearch/failure_signals.py:406-530 | signals come in log order, each once |
| FailureSignals.FatalExactly | src/zf/autoresearch/failure_signals.py:449-530 | a fatal event is reported exactly if its task is unknown or no later event of the task is of a listed type |
| FailureSignals.StuckExactly | src/zf/autoresearch/failure_signals.py:234-447 | a stuck worker is reported exactly if it did not move later, its newest state report was not idle and its last task was not over, or it is unknown; a failed recovery always |
| FailureSignals.IdleExactly | src/zf/autoresearch/failure_signals.py:260-280 | the newest heartbeat or state change before the event decides whether the worker was idle |
| FailureSignals.TaskExactly | src/zf/autoresearch/failure_signals.py:281-313 | the last task of a worker is what the newest event that gives it one says |
| FailureSignals.NoTaskExactly | src/zf/autoresearch/failure_signals.py:281-313 | a worker that no event gives a task has none |
| FailureSignals.ReplanExactly | src/zf/autoresearch/failure_signals.py:991-1139 | a replan request is reported exactly if no later event shows that it went on, in a closed form of the nested rules |
| FailureSignals.TaskRefExactly | src/zf/autoresearch/failure_signals.py:1141-1281 | a rejected or missing task ref is reported exactly if no later event delivers it |
| FailureSignals.VerifierExactly | src/zf/autoresearch/failure_signals.py:1613-1673 | a verifier without its tool is reported exactly if its task was neither passed nor finished later |
| FailureSignals.PreflightExactly | src/zf/autoresearch/failure_signals.py:1284-1364 | a preflight failure is reported exactly if its task neither failed again nor moved on |
| FailureSignals.StaleExactly | src/zf/autoresearch/failure_signals.py:1041-1075 | the first event that decides about a stale task map decides it, and only a replan request that led nowhere decides against recovery |
| FailureSignals.UndecidedNeverRecovers | src/zf/autoresearch/failure_signals.py:1041-1075 | without a deciding event a stale task map is not recovered |
| FailureSignals.DetectPreflight | src/zf/autoresearch/failure_signals.py:1284-1364 | grouping by task and taking the latest failure reports exactly the events with no later failure or recovery of their task |
| FailureSignals.DetectStalls | src/zf/autoresearch/failure_signals.py:1462-1529 | the handoff detector reports the stalled events in log order |
| FailureSignals.SuppressionPermanent | src/zf/autoresearch/failure_signals.py:234-530 | for six detectors and any extension of the log, an old event is reported only if it was reported before |
| FailureSignals.StaleTaskMapMonotone | src/zf/autoresearch/failure_signals.py:1041-1075 | the early-returning search never takes a recovery back |
| FailureSignals.StalledExactly | src/zf/autoresearch/failure_signals.py:1389-1529 | a handoff is reported exactly if it is pass-equivalent, out of grace, outside a candidate flow, and no later event of its task of another type is in one fixed set |
| FailureSignals.SettlingTypes | src/zf/autoresearch/failure_signals.py:102-129 | the fixed set of settling events, written out |
| FailureSignals.StalledNamesDefaultRole | src/zf/autoresearch/failure_signals.py:1532-1560 | the observed target role never reaches a report |
| FailureSignals.ObservedRoleIsFirst | src/zf/autoresearch/failure_signals.py:1532-1560 | the observed role is that of the first later dispatch of the task that names one |
| FailureSignals.StalledEarlier | src/zf/autoresearch/failure_signals.py:1462-1529 | at a fixed clock handoff suppression is permanent too |
| LoopDriver.LoopState.Update | src/zf/autoresearch/loop_driver.py:640-668 | how one iteration moves the streak counters and the cost |
| LoopDriver.Iterate | src/zf/autoresearch/loop_driver.py:563-671 | after every iteration the counters equal the lengths of the matching trace suffixes and the decision is the trace's reason |
| LoopDriver.RunLoop | src/zf/autoresearch/loop_driver.py:529-721 | with at least one iteration allowed the loop ends at the first iteration that has a reason, never later than the limit, and always with a real reason |
| LoopDriver.ReasonExactly | src/zf/autoresearch/loop_driver.py:76-137 | each stop reason as an if-and-only-if on the trace: done exactly at the limit, below budget, with a success and enough tasks, an unmet limit exactly otherwise there, and so on |
| LoopDriver.VerdictExactly | src/zf/autoresearch/loop_eval.py:707-760 | when the delta of two snapshots is regressed and when it is improved |
| LoopDriver.IterationExactly | src/zf/autoresearch/loop_driver.py:640-650 | an iteration regressed exactly if its delta did, and passed exactly if it succeeded and did not regress |
| LoopDriver.CostExactly | src/zf/autoresearch/loop_driver.py:651-668 | the cost is the last reading that succeeded, not below zero |
| LoopDriver.NeverBothStreaks | src/zf/autoresearch/loop_driver.py:640-650 | the two streaks are never both positive |
| LoopDriver.ReasonsMean | src/zf/autoresearch/loop_driver.py:76-137 | no_progress needs four iterations and three deltas without rising completed tasks; converged two successes in a row; done comes only at the limit |
| LoopDriver.VerdictMonotone | src/zf/autoresearch/loop_eval.py:707-760 | fewer critical metrics, a smaller backlog or more healthy metrics never worsen a verdict; more completed tasks do in exactly one case |
| ExperimentGraph.Graph.AddRecord | src/zf/autoresearch/experiment_graph.py:65-122 | a record creates or updates its own node only, non-empty fields win, scores are clamped |
| ExperimentGraph.MergeExactly | src/zf/autoresearch/experiment_graph.py:65-107 | field by field what a record changes in its node and what it keeps; scores are clamped, an unreadable one clears the score |
| ExperimentGraph.Graph.BestExperimentId | src/zf/autoresearch/experiment_graph.py:147-161 | the passed node above all others in score, update time and id, or none if nothing passed |
| ExperimentGraph.BestExactly | src/zf/autoresearch/experiment_graph.py:147-161 | no passed and scored node has a higher score than the best, or the same with a later update, or both with a later id; if there is such a node there is a best one |
| ExperimentGraph.TextLessExactly | src/zf/autoresearch/experiment_graph.py:147-161 | text order, spelled out |
| ExperimentGraph.Graph.BestPath | src/zf/autoresearch/experiment_graph.py:163-175 | for any records, cycles included, a duplicate-free line of parent edges that ends at the best node and starts at a root or where its parent is already on the line |
| ExperimentGraph.StartsAtRootExactly | src/zf/autoresearch/experiment_graph.py:124-175 | the line starts at a root exactly if following parents from the best node reaches one |
| ExperimentGraph.AcyclicStartsAtRoot | src/zf/autoresearch/experiment_graph.py:163-175 | with acyclic parents the line always starts at a root |
| ReworkLedger.Scan | src/zf/autoresearch/loop_bypass.py:166-233 | the scan computes the named and anonymous tasks of the log and combines their counts |
| ReworkLedger.LedgerExactly | src/zf/autoresearch/loop_bypass.py:184-232 | a named reworked task counts as passed exactly if it is done and as pending exactly if not; anonymous ones are matched one by one |
| ReworkLedger.FirstFatalExactly | src/zf/autoresearch/loop_bypass.py:184-218 | the fatal event of the ledger is the first of the log |
| ReworkLedger.StatusExactly | src/zf/autoresearch/loop_bypass.py:503-514 | each final status as an if-and-only-if on fatal events and counts |
| ReworkLedger.Conservation | src/zf/autoresearch/loop_bypass.py:219-232 | passed after rework + pending rework = rework, for every log |
| ReworkLedger.OrderIndependent | src/zf/autoresearch/loop_bypass.py:184-232 | all counts are invariant under permuting the log |
| ReworkLedger.Growth | src/zf/autoresearch/loop_bypass.py:184-232 | done, rework and passed-after-rework counts never drop as the log grows, and the first fatal event stays |
| ReworkLedger.StatusStable | src/zf/autoresearch/loop_bypass.py:503-514 | a fatal run stays fatal, and a passed run keeps passing unless a fatal event arrives |
| EvalResult.GatesCombine | src/zf/autoresearch/eval_result.py:112-120 | a blocking gate fails any set it joins, an explicit pass counts otherwise, and the order of gates does not matter |
| EvalResult.GateExactly | src/zf/autoresearch/eval_result.py:112-120 | failed exactly if some gate blocks; passed exactly if none does and one passed or all were passed, skipped or not applicable |
| EvalResult.TotalBounded | src/zf/autoresearch/eval_result.py:130-144 | the total lies between the least and the greatest clamped score that counts, up to rounding |
| EvalResult.TotalIsWeightedMean | src/zf/autoresearch/eval_result.py:130-144 | the total is the weighted mean of the scores that count, rounded, in whatever order they are added up; without one it is 0 |
| EvalResult.ActiveExactly | src/zf/autoresearch/eval_result.py:130-144 | a dimension counts exactly if it is scored and its weight is positive |
| EvalResult.TotalInRange | src/zf/autoresearch/eval_result.py:130-144 | the total is between 0 and 100 for every result |
| EvalResult.CompareExactly | src/zf/autoresearch/eval_result.py:258-286 | who wins, exactly: the only passed gate, or the total that is higher by more than the threshold; neither and tie have their exact conditions |
| EvalResult.SwapSymmetricExactly | src/zf/autoresearch/eval_result.py:258-286 | swapping arguments swaps the winner for all pairs if and only if the threshold is not negative |
| EvalResult.BeatsStrictOrder | src/zf/autoresearch/eval_result.py:258-286 | for every non-negative threshold, beating is irreflexive and transitive |
| EvalResult.FromDict | src/zf/autoresearch/eval_result.py:171-215 | loading lays weights over the defaults, clamps scores and cleans statuses |
| EvalResult.FillLast | src/zf/autoresearch/eval_result.py:181-193 | the last member whose stripped key is this one gives its value |
| EvalResult.FillOther | src/zf/autoresearch/eval_result.py:181-193 | a key that no member has, stripped, is left as it was, and blank keys are dropped |
| EvalResult.CleanStatusPadded | src/zf/autoresearch/eval_result.py:82-89 | white space around a status and capitals in it do not matter, and a blank one is unknown |
| EvalResult.LowerExactly | src/zf/autoresearch/eval_result.py:82-89 | lowering changes the letters A to Z in place and nothing else |
| EvalResult.RoundTripGates | src/zf/autoresearch/eval_result.py:74-89 | writing and loading keeps the statuses exactly if they are normalized; a failed result stays failed, and a passed one stays passed exactly unless a status blocks only after cleaning |
| EvalResult.LoadingIdempotent | src/zf/autoresearch/eval_result.py:146-215 | for any document, writing a loaded result and loading it again returns the same gates, scores and weights |
| EvalResult.RoundTripTotal | src/zf/autoresearch/eval_result.py:146-215 | the dimensions that count survive if and only if the weights cover every scored default dimension, and then the total does |
| EvalResult.TotalSurvivesExactly | src/zf/autoresearch/eval_result.py:181-193 | the total survives for every way of scoring if and only if the weights name every default dimension |
| EvalResult.DefaultTotalSurvivesExactly | src/zf/autoresearch/eval_result.py:181-193 | with the default weights of the program: exactly when the weights name all eight dimensions |

## Left out

- Repair dispatch in the resident's plan: it rests on `pending_repair_dispatches`, which keeps its own state.
- The command lines, budgets, archive contents and lifecycle payloads of resident actions: only their success or failure matters to the queue.
- Tracked files other than the seed file that the overlay changes in the worktree: cleanup does not touch them, so they are not part of the restored tree.
- The git index, file metadata, and partly written files: atomic writes and copies are single steps.
- `_latest_manifest`: the newest manifest is taken as given.
- Fanout, semantic-flow, quiescence and read-only-gate detectors: they rest on runtime registries, or report single events without any search.
- FailureSignals.Detect: fingerprints, severities and texts of the signals are not modelled, only which events are reported.
- ReworkLedger.Scan: the lists of rework events and validation kinds are plain copies and left out.
- ExperimentGraph.Graph.AddRecord: kind, hypothesis, references, creation time and metadata of a node are left out, selection and the walk do not read them.
- EvalResult.TotalBounded: totals are rounded over real numbers, not over binary floating point.
- EvalResult.RoundTripGates: `str.lower` is modelled for the letters A to Z.
- LoopProjection.Project: the descriptive columns of a row and the list of recent rows are left out.
- `scenarios`, campaigns, holdout, validity, review-gate artifacts, prompts, reports, screenshots and the command line: formatting or field-by-field code.
