/** Failure detectors over the event log.  Each detector looks at one event and searches the
    log around it for evidence that the failure was recovered. */
module FailureSignals {
  import opened Options

  datatype Type =
    // worker lifecycle
    | WorkerStuck | StuckRecoveryFailed | StuckRecovered | WorkerHeartbeat | AgentUsage | ProviderHook
    | WorkerStateChanged | WorkerRespawnFailed
    // runs and dispatch
    | RunFailed | DispatchFailed | AutoresearchRunFailed
    // tasks
    | TaskAssigned | TaskContractUpdate | TaskContractInvalid | TaskDispatched | TaskReworkRequested | TaskRequeued
    | TaskDone | TaskDoneAccepted | TaskArchived | TaskStatusChanged | TaskDoneEvidence
    | TaskRefUpdated | TaskRefRejected
    // gates
    | ArchProposalDone | DesignCritiqueDone | DevBuildDone | StaticGatePassed | StaticGateSkipped | StaticGateFailed
    | ReviewApproved | ReviewRejected | TestPassed | TestFailed | JudgePassed | JudgeFailed | GatePassed | GateFailed
    | DiscriminatorPassed | DiscriminatorFailed
    // fanout, planning, supervision
    | FanoutStarted | FanoutChildDispatched | FanoutChildCompleted | FanoutChildFailed | FanoutAggregateCompleted
    | CandidateReady | TaskMapReady | RefactorPlanReady | ReplanRequested | HumanEscalate
    | ProposalCreated          // automation.proposal.created
    | SupervisionNotice        // any other autoresearch.*, supervisor.* or owner.* type
    | OtherType

  /** An event with its payload fields read and stripped as the code does; "" stands for a
      missing field. */
  datatype Event = Event(
    id: string, typ: Type,
    task: string,              // task_id of the event or else of the payload
    ownTask: string,           // task_id of the event itself
    worker: string,            // worker, instance, instance_id or actor
    rawTo: string,             // payload "to" as it stands
    to: string,                // payload "to", stripped
    toLower: string,           // payload "to", stripped and lowered
    state: string,             // payload "state", stripped and lowered
    currentTask: string,       // payload current_task_id or task_id
    assignee: string,          // payload assignee or instance_id
    targetRole: string,        // payload assignee, role or target_role
    roles: set<string>,        // payload role, assignee, instance_id and the actor
    reworkOf: string, triggerReworkOf: string, reworkSource: string,
    pddId: string, featureId: string, payloadTrace: string, correlation: string,
    fanoutId: string, childId: string,    // child_id or child_run
    source: string,
    missingRef: bool,          // the reason says the task ref was missing after dev.build.done
    missingTool: bool,         // a ContractD detail reports return code 127 and a missing tool
    skipped: bool, passed: bool,
    ts: Option<int>)           // the timestamp, if it parses

  type Log = seq<Event>

  predicate TerminalDone(e: Event) {
    e.typ.TaskDone? || e.typ.TaskDoneAccepted? || e.typ.TaskArchived? || (e.typ.TaskStatusChanged? && e.rawTo == "done")
  }

  predicate ProgressType(t: Type) {
    t.ArchProposalDone? || t.DesignCritiqueDone? || t.DevBuildDone? || t.StaticGatePassed? || t.StaticGateSkipped?
    || t.StaticGateFailed? || t.ReviewApproved? || t.ReviewRejected? || t.TestPassed? || t.TestFailed? || t.JudgePassed?
    || t.JudgeFailed? || t.GatePassed? || t.GateFailed?
    || t.DiscriminatorPassed? || t.DiscriminatorFailed? || t.TaskRefUpdated?
  }

  // ---------------------------------------------------------------------
  // Searching forward
  // ---------------------------------------------------------------------

  /** What a forward search looks for. */
  datatype Evidence =
    | WorkerMoves(worker: string)
    | FatalAnswered(task: string)
    | ReplanProgress(source: string, pdd: string, trace: string)
    | RejectionAnswered(task: string)
    | RefDelivered(failed: Event)
    | VerifierPassed(task: string)
    | PreflightMovedOn(ownTask: string)
    | HandoffTaken(task: string, trigger: Type)
    | HandoffAnswered(task: string, role: string)

  predicate Supports(ev: Evidence, e: Event) {
    match ev
    case WorkerMoves(worker) => UnsticksWorker(e, worker)
    case FatalAnswered(task) => RecoversFatal(e, task)
    case ReplanProgress(source, pdd, trace) => ReplanDownstream(source, pdd, trace, e)
    case RejectionAnswered(task) => RecoversRejection(e, task)
    case RefDelivered(failed) => RecoversMissingRef(e, failed)
    case VerifierPassed(task) => RecoversVerifier(e, task)
    case PreflightMovedOn(ownTask) => e.ownTask == ownTask && (PreflightInvalid(e) || RecoversPreflight(e))
    case HandoffTaken(task, trigger) => e.task == task && TakesHandoff(e, trigger)
    case HandoffAnswered(task, role) => e.task == task && AnswersHandoff(e, role)
  }

  /** Is there such evidence from position i on?  The early-return search of the
      recovery predicates. */
  predicate Later(events: Log, i: nat, ev: Evidence)
    decreases |events| - i
  {
    i < |events| && (Supports(ev, events[i]) || Later(events, i + 1, ev))
  }

  lemma {:induction false} LaterFinds(events: Log, i: nat, ev: Evidence)
    ensures Later(events, i, ev) <==> exists j :: i <= j < |events| && Supports(ev, events[j])
    decreases |events| - i
  {
    if i < |events| { LaterFinds(events, i + 1, ev); }
  }

  /** Evidence found once is found in every longer log. */
  lemma {:induction false} LaterMonotone(events: Log, more: Log, i: nat, ev: Evidence)
    ensures Later(events, i, ev) ==> Later(events + more, i, ev)
    decreases |events| - i
  {
    if i < |events| {
      assert (events + more)[i] == events[i];
      LaterMonotone(events, more, i + 1, ev);
    }
  }

  // ---------------------------------------------------------------------
  // Recovery
  // ---------------------------------------------------------------------

  predicate UnsticksWorker(e: Event, worker: string) {
    e.worker == worker &&
    (e.typ.StuckRecovered? || e.typ.WorkerHeartbeat? || e.typ.AgentUsage? || e.typ.ProviderHook?
     || (e.typ.WorkerStateChanged? && e.to in {"idle", "busy", "awaiting_review", "blocked"}))
  }

  predicate WorkerStuckRecovered(events: Log, i: nat)
    requires i < |events|
  {
    events[i].worker != "" && Later(events, i + 1, WorkerMoves(events[i].worker))
  }

  const NONBUSY := {"idle", "awaiting_review", "blocked"}

  /** `_worker_idle_when_stuck`: the newest state report before the event. */
  predicate IdleBefore(before: Log, worker: string) {
    if before == [] then false
    else
      var e := before[|before| - 1];
      if e.worker == worker && e.typ.WorkerHeartbeat? then e.state in NONBUSY
      else if e.worker == worker && e.typ.WorkerStateChanged? then e.toLower in NONBUSY
      else IdleBefore(before[..|before| - 1], worker)
  }

  /** The backward search of `_worker_task_terminal_when_stuck` for the worker's task. */
  function TaskBefore(before: Log, worker: string): string {
    if before == [] then ""
    else
      var e := before[|before| - 1];
      if e.worker == worker && e.currentTask != "" then e.currentTask
      else if e.typ.TaskDispatched? && e.assignee == worker && e.task != "" then e.task
      else TaskBefore(before[..|before| - 1], worker)
  }

  predicate TaskTerminalBefore(before: Log, worker: string) {
    var task := TaskBefore(before, worker);
    task != "" && exists j :: 0 <= j < |before| && before[j].task == task && TerminalDone(before[j])
  }

  predicate RecoversFatal(e: Event, task: string) {
    e.task == task &&
    (e.typ.TaskAssigned? || e.typ.TaskContractUpdate? || e.typ.TaskDispatched? || e.typ.TaskReworkRequested?
     || e.typ.TaskRequeued? || e.typ.TaskDone? || e.typ.TaskDoneAccepted? || e.typ.TaskArchived? || ProgressType(e.typ)
     || (e.typ.TaskStatusChanged? && e.rawTo in {"backlog", "blocked", "done"}))
  }

  predicate FatalRecovered(events: Log, i: nat)
    requires i < |events|
  {
    events[i].task != "" && Later(events, i + 1, FatalAnswered(events[i].task))
  }

  function Trace(e: Event): string { if e.payloadTrace != "" then e.payloadTrace else e.correlation }

  function ReworkOf(e: Event): string { if e.reworkOf != "" then e.reworkOf else e.triggerReworkOf }

  /** `_is_replan_downstream_event`. */
  predicate ReplanDownstream(source: string, pdd: string, trace: string, e: Event) {
    var sameRework := source != "" && ReworkOf(e) == source;
    var samePdd := pdd != "" && (if e.pddId != "" then e.pddId else e.featureId) == pdd;
    var sameTrace := trace != "" && Trace(e) == trace;
    if e.typ.HumanEscalate? && (sameRework || samePdd || sameTrace) then true
    else if e.typ.TaskMapReady? || e.typ.RefactorPlanReady? then sameRework || samePdd || sameTrace
    else if e.typ.FanoutStarted? then sameRework || sameTrace
    else if !sameRework then false
    else if e.typ.ReplanRequested? || e.typ.ProposalCreated? then false
    else if e.typ.SupervisionNotice? || e.typ.AutoresearchRunFailed? then false
    else true
  }

  predicate ReplanFollowed(events: Log, i: nat)
    requires i < |events|
  {
    var m := events[i];
    Later(events, i + 1, ReplanProgress(m.reworkOf, m.pddId, Trace(m)))
  }

  /** A new task map for the same design document, made because of a failed child. */
  predicate MapReadyAgain(failed: Event, e: Event) {
    e.typ.TaskMapReady? && failed.pddId != "" && e.pddId == failed.pddId && e.reworkSource == "fanout.child.failed"
  }

  /** `_stale_task_map_recovered`: the first replan marker for the failure decides, even
      when a later event would have recovered it. */
  predicate StaleTaskMapRecovered(events: Log, i: nat, failed: Event)
    decreases |events| - i
  {
    if i >= |events| then false
    else
      var e := events[i];
      if e.reworkOf == failed.id && (e.typ.TaskMapReady? || e.typ.HumanEscalate?) then true
      else if e.reworkOf == failed.id && e.typ.ReplanRequested? then ReplanFollowed(events, i)
      else if e.reworkOf == failed.id && ReplanDownstream(failed.id, failed.pddId, "", e) then true
      else if MapReadyAgain(failed, e) then true
      else StaleTaskMapRecovered(events, i + 1, failed)
  }

  predicate RecoversRejection(e: Event, task: string) {
    e.task == task && (e.typ.TaskRefUpdated? || e.typ.TaskContractUpdate? || e.typ.TaskDispatched?
                       || e.typ.TaskReworkRequested? || e.typ.TaskRequeued? || TerminalDone(e))
  }

  predicate RecoversMissingRef(e: Event, f: Event) {
    || (e.typ.FanoutChildCompleted? && f.fanoutId != "" && f.childId != ""
        && e.fanoutId == f.fanoutId && e.childId == f.childId)
    || (f.fanoutId != "" && e.typ.FanoutAggregateCompleted? && e.fanoutId == f.fanoutId)
    || (f.task != "" && e.task == f.task && (e.typ.TaskRefUpdated? || TerminalDone(e)))
  }

  predicate TaskRefRecovered(events: Log, i: nat)
    requires i < |events|
  {
    var f := events[i];
    if f.typ.TaskRefRejected? then f.task != "" && Later(events, i + 1, RejectionAnswered(f.task))
    else Later(events, i + 1, RefDelivered(f))
  }

  predicate RecoversVerifier(e: Event, task: string) {
    e.task == task && (e.typ.DiscriminatorPassed? || TerminalDone(e))
  }

  predicate VerifierRecovered(events: Log, i: nat)
    requires i < |events|
  {
    events[i].task != "" && Later(events, i + 1, VerifierPassed(events[i].task))
  }

  predicate PreflightInvalid(e: Event) {
    e.ownTask != "" && e.typ.TaskContractInvalid? && e.source == "dispatch_preflight"
  }

  predicate RecoversPreflight(e: Event) {
    || e.typ.TaskContractUpdate? || e.typ.TaskDispatched? || e.typ.TaskRequeued?
    || e.typ.TaskDone? || e.typ.TaskDoneAccepted? || e.typ.TaskArchived?
    || (e.typ.TaskStatusChanged? && e.rawTo in {"backlog", "blocked", "done"})
  }

  /** `_downstream_progress_recovered`, for one later event of the task. */
  predicate TakesHandoff(e: Event, trigger: Type) {
    e.typ != trigger && (DownstreamType(e.typ) || ProgressType(e.typ) || TerminalDone(e))
  }

  predicate DownstreamType(t: Type) {
    t.TaskAssigned? || t.TaskDispatched? || t.FanoutStarted? || t.FanoutChildDispatched? || t.FanoutAggregateCompleted?
    || t.CandidateReady? || t.ReviewApproved? || t.ReviewRejected? || t.TestPassed? || t.TestFailed? || t.JudgePassed?
    || t.JudgeFailed? || t.GatePassed? || t.GateFailed? || t.DiscriminatorPassed? || t.DiscriminatorFailed?
    || t.TaskDoneEvidence? || t.TaskRefUpdated?
  }

  /** `_role_matches`. */
  predicate RoleMatches(text: string, role: string) { text == role || role + "-" <= text }

  /** `_handoff_recovered`, for one later event of the task. */
  predicate AnswersHandoff(e: Event, role: string) {
    || ((e.typ.TaskAssigned? || e.typ.TaskDispatched?) && exists text :: text in e.roles && RoleMatches(text, role))
    || (role == "review" && (e.typ.ReviewApproved? || e.typ.ReviewRejected?))
    || e.typ.TaskContractUpdate? || e.typ.TaskReworkRequested? || e.typ.TaskRequeued? || TerminalDone(e)
    || e.typ.DispatchFailed?
  }

  // ---------------------------------------------------------------------
  // Detectors
  // ---------------------------------------------------------------------

  datatype Detector = Fatal | Stuck | Replan | TaskRef | Preflight | ContractVerifier

  /** Does the detector report the event at position i of this log? */
  predicate Raised(d: Detector, events: Log, i: nat)
    requires i < |events|
  {
    var e := events[i];
    match d
    case Fatal =>
      (e.typ.RunFailed? || e.typ.DispatchFailed? || e.typ.WorkerRespawnFailed? || e.typ.StuckRecoveryFailed?
       || e.typ.AutoresearchRunFailed?)
      && !FatalRecovered(events, i)
    case Stuck =>
      e.typ.StuckRecoveryFailed?
      || (e.typ.WorkerStuck? && !WorkerStuckRecovered(events, i)
          && !(e.worker != "" && IdleBefore(events[..i], e.worker))
          && !(e.worker != "" && TaskTerminalBefore(events[..i], e.worker)))
    case Replan => e.typ.ReplanRequested? && !ReplanFollowed(events, i)
    case TaskRef =>
      (e.typ.TaskRefRejected? || (e.typ.FanoutChildFailed? && e.missingRef)) && !TaskRefRecovered(events, i)
    case Preflight =>
      PreflightInvalid(e)
      && !Later(events, i + 1, PreflightMovedOn(e.ownTask))
    case ContractVerifier => e.typ.DiscriminatorFailed? && e.missingTool && !VerifierRecovered(events, i)
  }

  /** The positions a detector reports, in log order. */
  function Signals(d: Detector, events: Log, n: nat): seq<nat>
    requires n <= |events|
  {
    if n == 0 then [] else Signals(d, events, n - 1) + if Raised(d, events, n - 1) then [n - 1] else []
  }

  /** The detector loops. */
  method Detect(d: Detector, events: Log) returns (signals: seq<nat>)
    ensures signals == Signals(d, events, |events|)
  {
    signals := [];
    for i := 0 to |events|
      invariant signals == Signals(d, events, i)
    {
      if Raised(d, events, i) {
        signals := signals + [i];
      }
    }
  }

  lemma {:induction false} InSignals(d: Detector, events: Log, n: nat, i: nat)
    requires n <= |events|
    ensures i in Signals(d, events, n) <==> i < n && Raised(d, events, i)
  {
    if n > 0 { InSignals(d, events, n - 1, i); }
  }

  /** Signals come in log order, each once. */
  lemma {:induction false} SignalsRising(d: Detector, events: Log, n: nat)
    requires n <= |events|
    ensures Rising(Signals(d, events, n))
    ensures forall k :: 0 <= k < |Signals(d, events, n)| ==> Signals(d, events, n)[k] < n
  {
    if n > 0 { SignalsRising(d, events, n - 1); }
  }

  // ---------------------------------------------------------------------
  // What each detector reports, in terms of the log alone
  // ---------------------------------------------------------------------

  /** A fatal event is reported exactly if its task is unknown or nothing listed here happened
      to it later. */
  lemma FatalExactly(events: Log, i: nat)
    requires i < |events|
    ensures Raised(Fatal, events, i) <==>
      && events[i].typ in {RunFailed, DispatchFailed, WorkerRespawnFailed, StuckRecoveryFailed, AutoresearchRunFailed}
      && (events[i].task == "" || forall j :: i < j < |events| && events[j].task == events[i].task ==>
            && events[j].typ !in {TaskAssigned, TaskContractUpdate, TaskDispatched, TaskReworkRequested, TaskRequeued,
                                  TaskDone, TaskDoneAccepted, TaskArchived}
            && events[j].typ !in {ArchProposalDone, DesignCritiqueDone, DevBuildDone, TaskRefUpdated}
            && events[j].typ !in {StaticGatePassed, StaticGateSkipped, StaticGateFailed, ReviewApproved, ReviewRejected,
                                  TestPassed, TestFailed, JudgePassed, JudgeFailed, GatePassed, GateFailed,
                                  DiscriminatorPassed, DiscriminatorFailed}
            && !(events[j].typ == TaskStatusChanged && events[j].rawTo in {"backlog", "blocked", "done"}))
  {
    LaterFinds(events, i + 1, FatalAnswered(events[i].task));
  }

  /** A replan request is reported exactly if no later event shows that it went on: an event
      of the same rework that is neither a request, a proposal nor a notice; a task map, plan
      or escalation of the same document or trace; a fanout of the same trace. */
  lemma ReplanExactly(events: Log, i: nat)
    requires i < |events|
    ensures Raised(Replan, events, i) <==>
      events[i].typ == ReplanRequested && forall j :: i < j < |events| ==> !FollowsReplan(events[i], events[j])
  {
    var m := events[i];
    LaterFinds(events, i + 1, ReplanProgress(m.reworkOf, m.pddId, Trace(m)));
    forall j | i < j < |events|
      ensures Supports(ReplanProgress(m.reworkOf, m.pddId, Trace(m)), events[j]) <==> FollowsReplan(m, events[j])
    {
    }
  }

  predicate FollowsReplan(m: Event, e: Event) {
    var rework := if e.reworkOf != "" then e.reworkOf else e.triggerReworkOf;
    var document := if e.pddId != "" then e.pddId else e.featureId;
    var trace := if e.payloadTrace != "" then e.payloadTrace else e.correlation;
    var wanted := if m.payloadTrace != "" then m.payloadTrace else m.correlation;
    || (m.reworkOf != "" && rework == m.reworkOf
        && e.typ !in {ReplanRequested, ProposalCreated, SupervisionNotice, AutoresearchRunFailed})
    || (m.pddId != "" && document == m.pddId && e.typ in {HumanEscalate, TaskMapReady, RefactorPlanReady})
    || (wanted != "" && trace == wanted && e.typ in {HumanEscalate, TaskMapReady, RefactorPlanReady, FanoutStarted})
  }

  /** A rejected task ref is reported exactly if its task is unknown or was not taken up
      again; a fanout child that failed for a missing ref exactly if neither the child, its
      fanout nor its task came through. */
  lemma TaskRefExactly(events: Log, i: nat)
    requires i < |events|
    ensures events[i].typ != TaskRefRejected && !(events[i].typ == FanoutChildFailed && events[i].missingRef) ==>
      !Raised(TaskRef, events, i)
    ensures events[i].typ == TaskRefRejected ==>
      (Raised(TaskRef, events, i) <==>
        events[i].task == "" || forall j :: i < j < |events| && events[j].task == events[i].task ==>
          && events[j].typ !in {TaskRefUpdated, TaskContractUpdate, TaskDispatched, TaskReworkRequested, TaskRequeued}
          && events[j].typ !in {TaskDone, TaskDoneAccepted, TaskArchived}
          && !(events[j].typ == TaskStatusChanged && events[j].rawTo == "done"))
    ensures events[i].typ == FanoutChildFailed && events[i].missingRef ==>
      (Raised(TaskRef, events, i) <==> forall j :: i < j < |events| ==> !DeliversRef(events[i], events[j]))
  {
    LaterFinds(events, i + 1, RejectionAnswered(events[i].task));
    LaterFinds(events, i + 1, RefDelivered(events[i]));
    forall j | i < j < |events|
      ensures Supports(RefDelivered(events[i]), events[j]) <==> DeliversRef(events[i], events[j])
    {
    }
  }

  predicate DeliversRef(f: Event, e: Event) {
    || (f.fanoutId != "" && e.fanoutId == f.fanoutId && e.typ == FanoutAggregateCompleted)
    || (f.fanoutId != "" && e.fanoutId == f.fanoutId && f.childId != "" && e.childId == f.childId
        && e.typ == FanoutChildCompleted)
    || (f.task != "" && e.task == f.task
        && (e.typ in {TaskRefUpdated, TaskDone, TaskDoneAccepted, TaskArchived}
            || (e.typ == TaskStatusChanged && e.rawTo == "done")))
  }

  /** A verifier that lacks its tool is reported exactly if its task is unknown, or was neither
      passed by the discriminator nor finished later. */
  lemma VerifierExactly(events: Log, i: nat)
    requires i < |events|
    ensures Raised(ContractVerifier, events, i) <==>
      && events[i].typ == DiscriminatorFailed && events[i].missingTool
      && (events[i].task == "" || forall j :: i < j < |events| && events[j].task == events[i].task ==>
            && events[j].typ !in {DiscriminatorPassed, TaskDone, TaskDoneAccepted, TaskArchived}
            && !(events[j].typ == TaskStatusChanged && events[j].rawTo == "done"))
  {
    LaterFinds(events, i + 1, VerifierPassed(events[i].task));
  }

  /** A preflight failure is reported exactly if its task neither failed again nor moved on. */
  lemma PreflightExactly(events: Log, i: nat)
    requires i < |events|
    ensures Raised(Preflight, events, i) <==>
      && events[i].ownTask != "" && events[i].typ == TaskContractInvalid && events[i].source == "dispatch_preflight"
      && forall j :: i < j < |events| && events[j].ownTask == events[i].ownTask ==>
           && !(events[j].typ == TaskContractInvalid && events[j].source == "dispatch_preflight")
           && events[j].typ !in {TaskContractUpdate, TaskDispatched, TaskRequeued}
           && events[j].typ !in {TaskDone, TaskDoneAccepted, TaskArchived}
           && !(events[j].typ == TaskStatusChanged && events[j].rawTo in {"backlog", "blocked", "done"})
  {
    LaterFinds(events, i + 1, PreflightMovedOn(events[i].ownTask));
  }

  /** The event at k tells the state of the worker. */
  predicate Reports(e: Event, worker: string) { e.worker == worker && e.typ in {WorkerHeartbeat, WorkerStateChanged} }

  predicate ReportsIdle(e: Event) {
    (if e.typ == WorkerHeartbeat then e.state else e.toLower) in {"idle", "awaiting_review", "blocked"}
  }

  /** The newest report of the worker's state says that it was not busy. */
  ghost predicate NewestReportIdle(before: Log, worker: string) {
    exists k :: 0 <= k < |before| && Reports(before[k], worker) && ReportsIdle(before[k])
                && forall m :: k < m < |before| ==> !Reports(before[m], worker)
  }

  lemma {:induction false} IdleExactly(before: Log, worker: string)
    ensures IdleBefore(before, worker) <==> NewestReportIdle(before, worker)
  {
    if before != [] {
      var n := |before| - 1;
      IdleExactly(before[..n], worker);
      if !Reports(before[n], worker) { IdleNext(before, worker); }
    }
  }

  lemma IdleNext(before: Log, worker: string)
    requires before != [] && !Reports(before[|before| - 1], worker)
    ensures NewestReportIdle(before, worker) <==> NewestReportIdle(before[..|before| - 1], worker)
  {
    var rest := before[..|before| - 1];
    if k :| 0 <= k < |rest| && Reports(rest[k], worker) && ReportsIdle(rest[k])
            && forall m :: k < m < |rest| ==> !Reports(rest[m], worker) {
      assert Reports(before[k], worker);
      forall m | k < m < |before|
        ensures !Reports(before[m], worker)
      {
        if m < |rest| { assert rest[m] == before[m]; }
      }
    }
    if k :| 0 <= k < |before| && Reports(before[k], worker) && ReportsIdle(before[k])
            && forall m :: k < m < |before| ==> !Reports(before[m], worker) {
      assert rest[k] == before[k];
    }
  }

  /** The task the event gives the worker, if any. */
  function GivenTask(e: Event, worker: string): string {
    if e.worker == worker && e.currentTask != "" then e.currentTask
    else if e.typ == TaskDispatched && e.assignee == worker then e.task
    else ""
  }

  /** The worker's last task is what the newest event that gives it one says. */
  lemma {:induction false} TaskExactly(before: Log, worker: string, k: nat)
    requires k < |before| && GivenTask(before[k], worker) != ""
    requires forall m :: k < m < |before| ==> GivenTask(before[m], worker) == ""
    ensures TaskBefore(before, worker) == GivenTask(before[k], worker)
  {
    var n := |before| - 1;
    if k < n {
      assert GivenTask(before[n], worker) == "";
      TaskExactly(before[..n], worker, k);
    }
  }

  lemma {:induction false} NoTaskExactly(before: Log, worker: string)
    requires forall k :: 0 <= k < |before| ==> GivenTask(before[k], worker) == ""
    ensures TaskBefore(before, worker) == ""
  {
    if before != [] {
      assert GivenTask(before[|before| - 1], worker) == "";
      NoTaskExactly(before[..|before| - 1], worker);
    }
  }

  /** A stuck worker is reported exactly if it is unknown, or if it did not move later, its
      newest state report before was not idle, and its last task was not already over.  A
      failed recovery is always reported. */
  lemma StuckExactly(events: Log, i: nat)
    requires i < |events|
    ensures Raised(Stuck, events, i) <==>
      || events[i].typ == StuckRecoveryFailed
      || (events[i].typ == WorkerStuck && (events[i].worker == "" || StillStuck(events, i)))
  {
    LaterFinds(events, i + 1, WorkerMoves(events[i].worker));
    IdleExactly(events[..i], events[i].worker);
    forall j | i < j < |events|
      ensures Supports(WorkerMoves(events[i].worker), events[j]) <==>
        events[j].worker == events[i].worker && Moves(events[j])
    {
    }
    forall j | 0 <= j < i
      ensures TerminalDone(events[..i][j]) <==> IsOver(events[j])
    {
    }
  }

  predicate Moves(e: Event) {
    || e.typ in {StuckRecovered, WorkerHeartbeat, AgentUsage, ProviderHook}
    || (e.typ == WorkerStateChanged && e.to in {"idle", "busy", "awaiting_review", "blocked"})
  }

  predicate IsOver(e: Event) {
    e.typ in {TaskDone, TaskDoneAccepted, TaskArchived} || (e.typ == TaskStatusChanged && e.rawTo == "done")
  }

  ghost predicate StillStuck(events: Log, i: nat)
    requires i < |events|
  {
    var worker := events[i].worker;
    && (forall j :: i < j < |events| && events[j].worker == worker ==> !Moves(events[j]))
    && !NewestReportIdle(events[..i], worker)
    && var task := TaskBefore(events[..i], worker);
       task == "" || forall j :: 0 <= j < i && events[j].task == task ==> !IsOver(events[j])
  }

  /** The first event that decides about a stale task map: an event of the failure's own
      rework, or a new task map for its document. */
  predicate DecidesStale(failed: Event, e: Event) {
    || (e.reworkOf == failed.id && e.typ in {TaskMapReady, HumanEscalate, ReplanRequested})
    || (e.reworkOf == failed.id && ReplanDownstream(failed.id, failed.pddId, "", e))
    || (e.typ == TaskMapReady && failed.pddId != "" && e.pddId == failed.pddId
        && e.reworkSource == "fanout.child.failed")
  }

  /** A stale task map counts as recovered exactly if some event decides, and the first that
      does is not a replan request of this failure, or one that went on. */
  lemma {:induction false} StaleExactly(events: Log, i: nat, failed: Event, k: nat)
    requires i <= k < |events| && DecidesStale(failed, events[k])
    requires forall m :: i <= m < k ==> !DecidesStale(failed, events[m])
    ensures StaleTaskMapRecovered(events, i, failed) <==>
      events[k].typ != ReplanRequested || events[k].reworkOf != failed.id || ReplanFollowed(events, k)
    decreases |events| - i
  {
    if i < k {
      UndecidedNext(events, i, failed);
      StaleExactly(events, i + 1, failed, k);
    }
  }

  lemma UndecidedNext(events: Log, i: nat, failed: Event)
    requires i < |events| && !DecidesStale(failed, events[i])
    ensures StaleTaskMapRecovered(events, i, failed) == StaleTaskMapRecovered(events, i + 1, failed)
  {
  }

  lemma {:induction false} UndecidedNeverRecovers(events: Log, i: nat, failed: Event)
    requires forall m :: i <= m < |events| ==> !DecidesStale(failed, events[m])
    ensures !StaleTaskMapRecovered(events, i, failed)
    decreases |events| - i
  {
    if i < |events| {
      UndecidedNext(events, i, failed);
      UndecidedNeverRecovers(events, i + 1, failed);
    }
  }

  // ---------------------------------------------------------------------
  // The preflight detector groups by task first
  // ---------------------------------------------------------------------

  /** The positions below n whose event carries this task id, in log order. */
  function Positions(events: Log, n: nat, task: string): seq<nat>
    requires n <= |events|
  {
    if n == 0 then [] else Positions(events, n - 1, task) + if events[n - 1].ownTask == task then [n - 1] else []
  }

  predicate Rising(s: seq<nat>) { forall a, b :: 0 <= a < b < |s| ==> s[a] < s[b] }

  lemma {:induction false} PositionsAre(events: Log, n: nat, task: string)
    requires n <= |events|
    ensures forall j :: j in Positions(events, n, task) <==> 0 <= j < n && events[j].ownTask == task
    ensures Rising(Positions(events, n, task))
  {
    if n > 0 {
      PositionsAre(events, n - 1, task);
      var p := Positions(events, n - 1, task);
      assert forall a :: 0 <= a < |p| ==> p[a] in p;
    }
  }

  /** The event at i is the last preflight failure of its task. */
  ghost predicate LatestInvalid(events: Log, i: nat)
    requires i < |events|
  {
    && PreflightInvalid(events[i])
    && forall j :: i < j < |events| && events[j].ownTask == events[i].ownTask ==> !PreflightInvalid(events[j])
  }

  ghost predicate NeverRecovered(events: Log, i: nat)
    requires i < |events|
  {
    forall j :: i < j < |events| && events[j].ownTask == events[i].ownTask ==> !RecoversPreflight(events[j])
  }

  lemma PreflightRaised(events: Log, i: nat)
    requires i < |events|
    ensures Raised(Preflight, events, i) <==> LatestInvalid(events, i) && NeverRecovered(events, i)
  {
    LaterFinds(events, i + 1, PreflightMovedOn(events[i].ownTask));
  }

  method FindLatestInvalid(events: Log, task: string, positions: seq<nat>) returns (latest: Option<nat>)
    requires task != "" && positions == Positions(events, |events|, task)
    ensures latest.Some? ==>
      latest.value < |events| && events[latest.value].ownTask == task && LatestInvalid(events, latest.value)
    ensures latest.None? ==> forall i :: 0 <= i < |events| && events[i].ownTask == task ==> !PreflightInvalid(events[i])
  {
    PositionsAre(events, |events|, task);
    assert forall m :: 0 <= m < |positions| ==> positions[m] in positions;
    latest := None;
    for k := 0 to |positions|
      invariant latest.Some? ==>
        latest.value < |events| && PreflightInvalid(events[latest.value]) && events[latest.value].ownTask == task
      invariant latest.Some? ==> exists m :: 0 <= m < k && positions[m] == latest.value
      invariant forall m :: 0 <= m < k && PreflightInvalid(events[positions[m]]) ==>
        latest.Some? && positions[m] <= latest.value
    {
      if PreflightInvalid(events[positions[k]]) {
        latest := Some(positions[k]);
      }
    }
    assert forall i :: 0 <= i < |events| && events[i].ownTask == task ==> i in positions;
  }

  method FindRecovery(events: Log, task: string, positions: seq<nat>, at: nat) returns (recovered: bool)
    requires positions == Positions(events, |events|, task) && at < |events| && events[at].ownTask == task
    ensures recovered <==> !NeverRecovered(events, at)
  {
    PositionsAre(events, |events|, task);
    assert forall m :: 0 <= m < |positions| ==> positions[m] in positions;
    for k := 0 to |positions|
      invariant forall m :: 0 <= m < k && positions[m] > at ==> !RecoversPreflight(events[positions[m]])
    {
      if positions[k] > at && RecoversPreflight(events[positions[k]]) {
        return true;
      }
    }
    assert forall i :: 0 <= i < |events| && events[i].ownTask == task ==> i in positions;
    recovered := false;
  }

  /** One task's turn: find its latest preflight failure, then look for a later recovery. */
  method BlockedTask(events: Log, task: string, positions: seq<nat>) returns (blocked: Option<nat>)
    requires task != "" && positions == Positions(events, |events|, task)
    ensures blocked.Some? ==>
      blocked.value < |events| && events[blocked.value].ownTask == task && Raised(Preflight, events, blocked.value)
    ensures forall i :: 0 <= i < |events| && events[i].ownTask == task && Raised(Preflight, events, i) ==>
      blocked == Some(i)
  {
    forall i | 0 <= i < |events|
      ensures Raised(Preflight, events, i) <==> LatestInvalid(events, i) && NeverRecovered(events, i)
    {
      PreflightRaised(events, i);
    }
    blocked := FindLatestInvalid(events, task, positions);
    if blocked.Some? {
      var recovered := FindRecovery(events, task, positions, blocked.value);
      if recovered {
        blocked := None;
      }
    }
  }

  /** `detect_dispatch_preflight_blockers`: group positions by task, then judge each task.
      The two passes report exactly the events that the pointwise condition reports. */
  method DetectPreflight(events: Log) returns (signals: seq<nat>)
    ensures forall i :: i in signals <==> 0 <= i < |events| && Raised(Preflight, events, i)
  {
    var byTask: map<string, seq<nat>> := map[];
    for i := 0 to |events|
      invariant "" !in byTask
      invariant forall t :: t in byTask ==> byTask[t] == Positions(events, i, t)
      invariant forall t :: t != "" && t !in byTask ==> Positions(events, i, t) == []
    {
      var task := events[i].ownTask;
      if task != "" {
        byTask := byTask[task := (if task in byTask then byTask[task] else []) + [i]];
      }
    }
    signals := [];
    var left := byTask.Keys;
    while left != {}
      invariant left <= byTask.Keys
      invariant forall i :: i in signals <==>
        0 <= i < |events| && events[i].ownTask in byTask.Keys - left && Raised(Preflight, events, i)
      decreases left
    {
      var task :| task in left;
      var blocked := BlockedTask(events, task, byTask[task]);
      if blocked.Some? {
        signals := signals + [blocked.value];
      }
      left := left - {task};
    }
    forall i | 0 <= i < |events| && Raised(Preflight, events, i)
      ensures events[i].ownTask in byTask
    {
      PositionsAre(events, |events|, events[i].ownTask);
    }
  }

  // ---------------------------------------------------------------------
  // Suppression is permanent
  // ---------------------------------------------------------------------

  lemma RaisedEarlier(d: Detector, events: Log, more: Log, i: nat)
    requires i < |events| && Raised(d, events + more, i)
    ensures Raised(d, events, i)
  {
    var e := events[i];
    assert (events + more)[i] == e && (events + more)[..i] == events[..i];
    match d
    case Fatal => LaterMonotone(events, more, i + 1, FatalAnswered(e.task));
    case Stuck => LaterMonotone(events, more, i + 1, WorkerMoves(e.worker));
    case Replan => LaterMonotone(events, more, i + 1, ReplanProgress(e.reworkOf, e.pddId, Trace(e)));
    case TaskRef =>
      LaterMonotone(events, more, i + 1, RejectionAnswered(e.task));
      LaterMonotone(events, more, i + 1, RefDelivered(e));
    case Preflight =>
      LaterMonotone(events, more, i + 1, PreflightMovedOn(e.ownTask));
    case ContractVerifier => LaterMonotone(events, more, i + 1, VerifierPassed(e.task));
  }

  /** Suppression is permanent: whatever is appended, a detector reports an old event in
      the longer log only if it reported it before, so the signals about the old part can
      only become fewer. */
  lemma SuppressionPermanent(d: Detector, events: Log, more: Log, i: nat)
    requires i in Signals(d, events + more, |events + more|)
    ensures i < |events| ==> i in Signals(d, events, |events|)
  {
    InSignals(d, events + more, |events + more|, i);
    if i < |events| {
      RaisedEarlier(d, events, more, i);
      InSignals(d, events, |events|, i);
    }
  }

  /** The early-returning search keeps its answer too, although a negative early return
      can hide evidence that is already in the log. */
  lemma {:induction false} StaleTaskMapMonotone(events: Log, more: Log, i: nat, failed: Event)
    requires StaleTaskMapRecovered(events, i, failed)
    ensures StaleTaskMapRecovered(events + more, i, failed)
    decreases |events| - i
  {
    var e := events[i];
    assert (events + more)[i] == e;
    if e.reworkOf == failed.id && (e.typ.TaskMapReady? || e.typ.HumanEscalate?) {
    } else if e.reworkOf == failed.id && e.typ.ReplanRequested? {
      LaterMonotone(events, more, i + 1, ReplanProgress(e.reworkOf, e.pddId, Trace(e)));
    } else if e.reworkOf == failed.id && ReplanDownstream(failed.id, failed.pddId, "", e) {
    } else if MapReadyAgain(failed, e) {
    } else {
      StaleTaskMapMonotone(events, more, i + 1, failed);
    }
  }

  // ---------------------------------------------------------------------
  // Handoff stalls
  // ---------------------------------------------------------------------

  const GRACE := 180

  /** `_handoff_still_in_grace`, with timestamps in seconds. */
  predicate InGrace(e: Event, now: int) {
    e.ts.Some? && 0 <= now - e.ts.value < GRACE
  }

  predicate CandidateFlow(events: Log) {
    exists j :: 0 <= j < |events| && (events[j].typ.TaskMapReady? || events[j].typ.CandidateReady?)
  }

  /** `_passed_equivalent_handoff` on the two types with a handoff expectation. */
  predicate PassEquivalent(e: Event) {
    e.typ.StaticGatePassed? || (e.typ.StaticGateSkipped? && e.skipped && e.passed)
  }

  predicate Dispatches(e: Event, task: string) { e.task == task && (e.typ.TaskAssigned? || e.typ.TaskDispatched?) }

  /** `_observed_handoff_target_role`. */
  function ObservedRole(events: Log, i: nat, task: string): string
    decreases |events| - i
  {
    if i >= |events| then ""
    else if Dispatches(events[i], task) && events[i].targetRole != ""
    then events[i].targetRole
    else ObservedRole(events, i + 1, task)
  }

  function TargetRole(events: Log, i: nat): string
    requires i < |events|
  {
    var observed := ObservedRole(events, i + 1, events[i].task);
    if observed != "" then observed else "review"
  }

  /** `detect_success_handoff_stalls` for the event at position i, as the code decides it. */
  predicate Stalled(events: Log, i: nat, now: int)
    requires i < |events|
  {
    var e := events[i];
    && e.task != "" && (e.typ.StaticGatePassed? || e.typ.StaticGateSkipped?)
    && !CandidateFlow(events) && PassEquivalent(e) && !InGrace(e, now)
    && !Later(events, i + 1, HandoffTaken(e.task, e.typ))
    && !Later(events, i + 1, HandoffAnswered(e.task, TargetRole(events, i)))
  }

  /** `detect_success_handoff_stalls`: the loop over the log. */
  method DetectStalls(events: Log, now: int) returns (signals: seq<nat>)
    ensures forall i :: i in signals <==> 0 <= i < |events| && Stalled(events, i, now)
    ensures forall a, b :: 0 <= a < b < |signals| ==> signals[a] < signals[b]
  {
    signals := [];
    for i := 0 to |events|
      invariant forall j :: j in signals <==> 0 <= j < i && Stalled(events, j, now)
      invariant forall a, b :: 0 <= a < b < |signals| ==> signals[a] < signals[b]
    {
      assert forall a :: 0 <= a < |signals| ==> signals[a] in signals;
      if Stalled(events, i, now) {
        signals := signals + [i];
      }
    }
  }

  /** The one fixed set of events that settle a handoff; no role appears in it. */
  predicate Settles(e: Event) {
    DownstreamType(e.typ) || ProgressType(e.typ) || TerminalDone(e) || e.typ.TaskContractUpdate?
    || e.typ.TaskReworkRequested? || e.typ.TaskRequeued? || e.typ.DispatchFailed?
  }

  /** The fixed set, written out. */
  lemma SettlingTypes(e: Event)
    ensures Settles(e) <==>
      || e.typ in {TaskAssigned, TaskDispatched, TaskContractUpdate, TaskReworkRequested, TaskRequeued, DispatchFailed}
      || e.typ in {TaskDone, TaskDoneAccepted, TaskArchived, TaskDoneEvidence, TaskRefUpdated}
      || e.typ in {FanoutStarted, FanoutChildDispatched, FanoutAggregateCompleted, CandidateReady}
      || e.typ in {ArchProposalDone, DesignCritiqueDone, DevBuildDone}
      || e.typ in {StaticGatePassed, StaticGateSkipped, StaticGateFailed}
      || e.typ in {ReviewApproved, ReviewRejected, TestPassed, TestFailed, JudgePassed, JudgeFailed}
      || e.typ in {GatePassed, GateFailed, DiscriminatorPassed, DiscriminatorFailed}
      || (e.typ == TaskStatusChanged && e.rawTo == "done")
  {
  }

  lemma {:induction false} ObservedRoleComesFromDispatch(events: Log, i: nat, task: string)
    ensures ObservedRole(events, i, task) != "" ==>
      exists j :: i <= j < |events| && Dispatches(events[j], task)
    decreases |events| - i
  {
    if i < |events| { ObservedRoleComesFromDispatch(events, i + 1, task); }
  }

  /** The observed role is that of the first later dispatch that names one. */
  lemma {:induction false} ObservedRoleIsFirst(events: Log, i: nat, task: string, k: nat)
    requires i <= k < |events| && Dispatches(events[k], task) && events[k].targetRole != ""
    requires forall m :: i <= m < k ==> !(Dispatches(events[m], task) && events[m].targetRole != "")
    ensures ObservedRole(events, i, task) == events[k].targetRole
    decreases k - i
  {
    if i < k { ObservedRoleIsFirst(events, i + 1, task, k); }
  }

  /** A success handoff is reported exactly when it is pass-equivalent, out of grace, not
      part of a candidate flow, and no later event of its task, other than a repetition of
      the same event type, is in the fixed set. */
  lemma StalledExactly(events: Log, i: nat, now: int)
    requires i < |events|
    ensures Stalled(events, i, now) <==>
      && events[i].task != "" && PassEquivalent(events[i]) && !InGrace(events[i], now) && !CandidateFlow(events)
      && !exists j :: i < j < |events| && events[j].task == events[i].task
                      && events[j].typ != events[i].typ && Settles(events[j])
    ensures PassEquivalent(events[i]) <==>
      events[i].typ == StaticGatePassed || (events[i].typ == StaticGateSkipped && events[i].skipped && events[i].passed)
    ensures InGrace(events[i], now) <==> events[i].ts.Some? && events[i].ts.value <= now < events[i].ts.value + 180
    ensures CandidateFlow(events) <==> exists j :: 0 <= j < |events| && events[j].typ in {TaskMapReady, CandidateReady}
  {
    var e := events[i];
    var role := TargetRole(events, i);
    LaterFinds(events, i + 1, HandoffTaken(e.task, e.typ));
    LaterFinds(events, i + 1, HandoffAnswered(e.task, role));
    if PassEquivalent(e) {
      forall j | i < j < |events|
        ensures Supports(HandoffTaken(e.task, e.typ), events[j]) || Supports(HandoffAnswered(e.task, role), events[j])
          <==> events[j].task == e.task && events[j].typ != e.typ && Settles(events[j])
      {
        SettlesExactly(events[j], e.typ, role);
      }
    }
  }

  lemma SettlesExactly(f: Event, trigger: Type, role: string)
    requires trigger.StaticGatePassed? || trigger.StaticGateSkipped?
    ensures TakesHandoff(f, trigger) || AnswersHandoff(f, role) <==> f.typ != trigger && Settles(f)
  {
  }

  /** The observed role never reaches a report: every reported stall names the default
      role, because any dispatch that would show another role settles the handoff. */
  lemma StalledNamesDefaultRole(events: Log, i: nat, now: int)
    requires i < |events| && Stalled(events, i, now)
    ensures TargetRole(events, i) == "review"
  {
    ObservedRoleComesFromDispatch(events, i + 1, events[i].task);
    LaterFinds(events, i + 1, HandoffTaken(events[i].task, events[i].typ));
  }

  /** At a fixed clock, handoff suppression is permanent as well. */
  lemma StalledEarlier(events: Log, more: Log, i: nat, now: int)
    requires i < |events| && Stalled(events + more, i, now)
    ensures Stalled(events, i, now)
  {
    StalledExactly(events, i, now);
    StalledExactly(events + more, i, now);
    assert (events + more)[i] == events[i];
    forall j | 0 <= j < |events|
      ensures (events + more)[j] == events[j]
    {
    }
  }
}
