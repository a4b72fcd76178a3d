/** The event-sourced queue of the autoresearch resident.

    Every piece of queue state is derived from one append-only log: which requests
    are pending, which were acknowledged, which were started or answered.  An event
    is modelled by its type and by the identity the code derives from it: the loop
    request id for `autoresearch.loop.*`, the review gate request id for
    `autoresearch.review_gate.*`, the `request_event_id` for evolution lifecycle
    events, and the event's own id for an evolution request. */
module QueueModel {

  /** The three request families the resident serves. */
  datatype Class = Loop | Evolution | Gate

  datatype Kind =
    | LoopRequested | LoopAccepted | LoopStarted | LoopCompleted | LoopFailed | LoopSkipped
    | EvoRequested(optimizer: bool) | EvoAccepted(optimizer: bool) | EvoStarted(optimizer: bool)
    | EvoCompleted(optimizer: bool) | EvoFailed(optimizer: bool)
    | GateRequested | GateAccepted | GateStarted | GateCompleted | GateFailed | GateSkipped
    | WorktreeLifecycle | Unrelated
  {
    predicate IsLoop() {
      LoopRequested? || LoopAccepted? || LoopStarted? || LoopCompleted? || LoopFailed? || LoopSkipped?
    }

    predicate IsEvolution() {
      EvoRequested? || EvoAccepted? || EvoStarted? || EvoCompleted? || EvoFailed?
    }

    predicate IsRequest(c: Class) {
      match c
      case Loop => LoopRequested?
      case Evolution => EvoRequested?
      case Gate => GateRequested?
    }

    predicate IsAnyRequest() {
      LoopRequested? || EvoRequested? || GateRequested?
    }

    /** The types that take a request out of the pending pool.  An acknowledgement
        counts for review gates, but not for loops and evolution requests; STARTED
        counts for loops and review gates, but not for evolution requests. */
    predicate Resolves(c: Class) {
      match c
      case Loop => LoopStarted? || LoopCompleted? || LoopFailed? || LoopSkipped?
      case Evolution => EvoCompleted? || EvoFailed?
      case Gate => GateAccepted? || GateStarted? || GateCompleted? || GateFailed? || GateSkipped?
    }
  }

  /** `runnable` is meaningful on requests: a loop request with the proposal-only
      apply policy, a review gate request whose attempt is within its cap. */
  datatype Event = Event(kind: Kind, key: string, runnable: bool)

  type Log = seq<Event>

  /** What one planned action will do. */
  datatype Action = Action(class_: Class, key: string, runnable: bool, optimizer: bool)
  {
    function Ident(): (Class, string) { (class_, key) }

    /** Only loops and evolution requests are acknowledged before they run. */
    predicate Acknowledged() { !class_.Gate? && runnable }
  }

  function ActionOf(c: Class, e: Event): Action {
    Action(c, e.key, c.Evolution? || e.runnable, c.Evolution? && e.kind.EvoRequested? && e.kind.optimizer)
  }

  // ---------------------------------------------------------------------
  // Derived state
  // ---------------------------------------------------------------------

  /** The keys of class c that some event of the log takes out of the pool. */
  function Resolved(c: Class, log: Log): set<string> {
    set e | e in log && e.kind.Resolves(c) :: e.key
  }

  /** The requests of class c whose key is not in `gone`, in log order. */
  function Requests(c: Class, log: Log, gone: set<string>): seq<Event> {
    if log == [] then []
    else
      var e := log[|log| - 1];
      Requests(c, log[..|log| - 1], gone) + if e.kind.IsRequest(c) && e.key !in gone then [e] else []
  }

  function Pending(c: Class, log: Log): seq<Event> {
    Requests(c, log, Resolved(c, log))
  }

  function Actions(c: Class, requests: seq<Event>): seq<Action> {
    seq(|requests|, i requires 0 <= i < |requests| => ActionOf(c, requests[i]))
  }

  /** The plan of one tick: evolution requests, then loops, then review gates. */
  function Plan(log: Log): seq<Action> {
    Actions(Evolution, Pending(Evolution, log)) + Actions(Loop, Pending(Loop, log)) + Actions(Gate, Pending(Gate, log))
  }

  /** The ids acknowledged so far; loops and evolution requests share this set. */
  function Accepted(log: Log): set<string> {
    set e | e in log && (e.kind.LoopAccepted? || (e.kind.EvoAccepted? && e.key != "")) :: e.key
  }

  // ---------------------------------------------------------------------
  // What one tick appends
  // ---------------------------------------------------------------------

  function AckEvent(a: Action): Event {
    Event(if a.class_.Loop? then LoopAccepted else EvoAccepted(a.optimizer), a.key, true)
  }

  function Acks(plan: seq<Action>, accepted: set<string>): Log {
    if plan == [] then []
    else if plan[0].Acknowledged() && plan[0].key !in accepted then
      [AckEvent(plan[0])] + Acks(plan[1..], accepted + {plan[0].key})
    else
      Acks(plan[1..], accepted)
  }

  /** The answer of the injected runner (and of archiving, for a loop), and whether
      finalizing the worktree reports a lifecycle event. */
  datatype Outcome = Outcome(ok: bool, lifecycle: bool)

  function Execute(a: Action, out: Outcome): Log {
    match a.class_
    case Loop =>
      if !a.runnable then [Event(LoopSkipped, a.key, true)]
      else [Event(LoopStarted, a.key, true), Event(if out.ok then LoopCompleted else LoopFailed, a.key, true)]
           + if out.lifecycle then [Event(WorktreeLifecycle, a.key, true)] else []
    case Evolution =>
      [Event(EvoStarted(a.optimizer), a.key, true),
       Event(if out.ok then EvoCompleted(a.optimizer) else EvoFailed(a.optimizer), a.key, true)]
    case Gate =>
      if !a.runnable then [Event(GateSkipped, a.key, true)]
      else [Event(GateAccepted, a.key, true), Event(GateStarted, a.key, true),
            Event(if out.ok then GateCompleted else GateFailed, a.key, true)]
  }

  function ExecuteAll(plan: seq<Action>, outs: nat -> Outcome): Log {
    if plan == [] then []
    else ExecuteAll(plan[..|plan| - 1], outs) + Execute(plan[|plan| - 1], outs(|plan| - 1))
  }

  /** How many planned actions a tick executes: a cap of 0 or less means no cap, and
      a stop request ends the tick after `stop` actions. */
  function Served(planned: nat, cap: int, stop: nat): nat {
    var sliced := if 0 < cap < planned then cap else planned;
    if stop < sliced then stop else sliced
  }

  /** The events one authorized tick appends: every acknowledgement first, also for
      actions beyond the cap, then the lifecycle of the served actions. */
  function TickAppends(log: Log, cap: int, stop: nat, outs: nat -> Outcome): Log {
    var plan := Plan(log);
    Acks(plan, Accepted(log)) + ExecuteAll(plan[..Served(|plan|, cap, stop)], outs)
  }
}
