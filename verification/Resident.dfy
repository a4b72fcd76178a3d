/** The resident consumer in its own imperative form: loops that fold the log into
    sets and lists, and one tick that appends to the log. */
module Resident {
  import opened QueueModel

  /** `_handled_ids`, `_handled_review_gate_ids` and the terminal set of
      `pending_evolution_requests`. */
  method ResolvedIds(c: Class, events: Log) returns (out: set<string>)
    ensures out == Resolved(c, events)
  {
    out := {};
    for i := 0 to |events|
      invariant out == Resolved(c, events[..i])
    {
      assert events[..i + 1] == events[..i] + [events[i]];
      if events[i].kind.Resolves(c) {
        out := out + {events[i].key};
      }
    }
    assert events[..|events|] == events;
  }

  /** `pending_loop_requests`, `pending_review_gate_requests` and
      `pending_evolution_requests`. */
  method PendingRequests(c: Class, events: Log) returns (pending: seq<Event>)
    ensures pending == Pending(c, events)
  {
    var handled := ResolvedIds(c, events);
    pending := [];
    for i := 0 to |events|
      invariant pending == Requests(c, events[..i], handled)
    {
      assert events[..i + 1][..i] == events[..i];
      if events[i].kind.IsRequest(c) && events[i].key !in handled {
        pending := pending + [events[i]];
      }
    }
    assert events[..|events|] == events;
  }

  /** `_accepted_ids`. */
  method AcceptedIds(events: Log) returns (out: set<string>)
    ensures out == Accepted(events)
  {
    out := {};
    for i := 0 to |events|
      invariant out == Accepted(events[..i])
    {
      assert events[..i + 1] == events[..i] + [events[i]];
      if events[i].kind.LoopAccepted? || (events[i].kind.EvoAccepted? && events[i].key != "") {
        out := out + {events[i].key};
      }
    }
    assert events[..|events|] == events;
  }

  lemma Associates(a: Log, b: Log, c: Log)
    ensures (a + b) + c == a + (b + c)
  {
  }

  lemma Extends(log: Log, actions: seq<Action>, i: nat, outs: nat -> Outcome)
    requires i < |actions|
    ensures (log + ExecuteAll(actions[..i], outs)) + Execute(actions[i], outs(i))
      == log + ExecuteAll(actions[..i + 1], outs)
  {
    assert actions[..i + 1][..i] == actions[..i];
    Associates(log, ExecuteAll(actions[..i], outs), Execute(actions[i], outs(i)));
  }

  /** The resident process: the only durable state it owns is the log. */
  class Process {
    var log: Log

    constructor (events: Log)
      ensures log == events
    {
      log := events;
    }

    /** `plan_resident_actions`. */
    method PlanActions() returns (actions: seq<Action>)
      ensures actions == Plan(log)
    {
      var evolution := PendingRequests(Evolution, log);
      var loops := PendingRequests(Loop, log);
      var gates := PendingRequests(Gate, log);
      actions := Actions(Evolution, evolution) + Actions(Loop, loops) + Actions(Gate, gates);
    }

    /** The queue acknowledgement pass of `run_resident_once`. */
    method Acknowledge(actions: seq<Action>)
      modifies this
      ensures log == old(log) + Acks(actions, Accepted(old(log)))
    {
      var accepted := AcceptedIds(log);
      ghost var target := log + Acks(actions, accepted);
      for i := 0 to |actions|
        invariant target == log + Acks(actions[i..], accepted)
      {
        var action := actions[i];
        assert actions[i..][1..] == actions[i + 1..];
        if action.Acknowledged() && action.key !in accepted {
          log := log + [AckEvent(action)];
          accepted := accepted + {action.key};
        }
      }
    }

    /** One iteration of the action loop of `run_resident_once`. */
    method Perform(action: Action, out: Outcome)
      modifies this
      ensures log == old(log) + Execute(action, out)
    {
      match action.class_ {
        case Loop =>
          if !action.runnable {
            log := log + [Event(LoopSkipped, action.key, true)];
          } else {
            log := log + [Event(LoopStarted, action.key, true)];
            log := log + [Event(if out.ok then LoopCompleted else LoopFailed, action.key, true)];
            if out.lifecycle {
              log := log + [Event(WorktreeLifecycle, action.key, true)];
            }
          }
        case Evolution =>
          log := log + [Event(EvoStarted(action.optimizer), action.key, true)];
          var kind := if out.ok then EvoCompleted(action.optimizer) else EvoFailed(action.optimizer);
          log := log + [Event(kind, action.key, true)];
        case Gate =>
          if !action.runnable {
            log := log + [Event(GateSkipped, action.key, true)];
          } else {
            log := log + [Event(GateAccepted, action.key, true)];
            log := log + [Event(GateStarted, action.key, true)];
            log := log + [Event(if out.ok then GateCompleted else GateFailed, action.key, true)];
          }
      }
    }

    /** The action loop of `run_resident_once` on the already sliced action list. */
    method PerformAll(actions: seq<Action>, stop: nat, outs: nat -> Outcome)
      modifies this
      ensures log == old(log) + ExecuteAll(actions[..if stop < |actions| then stop else |actions|], outs)
    {
      var i := 0;
      while i < |actions| && i < stop
        invariant 0 <= i <= |actions| && i <= stop
        invariant log == old(log) + ExecuteAll(actions[..i], outs)
      {
        Perform(actions[i], outs(i));
        Extends(old(log), actions, i, outs);
        i := i + 1;
      }
    }

    /** The authorized part of `run_resident_once` for a given plan. */
    method ActOn(actions: seq<Action>, cap: int, stop: nat, outs: nat -> Outcome)
      modifies this
      ensures log == old(log)
        + (Acks(actions, Accepted(old(log))) + ExecuteAll(actions[..Served(|actions|, cap, stop)], outs))
    {
      var served := if 0 < cap < |actions| then actions[..cap] else actions;
      Acknowledge(actions);
      PerformAll(served, stop, outs);
      ghost var lives := ExecuteAll(actions[..Served(|actions|, cap, stop)], outs);
      Associates(old(log), Acks(actions, Accepted(old(log))), lives);
      assert served[..if stop < |served| then stop else |served|] == actions[..Served(|actions|, cap, stop)];
    }

    /** `run_resident_once`.  `stop` is the number of actions after which `should_stop`
        answers true. */
    method RunOnce(execute: bool, authorized: bool, cap: int, stop: nat, outs: nat -> Outcome)
      returns (served: seq<Action>)
      modifies this
      ensures execute && authorized ==> log == old(log) + TickAppends(old(log), cap, stop, outs)
      ensures !(execute && authorized) ==> log == old(log)
      ensures served == Plan(old(log))[..Served(|Plan(old(log))|, cap, |Plan(old(log))|)]
    {
      var actions := PlanActions();
      served := if 0 < cap < |actions| then actions[..cap] else actions;
      if execute && authorized {
        ActOn(actions, cap, stop, outs);
      }
    }
  }
}
