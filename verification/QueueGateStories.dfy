/** Review gates that are requested once: their events are a beginning of the lifecycle. */
module QueueGateStories {
  import opened QueueModel
  import opened QueueLifecycle
  import opened QueueTheorems
  import opened QueueGates

  predicate IsGateEvent(e: Event, key: string) { (e.kind.GateRequested? || GateKind(e.kind)) && e.key == key }

  /** The review gate events of one id, in log order. */
  function Trail(log: Log, key: string): Log {
    if log == [] then []
    else
      var e := log[|log| - 1];
      Trail(log[..|log| - 1], key) + if IsGateEvent(e, key) then [e] else []
  }

  lemma {:induction false} TrailConcat(a: Log, b: Log, key: string)
    ensures Trail(a + b, key) == Trail(a, key) + Trail(b, key)
  {
    if b == [] {
      assert a + b == a;
    } else {
      var n := |b| - 1;
      assert (a + b)[..|a + b| - 1] == a + b[..n];
      TrailConcat(a, b[..n], key);
    }
  }

  lemma {:induction false} InTrail(log: Log, key: string)
    ensures forall e :: e in Trail(log, key) <==> e in log && IsGateEvent(e, key)
  {
    if log != [] {
      assert log == log[..|log| - 1] + [log[|log| - 1]];
      InTrail(log[..|log| - 1], key);
    }
  }

  lemma NoTrail(log: Log, key: string)
    requires forall e :: e in log ==> !IsGateEvent(e, key)
    ensures Trail(log, key) == []
  {
    InTrail(log, key);
    if Trail(log, key) != [] { assert Trail(log, key)[0] in Trail(log, key); }
  }

  /** A beginning of REQUESTED, ACCEPTED, STARTED, completed or failed; or of REQUESTED,
      skipped, over the attempt cap. */
  predicate GateStory(s: Log) {
    && (|s| > 0 ==> s[0].kind.GateRequested?)
    && (|s| > 1 ==> if s[0].runnable then s[1].kind.GateAccepted? else s[1].kind.GateSkipped?)
    && (|s| > 2 ==> s[0].runnable && s[2].kind.GateStarted?)
    && (|s| > 3 ==> s[3].kind.GateCompleted? || s[3].kind.GateFailed?)
    && |s| <= 4
  }

  predicate ForGate(a: Action, key: string) { a.Ident() == (Gate, key) }

  lemma ExecuteTrail(a: Action, out: Outcome, key: string)
    ensures Trail(Execute(a, out), key) == if ForGate(a, key) then Execute(a, out) else []
  {
    var es := Execute(a, out);
    if ForGate(a, key) {
      assert forall i :: 0 <= i < |es| ==> IsGateEvent(es[i], key);
      AllTrail(es, key);
    } else {
      forall e | e in es
        ensures !IsGateEvent(e, key)
      {
        ExecuteNotForGate(a, out, key, e);
      }
      NoTrail(es, key);
    }
  }

  lemma {:induction false} AllTrail(log: Log, key: string)
    requires forall i :: 0 <= i < |log| ==> IsGateEvent(log[i], key)
    ensures Trail(log, key) == log
  {
    if log != [] { AllTrail(log[..|log| - 1], key); }
  }

  lemma ExecuteNotForGate(a: Action, out: Outcome, key: string, e: Event)
    requires e in Execute(a, out) && !ForGate(a, key)
    ensures !IsGateEvent(e, key)
  {
    match a.class_ {
      case Loop =>
      case Evolution =>
      case Gate =>
    }
  }

  /** The events of one review gate among the executions of a plan. */
  function GateRuns(plan: seq<Action>, runs: seq<Log>, key: string): Log
    requires |runs| == |plan|
  {
    if plan == [] then []
    else
      var n := |plan| - 1;
      GateRuns(plan[..n], runs[..n], key) + if ForGate(plan[n], key) then runs[n] else []
  }

  function Executions(plan: seq<Action>, outs: nat -> Outcome): seq<Log> {
    seq(|plan|, i requires 0 <= i < |plan| => Execute(plan[i], outs(i)))
  }

  lemma {:induction false} ExecuteAllTrail(plan: seq<Action>, outs: nat -> Outcome, key: string)
    ensures Trail(ExecuteAll(plan, outs), key) == GateRuns(plan, Executions(plan, outs), key)
  {
    if plan != [] {
      var n := |plan| - 1;
      ExecuteAllTrail(plan[..n], outs, key);
      ExecuteTrail(plan[n], outs(n), key);
      TrailConcat(ExecuteAll(plan[..n], outs), Execute(plan[n], outs(n)), key);
      assert Executions(plan[..n], outs) == Executions(plan, outs)[..n];
    }
  }

  lemma {:induction false} GateNeverRuns(plan: seq<Action>, runs: seq<Log>, key: string)
    requires |runs| == |plan| && forall i :: 0 <= i < |plan| ==> !ForGate(plan[i], key)
    ensures GateRuns(plan, runs, key) == []
  {
    if plan != [] { GateNeverRuns(plan[..|plan| - 1], runs[..|plan| - 1], key); }
  }

  lemma {:induction false} GateRunsOnce(plan: seq<Action>, runs: seq<Log>, key: string, i: nat)
    requires |runs| == |plan| && i < |plan| && ForGate(plan[i], key)
    requires forall j :: 0 <= j < |plan| && j != i ==> !ForGate(plan[j], key)
    ensures GateRuns(plan, runs, key) == runs[i]
  {
    var n := |plan| - 1;
    if i < n {
      GateRunsOnce(plan[..n], runs[..n], key, i);
    } else {
      GateNeverRuns(plan[..n], runs[..n], key);
    }
  }

  /** Only a gate whose story so far is its request is planned. */
  lemma PlannedStory(log: Log, a: Action, key: string)
    requires a in Plan(log) && ForGate(a, key) && GateStory(Trail(log, key))
    ensures Trail(log, key) == [Event(GateRequested, key, a.runnable)]
  {
    InPlan(log, a);
    InTrail(log, key);
    var t := Trail(log, key);
    assert forall i :: 0 <= i < |t| ==> t[i] in t;
    assert forall e :: e in t ==> e.kind.GateRequested?;
  }

  lemma StoryContinues(a: Action, out: Outcome, key: string)
    requires ForGate(a, key)
    ensures GateStory([Event(GateRequested, key, a.runnable)] + Execute(a, out))
  {
  }

  lemma TickTrail(log: Log, cap: int, stop: nat, outs: nat -> Outcome, key: string)
    ensures var served := Plan(log)[..Served(|Plan(log)|, cap, stop)];
      Trail(log + TickAppends(log, cap, stop, outs), key)
      == Trail(log, key) + GateRuns(served, Executions(served, outs), key)
  {
    var plan, acks := Plan(log), Acks(Plan(log), Accepted(log));
    var served := plan[..Served(|plan|, cap, stop)];
    AcksKeys(plan, Accepted(log));
    NoTrail(acks, key);
    ExecuteAllTrail(served, outs, key);
    TrailConcat(acks, ExecuteAll(served, outs), key);
    TrailConcat(log, acks + ExecuteAll(served, outs), key);
  }

  lemma TickStory(log: Log, cap: int, stop: nat, outs: nat -> Outcome, key: string)
    requires RequestedOnce(Gate, log, key) && GateStory(Trail(log, key))
    ensures GateStory(Trail(log + TickAppends(log, cap, stop, outs), key))
  {
    var served := Plan(log)[..Served(|Plan(log)|, cap, stop)];
    TickTrail(log, cap, stop, outs, key);
    PlanOnceFor(Gate, log, key);
    if i :| 0 <= i < |served| && ForGate(served[i], key) {
      GateRunsOnce(served, Executions(served, outs), key, i);
      PlannedStory(log, served[i], key);
      StoryContinues(served[i], outs(i), key);
    } else {
      GateNeverRuns(served, Executions(served, outs), key);
    }
  }

  lemma StoryNeedsRequest(t: Log)
    requires GateStory(t) && forall e :: e in t ==> !e.kind.GateRequested?
    ensures t == []
  {
  }

  /** A request that arrives in the middle of a tick is the first event of its id. */
  lemma ProduceStory(log: Log, todo: Log, e: Event, key: string)
    requires RequestedOnce(Gate, log + [e], key) && GateStory(Trail(log + todo, key)) && !GateKind(e.kind)
    requires forall f :: f in todo ==> !f.kind.GateRequested?
    ensures GateStory(Trail(log + [e] + todo, key))
  {
    TrailConcat(log, todo, key);
    TrailConcat(log, [e], key);
    TrailConcat(log + [e], todo, key);
    assert [e][..0] == [];
    if IsGateEvent(e, key) {
      InTrail(log, key);
      InTrail(todo, key);
      assert (log + [e])[|log|] == e;
      forall i | 0 <= i < |log|
        ensures !(log[i].kind.GateRequested? && log[i].key == key)
      {
        assert (log + [e])[i] == log[i];
      }
      StoryNeedsRequest(Trail(log + todo, key));
    } else {
      assert Trail([e], key) == [] && Trail(log, key) + [] == Trail(log, key);
    }
  }

  lemma ApplyStory(s: State, m: Move, key: string)
    requires Grounded(s) && GateStory(Trail(s.log + s.todo, key)) && RequestedOnce(Gate, Apply(s, m).log, key)
    ensures var r := Apply(s, m); GateStory(Trail(r.log + r.todo, key))
  {
    match m
    case Produce(e) =>
      if MayProduce(s.log, e) { ProduceStory(s.log, s.todo, e, key); }
    case Tick(cap, stop, outs) =>
      if s.todo == [] {
        assert s.log + s.todo == s.log;
        TickStory(s.log, cap, stop, outs, key);
      }
    case Append =>
      if s.todo != [] { assert (s.log + [s.todo[0]]) + s.todo[1..] == s.log + s.todo; }
    case Crash =>
      StoryPrefix(s.log, s.todo, key);
      assert s.log + [] == s.log;
  }

  lemma {:induction false} RunStory(moves: seq<Move>, key: string)
    requires RequestedOnce(Gate, Run(moves).log, key)
    ensures GateStory(Trail(Run(moves).log + Run(moves).todo, key))
  {
    if moves == [] {
      assert Run(moves).log + Run(moves).todo == [];
    } else {
      var s, m := Run(moves[..|moves| - 1]), moves[|moves| - 1];
      RunInv(moves[..|moves| - 1]);
      assert s.log <= Run(moves).log;
      OncePrefix(Gate, s.log, Run(moves).log[|s.log|..], key);
      RunStory(moves[..|moves| - 1], key);
      ApplyStory(s, m, key);
    }
  }

  lemma {:induction false} TrailRequests(log: Log, key: string, i: nat, j: nat) returns (a: nat, b: nat)
    requires i < j < |log| && IsGateEvent(log[i], key) && IsGateEvent(log[j], key)
    ensures a < b < |Trail(log, key)| && Trail(log, key)[a] == log[i] && Trail(log, key)[b] == log[j]
  {
    var before, after := log[..j], log[j + 1..];
    assert log == (before + [log[j]]) + after;
    TrailConcat(before + [log[j]], after, key);
    TrailConcat(before, [log[j]], key);
    assert [log[j]][..0] == [] && Trail([log[j]], key) == [log[j]];
    InTrail(before, key);
    assert before[i] in before;
    a :| 0 <= a < |Trail(before, key)| && Trail(before, key)[a] == log[i];
    b := |Trail(before, key)|;
  }

  lemma StoryOnce(log: Log, key: string)
    requires GateStory(Trail(log, key))
    ensures RequestedOnce(Gate, log, key)
  {
    forall i, j | 0 <= i < j < |log| && log[i].kind.GateRequested? && log[j].kind.GateRequested?
      ensures !(log[i].key == key && log[j].key == key)
    {
      if log[i].key == key && log[j].key == key {
        var a, b := TrailRequests(log, key, i, j);
        assert false;
      }
    }
  }

  lemma StoryPrefix(log: Log, todo: Log, key: string)
    requires GateStory(Trail(log + todo, key))
    ensures GateStory(Trail(log, key))
  {
    TrailConcat(log, todo, key);
  }

  /** In every log of every run, the review gate events of an id are a beginning of its
      lifecycle, each event at most once and in order, exactly if the id is requested at
      most once. */
  lemma GateLifecycle(moves: seq<Move>, key: string)
    ensures GateStory(Trail(Run(moves).log, key)) <==> RequestedOnce(Gate, Run(moves).log, key)
  {
    if RequestedOnce(Gate, Run(moves).log, key) {
      RunStory(moves, key);
      StoryPrefix(Run(moves).log, Run(moves).todo, key);
    }
    if GateStory(Trail(Run(moves).log, key)) {
      StoryOnce(Run(moves).log, key);
    }
  }

  lemma GatePair(a: Action, accepted: set<string>, x: Outcome, y: Outcome)
    requires a.class_.Gate? && a.runnable
    ensures Acks([a, a], accepted) == []
    ensures var s := Execute(a, x) + Execute(a, y);
      && |s| == 6 && s[0] == s[3] == Event(GateAccepted, a.key, true)
      && s[1] == s[4] == Event(GateStarted, a.key, true)
  {
    assert [a, a][1..] == [a] && [a][1..] == [];
    assert Acks([a], accepted) == Acks([], accepted);
  }

  lemma ProducedTwice(r: Event)
    requires r.kind.GateRequested?
    ensures Run([Produce(r), Produce(r)]) == State([r, r], [])
  {
    var one: seq<Move> := [Produce(r)];
    assert [Produce(r), Produce(r)] == one + one && one == [] + one;
    RunSnoc([], Produce(r));
    RunSnoc(one, Produce(r));
  }

  /** Nobody guards review gate requests, so one id can be requested twice, and then one
      tick acknowledges and starts the same gate twice. */
  lemma SharedGateAcknowledgedTwice(key: string, outs: nat -> Outcome)
    ensures var r := Event(GateRequested, key, true);
      var appended := TickAppends([r, r], 0, 2, outs);
      && Run([Produce(r), Produce(r)]) == State([r, r], [])
      && |appended| == 6 && appended[0] == appended[3] == Event(GateAccepted, key, true)
      && appended[1] == appended[4] == Event(GateStarted, key, true)
  {
    var r := Event(GateRequested, key, true);
    ProducedTwice(r);
    TwoRequestsTick(r, Gate, outs);
    var a := ActionOf(Gate, r);
    GatePair(a, Accepted([r, r]), outs(0), outs(1));
    assert [] + (Execute(a, outs(0)) + Execute(a, outs(1))) == Execute(a, outs(0)) + Execute(a, outs(1));
  }

}
