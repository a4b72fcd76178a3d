/** Lifecycle safety of the queue over every run: guarded producers, resident ticks
    that interleave with producers, and crashes at any append. */
module QueueLifecycle {
  import opened QueueModel
  import opened QueueAcks

  // ---------------------------------------------------------------------
  // The lifecycle of one key, as an automaton that no code mentions
  // ---------------------------------------------------------------------

  /** Where a loop request stands.  `Broken` is absorbing: it is reached by any event
      that is out of order, repeated, or foreign to the request's policy.  Whether a loop
      may start from `Queued` is a matter of acknowledgements, see `AckPhase`. */
  datatype LoopPhase = Fresh | Queued(runnable: bool) | Acked | Running | Finished | Skipped | Broken

  function LoopNext(p: LoopPhase, e: Event): LoopPhase {
    match (p, e.kind)
    case (Fresh, LoopRequested) => Queued(e.runnable)
    case (Queued(true), LoopAccepted) => Acked
    case (Queued(true), LoopStarted) => Running
    case (Acked, LoopStarted) => Running
    case (Running, LoopCompleted) => Finished
    case (Running, LoopFailed) => Finished
    case (Queued(false), LoopSkipped) => Skipped
    case _ => Broken
  }

  function LoopFold(p: LoopPhase, log: Log, key: string): LoopPhase {
    if log == [] then p
    else
      var e := log[|log| - 1];
      var q := LoopFold(p, log[..|log| - 1], key);
      if e.kind.IsLoop() && e.key == key then LoopNext(q, e) else q
  }

  /** Evolution requests may be restarted after a crash: STARTED can repeat until the
      one terminal event. */
  datatype EvoPhase =
    | EFresh | EQueued(optimizer: bool) | EAcked(optimizer: bool) | EActive(optimizer: bool) | EDone | EBroken

  function EvoNext(p: EvoPhase, e: Event): EvoPhase {
    match (p, e.kind)
    case (EFresh, EvoRequested(o)) => EQueued(o)
    case (EQueued(o), EvoAccepted(o')) => if o == o' then EAcked(o) else EBroken
    case (EQueued(o), EvoStarted(o')) => if o == o' then EActive(o) else EBroken
    case (EAcked(o), EvoStarted(o')) => if o == o' then EActive(o) else EBroken
    case (EActive(o), EvoStarted(o')) => if o == o' then EActive(o) else EBroken
    case (EActive(o), EvoCompleted(o')) => if o == o' then EDone else EBroken
    case (EActive(o), EvoFailed(o')) => if o == o' then EDone else EBroken
    case _ => EBroken
  }

  function EvoFold(p: EvoPhase, log: Log, key: string): EvoPhase {
    if log == [] then p
    else
      var e := log[|log| - 1];
      var q := EvoFold(p, log[..|log| - 1], key);
      if e.kind.IsEvolution() && e.key == key then EvoNext(q, e) else q
  }

  lemma {:induction false} FoldConcat(p: LoopPhase, q: EvoPhase, a: Log, b: Log, key: string)
    ensures LoopFold(p, a + b, key) == LoopFold(LoopFold(p, a, key), b, key)
    ensures EvoFold(q, a + b, key) == EvoFold(EvoFold(q, a, key), b, key)
  {
    if b == [] {
      assert a + b == a;
    } else {
      var n := |b| - 1;
      assert (a + b)[..|a + b| - 1] == a + b[..n];
      FoldConcat(p, q, a, b[..n], key);
    }
  }

  lemma FoldSnoc(p: LoopPhase, q: EvoPhase, log: Log, e: Event, key: string)
    ensures LoopFold(p, log + [e], key) ==
      if e.kind.IsLoop() && e.key == key then LoopNext(LoopFold(p, log, key), e) else LoopFold(p, log, key)
    ensures EvoFold(q, log + [e], key) ==
      if e.kind.IsEvolution() && e.key == key then EvoNext(EvoFold(q, log, key), e) else EvoFold(q, log, key)
  {
    assert (log + [e])[..|log|] == log;
  }

  /** One id keeps to its three automata. */
  predicate OrderlyAt(log: Log, key: string) {
    && LoopFold(Fresh, log, key) != Broken
    && EvoFold(EFresh, log, key) != EBroken
    && AckFold(Unacked, log, key) != AckBroken
  }

  ghost predicate Orderly(log: Log) { forall key :: OrderlyAt(log, key) }

  lemma {:induction false} BrokenStays(p: LoopPhase, q: EvoPhase, log: Log, key: string)
    ensures p == Broken ==> LoopFold(p, log, key) == Broken
    ensures q == EBroken ==> EvoFold(q, log, key) == EBroken
  {
    if log != [] { BrokenStays(p, q, log[..|log| - 1], key); }
  }

  lemma OrderlyPrefixAt(a: Log, b: Log, key: string)
    requires OrderlyAt(a + b, key)
    ensures OrderlyAt(a, key)
  {
    FoldConcat(Fresh, EFresh, a, b, key);
    BrokenStays(LoopFold(Fresh, a, key), EvoFold(EFresh, a, key), b, key);
    AckConcat(Unacked, a, b, key);
    AckBrokenStays(b, key);
  }

  lemma OrderlyPrefix(a: Log, b: Log)
    requires Orderly(a + b)
    ensures Orderly(a)
  {
    forall key
      ensures OrderlyAt(a, key)
    {
      OrderlyPrefixAt(a, b, key);
    }
  }

  // ---------------------------------------------------------------------
  // What a phase says about the log
  // ---------------------------------------------------------------------

  predicate Mentions(log: Log, c: Class, key: string) {
    exists e :: e in log && e.key == key && (if c.Loop? then e.kind.IsLoop() else e.kind.IsEvolution())
  }

  function LoopRank(k: Kind): nat {
    match k
    case LoopRequested => 0
    case LoopAccepted => 1
    case LoopStarted => 2
    case _ => 3
  }

  function PhaseRank(p: LoopPhase): int {
    match p
    case Fresh => -1
    case Queued(_) => 0
    case Acked => 1
    case Running => 2
    case _ => 3
  }

  ghost predicate LoopFacts(log: Log, key: string) {
    var p := LoopFold(Fresh, log, key);
    && (p.Fresh? <==> !Mentions(log, Loop, key))
    && (key in Resolved(Loop, log) <==> p.Running? || p.Finished? || p.Skipped?)
    && (p.Acked? ==> LoopAcks(log, key))
    && (LoopAcks(log, key) ==> p.Acked? || p.Running? || p.Finished?)
  }

  ghost predicate LoopHistory(log: Log, key: string) {
    var p := LoopFold(Fresh, log, key);
    && ((exists e :: e in log && e.kind.LoopStarted? && e.key == key) <==> p.Running? || p.Finished?)
    && (Event(LoopRequested, key, true) in log <==> p == Queued(true) || p.Acked? || p.Running? || p.Finished?)
    && (Event(LoopRequested, key, false) in log <==> p == Queued(false) || p.Skipped?)
    && (forall e :: e in log && e.kind.IsLoop() && e.key == key ==> LoopRank(e.kind) <= PhaseRank(p))
  }

  lemma {:induction false} LoopPhaseFacts(log: Log, key: string)
    requires LoopFold(Fresh, log, key) != Broken
    ensures LoopFacts(log, key)
  {
    if log != [] {
      var n := |log| - 1;
      assert log == log[..n] + [log[n]];
      LoopPhaseFacts(log[..n], key);
    }
  }

  lemma {:induction false} LoopPhaseHistory(log: Log, key: string)
    requires LoopFold(Fresh, log, key) != Broken
    ensures LoopHistory(log, key)
  {
    if log != [] {
      var n := |log| - 1;
      assert log == log[..n] + [log[n]];
      LoopPhaseHistory(log[..n], key);
    }
  }

  function EvoRank(k: Kind): nat {
    match k
    case EvoRequested(_) => 0
    case EvoAccepted(_) => 1
    case EvoStarted(_) => 2
    case _ => 3
  }

  function EvoPhaseRank(p: EvoPhase): int {
    match p
    case EFresh => -1
    case EQueued(_) => 0
    case EAcked(_) => 1
    case EActive(_) => 2
    case _ => 3
  }

  ghost predicate EvoFacts(log: Log, key: string) { EvoStanding(log, key) && EvoMarks(log, key) }

  ghost predicate EvoStanding(log: Log, key: string) {
    var p := EvoFold(EFresh, log, key);
    (p.EFresh? <==> !Mentions(log, Evolution, key)) && (key in Resolved(Evolution, log) <==> p.EDone?)
  }

  ghost predicate EvoMarks(log: Log, key: string) {
    var p := EvoFold(EFresh, log, key);
    && (p.EAcked? ==> EvoAcks(log, key))
    && (EvoAcks(log, key) ==> p.EAcked? || p.EActive? || p.EDone?)
    && ((exists e :: e in log && e.kind.EvoStarted? && e.key == key) <==> p.EActive? || p.EDone?)
  }

  ghost predicate EvoHistory(log: Log, key: string) {
    var p := EvoFold(EFresh, log, key);
    && (p.EFresh? ==> !Mentions(log, Evolution, key))
    && (p.EQueued? || p.EAcked? || p.EActive? ==>
          forall e :: e in log && e.kind.EvoRequested? && e.key == key ==> e.kind.optimizer == p.optimizer)
    && (forall e :: e in log && e.kind.IsEvolution() && e.key == key ==> EvoRank(e.kind) <= EvoPhaseRank(p))
  }

  lemma EvoPhaseFacts(log: Log, key: string)
    requires EvoFold(EFresh, log, key) != EBroken
    ensures EvoFacts(log, key)
  {
    EvoPhaseStanding(log, key);
    EvoPhaseMarks(log, key);
  }

  lemma {:induction false} EvoPhaseStanding(log: Log, key: string)
    requires EvoFold(EFresh, log, key) != EBroken
    ensures EvoStanding(log, key)
  {
    if log != [] {
      var n := |log| - 1;
      assert log == log[..n] + [log[n]];
      EvoPhaseStanding(log[..n], key);
    }
  }

  lemma {:induction false} EvoPhaseMarks(log: Log, key: string)
    requires EvoFold(EFresh, log, key) != EBroken
    ensures EvoMarks(log, key)
  {
    if log != [] {
      var n := |log| - 1;
      assert log == log[..n] + [log[n]];
      EvoPhaseMarks(log[..n], key);
    }
  }

  lemma {:induction false} EvoPhaseHistory(log: Log, key: string)
    requires EvoFold(EFresh, log, key) != EBroken
    ensures EvoHistory(log, key)
  {
    if log != [] {
      var n := |log| - 1;
      assert log == log[..n] + [log[n]];
      EvoPhaseHistory(log[..n], key);
    }
  }

  // ---------------------------------------------------------------------
  // The plan of an orderly log
  // ---------------------------------------------------------------------

  lemma {:induction false} InRequests(c: Class, log: Log, gone: set<string>)
    ensures forall e :: e in Requests(c, log, gone) <==> e in log && e.kind.IsRequest(c) && e.key !in gone
  {
    if log != [] {
      assert log == log[..|log| - 1] + [log[|log| - 1]];
      InRequests(c, log[..|log| - 1], gone);
    }
  }

  ghost predicate DistinctKeys(events: seq<Event>) {
    forall i, j :: 0 <= i < j < |events| ==> events[i].key != events[j].key
  }

  /** No two requests of the class have this id. */
  ghost predicate RequestedOnce(c: Class, log: Log, key: string) {
    forall i, j :: 0 <= i < j < |log| && log[i].kind.IsRequest(c) && log[j].kind.IsRequest(c) ==>
      !(log[i].key == key && log[j].key == key)
  }

  lemma OncePrefix(c: Class, a: Log, b: Log, key: string)
    requires RequestedOnce(c, a + b, key)
    ensures RequestedOnce(c, a, key)
  {
    assert forall i :: 0 <= i < |a| ==> (a + b)[i] == a[i];
  }

  lemma {:induction false} OrderlyOnce(c: Class, log: Log, key: string)
    requires !c.Gate? && OrderlyAt(log, key)
    ensures RequestedOnce(c, log, key)
  {
    if log != [] {
      var n := |log| - 1;
      assert log == log[..n] + [log[n]];
      OrderlyPrefixAt(log[..n], [log[n]], key);
      OrderlyOnce(c, log[..n], key);
      LoopPhaseFacts(log[..n], key);
      EvoPhaseFacts(log[..n], key);
      forall i | 0 <= i < n && log[i].kind.IsRequest(c) && log[n].kind.IsRequest(c) && log[n].key == key
        ensures log[i].key != key
      {
        assert log[i] in log[..n];
      }
    }
  }

  lemma {:induction false} PendingOnce(c: Class, log: Log, gone: set<string>, key: string)
    requires RequestedOnce(c, log, key)
    ensures forall i, j :: 0 <= i < j < |Requests(c, log, gone)| ==>
      !(Requests(c, log, gone)[i].key == key && Requests(c, log, gone)[j].key == key)
  {
    if log != [] {
      var n := |log| - 1;
      assert log == log[..n] + [log[n]];
      OncePrefix(c, log[..n], [log[n]], key);
      PendingOnce(c, log[..n], gone, key);
      InRequests(c, log[..n], gone);
      var earlier := Requests(c, log[..n], gone);
      forall i | 0 <= i < |earlier| && log[n].kind.IsRequest(c) && log[n].key == key
        ensures earlier[i].key != key
      {
        assert earlier[i] in log[..n];
      }
    }
  }

  lemma RequestsDistinct(c: Class, log: Log, gone: set<string>)
    requires !c.Gate? && Orderly(log)
    ensures DistinctKeys(Requests(c, log, gone))
  {
    var requests := Requests(c, log, gone);
    forall i, j | 0 <= i < j < |requests|
      ensures requests[i].key != requests[j].key
    {
      OrderlyOnce(c, log, requests[i].key);
      PendingOnce(c, log, gone, requests[i].key);
    }
  }

  /** At most one action of the plan is for this request. */
  ghost predicate OnceFor(plan: seq<Action>, ident: (Class, string)) {
    forall i, j :: 0 <= i < j < |plan| ==> !(plan[i].Ident() == ident && plan[j].Ident() == ident)
  }

  lemma PlanOnceFor(c: Class, log: Log, key: string)
    requires RequestedOnce(c, log, key)
    ensures OnceFor(Plan(log), (c, key))
  {
    PendingOnce(c, log, Resolved(c, log), key);
  }

  /** No loop and no evolution request is planned twice. */
  predicate PlannedOnce(plan: seq<Action>) {
    forall i, j :: 0 <= i < j < |plan| && !plan[i].class_.Gate? ==> plan[i].Ident() != plan[j].Ident()
  }

  lemma PlanOnce(log: Log)
    requires Orderly(log)
    ensures PlannedOnce(Plan(log))
  {
    var plan := Plan(log);
    forall i, j | 0 <= i < j < |plan| && !plan[i].class_.Gate?
      ensures plan[i].Ident() != plan[j].Ident()
    {
      OrderlyOnce(plan[i].class_, log, plan[i].key);
      PlanOnceFor(plan[i].class_, log, plan[i].key);
    }
  }

  lemma InPlan(log: Log, a: Action)
    requires a in Plan(log)
    ensures exists e ::
      e in log && e.kind.IsRequest(a.class_) && e.key !in Resolved(a.class_, log) && a == ActionOf(a.class_, e)
  {
    InRequests(Evolution, log, Resolved(Evolution, log));
    InRequests(Loop, log, Resolved(Loop, log));
    InRequests(Gate, log, Resolved(Gate, log));
    var c := if a in Actions(Evolution, Pending(Evolution, log)) then Evolution
             else if a in Actions(Loop, Pending(Loop, log)) then Loop else Gate;
    assert a in Actions(c, Pending(c, log));
    var i :| 0 <= i < |Pending(c, log)| && a == ActionOf(c, Pending(c, log)[i]);
    assert Pending(c, log)[i] in Pending(c, log);
  }

  lemma PlanHas(log: Log, c: Class, e: Event)
    requires e in log && e.kind.IsRequest(c) && e.key !in Resolved(c, log)
    ensures ActionOf(c, e) in Plan(log)
  {
    InRequests(c, log, Resolved(c, log));
    var i :| 0 <= i < |Pending(c, log)| && Pending(c, log)[i] == e;
    assert Actions(c, Pending(c, log))[i] == ActionOf(c, e);
  }

  // ---------------------------------------------------------------------
  // One tick keeps every key to its automaton
  // ---------------------------------------------------------------------

  predicate Runs(plan: seq<Action>, c: Class, key: string) {
    exists a :: a in plan && a.class_ == c && a.key == key && a.Acknowledged()
  }

  /** The acknowledgement pass moves at most the runnable, not yet accepted keys. */
  lemma {:induction false} AcksLoopFold(p: LoopPhase, plan: seq<Action>, accepted: set<string>, key: string)
    ensures var q := LoopFold(p, Acks(plan, accepted), key);
      q == p || (Runs(plan, Loop, key) && key !in accepted && q == LoopNext(p, Event(LoopAccepted, key, true)))
    decreases plan
  {
    if plan != [] {
      var a, rest := plan[0], plan[1..];
      assert plan == [a] + rest;
      if a.Acknowledged() && a.key !in accepted {
        var ack := [AckEvent(a)];
        FoldConcat(p, EFresh, ack, Acks(rest, accepted + {a.key}), key);
        AcksLoopFold(LoopFold(p, ack, key), rest, accepted + {a.key}, key);
      } else {
        AcksLoopFold(p, rest, accepted, key);
      }
    }
  }

  lemma {:induction false} AcksEvoFold(q: EvoPhase, plan: seq<Action>, accepted: set<string>, key: string)
    requires forall a :: a in plan && a.Ident() == (Evolution, key) ==> q == EQueued(a.optimizer) || key in accepted
    ensures var r := EvoFold(q, Acks(plan, accepted), key);
      r == q || (Runs(plan, Evolution, key) && q.EQueued? && r == EAcked(q.optimizer))
    decreases plan
  {
    if plan != [] {
      var a, rest := plan[0], plan[1..];
      assert plan == [a] + rest;
      if a.Acknowledged() && a.key !in accepted {
        var ack := [AckEvent(a)];
        FoldConcat(Fresh, q, ack, Acks(rest, accepted + {a.key}), key);
        AcksEvoFold(EvoFold(q, ack, key), rest, accepted + {a.key}, key);
      } else {
        AcksEvoFold(q, rest, accepted, key);
      }
    }
  }

  predicate Planned(plan: seq<Action>, c: Class, key: string) {
    exists a :: a in plan && a.Ident() == (c, key)
  }

  lemma {:induction false} LoopUntouched(p: LoopPhase, log: Log, key: string)
    requires forall e :: e in log ==> !(e.kind.IsLoop() && e.key == key)
    ensures LoopFold(p, log, key) == p
  {
    if log != [] { LoopUntouched(p, log[..|log| - 1], key); }
  }

  lemma {:induction false} EvoUntouched(q: EvoPhase, log: Log, key: string)
    requires forall e :: e in log ==> !(e.kind.IsEvolution() && e.key == key)
    ensures EvoFold(q, log, key) == q
  {
    if log != [] { EvoUntouched(q, log[..|log| - 1], key); }
  }

  lemma TwoEvents(p: LoopPhase, q: EvoPhase, e: Event, f: Event)
    requires e.key == f.key
    ensures e.kind.IsLoop() && f.kind.IsLoop() ==> LoopFold(p, [e, f], e.key) == LoopNext(LoopNext(p, e), f)
    ensures e.kind.IsEvolution() && f.kind.IsEvolution() ==> EvoFold(q, [e, f], e.key) == EvoNext(EvoNext(q, e), f)
  {
    assert [e, f] == [e] + [f] && [e] == [] + [e];
    FoldSnoc(p, q, [], e, e.key);
    FoldSnoc(p, q, [e], f, e.key);
  }

  /** A phase in which the action can run. */
  predicate LoopReady(p: LoopPhase, a: Action) {
    if a.runnable then p == Queued(true) || p == Acked else p == Queued(false)
  }

  predicate EvoReady(q: EvoPhase, a: Action) {
    q == EQueued(a.optimizer) || q == EAcked(a.optimizer) || q == EActive(a.optimizer)
  }

  lemma ExecuteLoop(a: Action, out: Outcome) returns (ended: Event, tail: Log)
    requires a.class_.Loop? && a.runnable
    ensures Execute(a, out) == [Event(LoopStarted, a.key, true), ended] + tail
    ensures ended.key == a.key && (ended.kind.LoopCompleted? || ended.kind.LoopFailed?)
    ensures forall e :: e in tail ==> !e.kind.IsLoop()
  {
    ended := Event(if out.ok then LoopCompleted else LoopFailed, a.key, true);
    tail := if out.lifecycle then [Event(WorktreeLifecycle, a.key, true)] else [];
  }

  lemma LoopExecution(p: LoopPhase, a: Action, out: Outcome)
    requires a.class_.Loop? && LoopReady(p, a)
    ensures LoopFold(p, Execute(a, out), a.key) == if a.runnable then Finished else Skipped
  {
    if a.runnable {
      var started := Event(LoopStarted, a.key, true);
      var ended, tail := ExecuteLoop(a, out);
      TwoEvents(p, EFresh, started, ended);
      FoldConcat(p, EFresh, [started, ended], tail, a.key);
      LoopUntouched(Finished, tail, a.key);
    }
  }

  lemma EvoExecution(q: EvoPhase, a: Action, out: Outcome)
    requires a.class_.Evolution? && EvoReady(q, a)
    ensures EvoFold(q, Execute(a, out), a.key) == EDone
  {
    var es := Execute(a, out);
    TwoEvents(Fresh, q, es[0], es[1]);
    assert es == [es[0], es[1]];
  }

  /** An event of a lifecycle, not a request, of this class or of none. */
  predicate BelongsTo(k: Kind, c: Class) {
    (k.IsLoop() ==> c.Loop?) && (k.IsEvolution() ==> c.Evolution?) && !k.IsAnyRequest()
  }

  lemma ExecuteKeys(a: Action, out: Outcome)
    ensures forall e :: e in Execute(a, out) ==>
      e.key == a.key && BelongsTo(e.kind, a.class_)
  {
    var es := Execute(a, out);
    forall i | 0 <= i < |es|
      ensures es[i].key == a.key && BelongsTo(es[i].kind, a.class_)
    {
      match a.class_ {
        case Loop =>
        case Evolution =>
        case Gate =>
      }
    }
  }

  lemma {:induction false} ExecuteLoopFold(p: LoopPhase, plan: seq<Action>, outs: nat -> Outcome, key: string)
    requires OnceFor(plan, (Loop, key))
    requires forall a :: a in plan && a.Ident() == (Loop, key) ==> LoopReady(p, a)
    ensures LoopFold(p, ExecuteAll(plan, outs), key) ==
      if Planned(plan, Loop, key) then (if p == Queued(false) then Skipped else Finished) else p
  {
    if plan != [] {
      var n := |plan| - 1;
      var init, a := plan[..n], plan[n];
      assert plan == init + [a];
      ExecuteLoopFold(p, init, outs, key);
      FoldConcat(p, EFresh, ExecuteAll(init, outs), Execute(a, outs(n)), key);
      ExecuteKeys(a, outs(n));
      var p' := LoopFold(p, ExecuteAll(init, outs), key);
      if a.Ident() == (Loop, key) {
        LoopExecution(p', a, outs(n));
      } else {
        LoopUntouched(p', Execute(a, outs(n)), key);
      }
    }
  }

  lemma {:induction false} ExecuteEvoFold(q: EvoPhase, plan: seq<Action>, outs: nat -> Outcome, key: string)
    requires OnceFor(plan, (Evolution, key))
    requires forall a :: a in plan && a.Ident() == (Evolution, key) ==> EvoReady(q, a)
    ensures EvoFold(q, ExecuteAll(plan, outs), key) == if Planned(plan, Evolution, key) then EDone else q
  {
    if plan != [] {
      var n := |plan| - 1;
      var init, a := plan[..n], plan[n];
      assert plan == init + [a];
      ExecuteEvoFold(q, init, outs, key);
      FoldConcat(Fresh, q, ExecuteAll(init, outs), Execute(a, outs(n)), key);
      ExecuteKeys(a, outs(n));
      var q' := EvoFold(q, ExecuteAll(init, outs), key);
      if a.Ident() == (Evolution, key) {
        EvoExecution(q', a, outs(n));
      } else {
        EvoUntouched(q', Execute(a, outs(n)), key);
      }
    }
  }

  // ---------------------------------------------------------------------
  // Ticks on an orderly log
  // ---------------------------------------------------------------------

  /** Event ids are not empty, so no evolution request has the empty id. */
  ghost predicate NoEmptyIds(log: Log) { !Mentions(log, Evolution, "") }

  /** Before the acknowledgement pass a planned key is queued, or it has moved on and is
      accepted. */
  predicate LoopWaiting(p: LoopPhase, a: Action, accepted: bool) {
    if a.runnable then p == Queued(true) || (p == Acked && accepted) else p == Queued(false)
  }

  predicate EvoWaiting(q: EvoPhase, a: Action, accepted: bool) {
    a.runnable && (q == EQueued(a.optimizer) || (accepted && EvoReady(q, a)))
  }

  lemma PlanLoop(log: Log, a: Action)
    requires OrderlyAt(log, a.key) && a in Plan(log) && a.class_.Loop?
    ensures LoopWaiting(LoopFold(Fresh, log, a.key), a, a.key in Accepted(log))
  {
    LoopPhaseFacts(log, a.key);
    LoopPhaseHistory(log, a.key);
    InPlan(log, a);
    assert Mentions(log, Loop, a.key);
  }

  lemma PlanEvo(log: Log, a: Action)
    requires OrderlyAt(log, a.key) && NoEmptyIds(log) && a in Plan(log) && a.class_.Evolution?
    ensures EvoWaiting(EvoFold(EFresh, log, a.key), a, a.key in Accepted(log))
  {
    EvoPhaseFacts(log, a.key);
    EvoPhaseHistory(log, a.key);
    InPlan(log, a);
    assert Mentions(log, Evolution, a.key);
    AckFacts(log, a.key);
    if EvoFold(EFresh, log, a.key).EActive? { assert Starts(log, a.key); }
  }

  lemma RunsIsPlanned(plan: seq<Action>, c: Class, key: string)
    ensures Runs(plan, c, key) ==> Planned(plan, c, key)
    ensures forall a :: a in plan && a.Ident() == (c, key) ==>
      Planned(plan, c, key) && (a.Acknowledged() ==> Runs(plan, c, key))
  {
  }

  /** The acknowledgement pass leaves every planned key in a phase in which it can run. */
  lemma AcksMakeReady(plan: seq<Action>, accepted: set<string>, p: LoopPhase, q: EvoPhase, key: string)
    requires p != Broken && q != EBroken
    requires forall a :: a in plan && a.Ident() == (Loop, key) ==> LoopWaiting(p, a, key in accepted)
    requires forall a :: a in plan && a.Ident() == (Evolution, key) ==> EvoWaiting(q, a, key in accepted)
    ensures var p' := LoopFold(p, Acks(plan, accepted), key);
      p' != Broken && forall a :: a in plan && a.Ident() == (Loop, key) ==> LoopReady(p', a)
    ensures var q' := EvoFold(q, Acks(plan, accepted), key);
      q' != EBroken && forall a :: a in plan && a.Ident() == (Evolution, key) ==> EvoReady(q', a)
  {
    RunsIsPlanned(plan, Loop, key);
    RunsIsPlanned(plan, Evolution, key);
    AcksLoopFold(p, plan, accepted, key);
    AcksEvoFold(q, plan, accepted, key);
  }

  lemma PlanReady(log: Log, key: string)
    requires OrderlyAt(log, key) && NoEmptyIds(log)
    ensures var p' := LoopFold(LoopFold(Fresh, log, key), Acks(Plan(log), Accepted(log)), key);
      p' != Broken && forall a :: a in Plan(log) && a.Ident() == (Loop, key) ==> LoopReady(p', a)
    ensures var q' := EvoFold(EvoFold(EFresh, log, key), Acks(Plan(log), Accepted(log)), key);
      q' != EBroken && forall a :: a in Plan(log) && a.Ident() == (Evolution, key) ==> EvoReady(q', a)
  {
    forall a | a in Plan(log) && a.Ident() == (Loop, key)
      ensures LoopWaiting(LoopFold(Fresh, log, key), a, key in Accepted(log))
    {
      PlanLoop(log, a);
    }
    forall a | a in Plan(log) && a.Ident() == (Evolution, key)
      ensures EvoWaiting(EvoFold(EFresh, log, key), a, key in Accepted(log))
    {
      PlanEvo(log, a);
    }
    AcksMakeReady(Plan(log), Accepted(log), LoopFold(Fresh, log, key), EvoFold(EFresh, log, key), key);
  }

  lemma ExecuteKeepsKey(p: LoopPhase, q: EvoPhase, plan: seq<Action>, n: nat, outs: nat -> Outcome, key: string)
    requires n <= |plan| && OnceFor(plan, (Loop, key)) && OnceFor(plan, (Evolution, key))
    requires p != Broken && forall a :: a in plan && a.Ident() == (Loop, key) ==> LoopReady(p, a)
    requires q != EBroken && forall a :: a in plan && a.Ident() == (Evolution, key) ==> EvoReady(q, a)
    ensures LoopFold(p, ExecuteAll(plan[..n], outs), key) != Broken
    ensures EvoFold(q, ExecuteAll(plan[..n], outs), key) != EBroken
  {
    assert forall a :: a in plan[..n] ==> a in plan;
    ExecuteLoopFold(p, plan[..n], outs, key);
    ExecuteEvoFold(q, plan[..n], outs, key);
  }

  /** One authorized tick, with any cap, stop point and outcomes, keeps an id to its automata. */
  lemma TickKeepsKey(log: Log, cap: int, stop: nat, outs: nat -> Outcome, key: string)
    requires OrderlyAt(log, key) && NoEmptyIds(log)
    ensures OrderlyAt(log + TickAppends(log, cap, stop, outs), key)
  {
    var plan, accepted := Plan(log), Accepted(log);
    var n := Served(|plan|, cap, stop);
    var acks, lives := Acks(plan, accepted), ExecuteAll(plan[..n], outs);
    var p, q := LoopFold(Fresh, log, key), EvoFold(EFresh, log, key);
    PlanReady(log, key);
    OrderlyOnce(Loop, log, key);
    OrderlyOnce(Evolution, log, key);
    PlanOnceFor(Loop, log, key);
    PlanOnceFor(Evolution, log, key);
    ExecuteKeepsKey(LoopFold(p, acks, key), EvoFold(q, acks, key), plan, n, outs, key);
    FoldConcat(Fresh, EFresh, log, acks + lives, key);
    FoldConcat(p, q, acks, lives, key);
    EvolutionRuns(log);
    TickAckFold(log, plan, n, outs, key);
  }

  lemma EvolutionRuns(log: Log)
    ensures forall a :: a in Plan(log) && a.class_.Evolution? ==> a.runnable
  {
    forall a | a in Plan(log) && a.class_.Evolution?
      ensures a.runnable
    {
      InPlan(log, a);
    }
  }

  lemma TickOrderly(log: Log, cap: int, stop: nat, outs: nat -> Outcome)
    requires Orderly(log) && NoEmptyIds(log)
    ensures Orderly(log + TickAppends(log, cap, stop, outs))
  {
    forall key
      ensures OrderlyAt(log + TickAppends(log, cap, stop, outs), key)
    {
      TickKeepsKey(log, cap, stop, outs, key);
    }
  }

  // ---------------------------------------------------------------------
  // Whole runs
  // ---------------------------------------------------------------------

  /** The durable log, and the appends an ongoing tick still has to make. */
  datatype State = State(log: Log, todo: Log)

  datatype Move =
    | Produce(e: Event)                                      // some producer appends a request
    | Tick(cap: int, stop: nat, outs: nat -> Outcome)        // an authorized tick reads the log and plans
    | Append                                                 // the tick makes its next append
    | Crash                                                  // the process dies; the rest is lost

  /** Producers: a loop request only if `loop_request_exists` finds no loop event with
      its id, whatever evolution requests use it; an evolution request under a non-empty
      event id of its own; review gate requests and unrelated events at any time.
      Lifecycle events come from the resident alone. */
  predicate MayProduce(log: Log, e: Event) {
    match e.kind
    case LoopRequested => !Mentions(log, Loop, e.key)
    case EvoRequested(_) => e.key != "" && !Mentions(log, Evolution, e.key)
    case GateRequested => true
    case Unrelated => true
    case _ => false
  }

  function Apply(s: State, m: Move): State {
    match m
    case Produce(e) => if MayProduce(s.log, e) then s.(log := s.log + [e]) else s
    case Tick(cap, stop, outs) => if s.todo == [] then s.(todo := TickAppends(s.log, cap, stop, outs)) else s
    case Append => if s.todo == [] then s else State(s.log + [s.todo[0]], s.todo[1..])
    case Crash => s.(todo := [])
  }

  function Run(moves: seq<Move>): State {
    if moves == [] then State([], [])
    else Apply(Run(moves[..|moves| - 1]), moves[|moves| - 1])
  }

  ghost predicate Inv(s: State) {
    Orderly(s.log + s.todo) && NoEmptyIds(s.log) && Grounded(s)
  }

  /** An ongoing tick only answers requests that are in the log. */
  ghost predicate Grounded(s: State) {
    && (forall e :: e in s.todo && e.kind.IsLoop() ==> Mentions(s.log, Loop, e.key))
    && (forall e :: e in s.todo && e.kind.IsEvolution() ==> Mentions(s.log, Evolution, e.key))
    && (forall e :: e in s.todo ==> !e.kind.IsAnyRequest())
  }

  lemma {:induction false} AcksKeys(plan: seq<Action>, accepted: set<string>)
    ensures forall e :: e in Acks(plan, accepted) ==>
      exists a :: a in plan && a.key == e.key && e == AckEvent(a) && a.Acknowledged()
  {
    if plan != [] {
      AcksKeys(plan[1..], accepted);
      AcksKeys(plan[1..], accepted + {plan[0].key});
      assert plan == [plan[0]] + plan[1..];
    }
  }

  lemma {:induction false} ExecuteAllKeys(plan: seq<Action>, outs: nat -> Outcome)
    ensures forall e :: e in ExecuteAll(plan, outs) ==>
      exists a :: a in plan && a.key == e.key && BelongsTo(e.kind, a.class_)
  {
    if plan != [] {
      var n := |plan| - 1;
      ExecuteAllKeys(plan[..n], outs);
      ExecuteKeys(plan[n], outs(n));
      assert plan == plan[..n] + [plan[n]];
    }
  }

  lemma TickAnswers(log: Log, cap: int, stop: nat, outs: nat -> Outcome, e: Event) returns (a: Action)
    requires e in TickAppends(log, cap, stop, outs)
    ensures a in Plan(log) && a.key == e.key && BelongsTo(e.kind, a.class_)
  {
    var plan := Plan(log);
    var served := plan[..Served(|plan|, cap, stop)];
    if e in Acks(plan, Accepted(log)) {
      AcksKeys(plan, Accepted(log));
      a :| a in plan && a.key == e.key && e == AckEvent(a) && a.Acknowledged();
    } else {
      ExecuteAllKeys(served, outs);
      a :| a in served && a.key == e.key && BelongsTo(e.kind, a.class_);
    }
  }

  lemma TickGrounded(log: Log, cap: int, stop: nat, outs: nat -> Outcome)
    ensures Grounded(State(log, TickAppends(log, cap, stop, outs)))
  {
    forall e | e in TickAppends(log, cap, stop, outs)
      ensures e.kind.IsLoop() ==> Mentions(log, Loop, e.key)
      ensures e.kind.IsEvolution() ==> Mentions(log, Evolution, e.key)
      ensures !e.kind.IsAnyRequest()
    {
      var a := TickAnswers(log, cap, stop, outs, e);
      if !a.class_.Gate? { PlanMentioned(log, a); }
    }
  }

  lemma PlanMentioned(log: Log, a: Action)
    requires a in Plan(log) && !a.class_.Gate?
    ensures Mentions(log, a.class_, a.key)
  {
    InPlan(log, a);
  }

  lemma MentionsSnoc(log: Log, e: Event, c: Class, key: string)
    ensures Mentions(log + [e], c, key) <==>
      Mentions(log, c, key) || (e.key == key && (if c.Loop? then e.kind.IsLoop() else e.kind.IsEvolution()))
  {
    if Mentions(log, c, key) {
      var f :| f in log && f.key == key && (if c.Loop? then f.kind.IsLoop() else f.kind.IsEvolution());
      assert f in log + [e];
    }
    if e.key == key && (if c.Loop? then e.kind.IsLoop() else e.kind.IsEvolution()) {
      assert e in log + [e];
    }
  }

  lemma ProduceKeeps(s: State, e: Event)
    requires Inv(s) && MayProduce(s.log, e)
    ensures Inv(s.(log := s.log + [e]))
  {
    forall key
      ensures OrderlyAt((s.log + [e]) + s.todo, key)
    {
      ProduceKeepsKey(s, e, key);
    }
    GroundedSnoc(s, e);
    MentionsSnoc(s.log, e, Evolution, "");
  }

  lemma GroundedSnoc(s: State, e: Event)
    requires Grounded(s)
    ensures Grounded(s.(log := s.log + [e]))
  {
    forall c, key {
      MentionsSnoc(s.log, e, c, key);
    }
  }

  /** A request that finds no event of its family under its id, also in the middle of a tick. */
  lemma ProduceKeepsKey(s: State, e: Event, key: string)
    requires OrderlyAt(s.log + s.todo, key) && Grounded(s) && MayProduce(s.log, e)
    ensures OrderlyAt((s.log + [e]) + s.todo, key)
  {
    OrderlyPrefixAt(s.log, s.todo, key);
    LoopPhaseFacts(s.log, key);
    EvoPhaseFacts(s.log, key);
    FoldConcat(Fresh, EFresh, s.log, s.todo, key);
    FoldConcat(Fresh, EFresh, s.log + [e], s.todo, key);
    FoldSnoc(Fresh, EFresh, s.log, e, key);
    if e.kind.LoopRequested? && e.key == key { LoopUntouched(Queued(e.runnable), s.todo, key); }
    if e.kind.EvoRequested? && e.key == key { EvoUntouched(EQueued(e.kind.optimizer), s.todo, key); }
    AckSkips(s.log, e, s.todo, key);
  }

  lemma ApplyKeeps(s: State, m: Move)
    requires Inv(s)
    ensures Inv(Apply(s, m))
  {
    match m
    case Produce(e) =>
      if MayProduce(s.log, e) { ProduceKeeps(s, e); }
    case Tick(cap, stop, outs) =>
      if s.todo == [] {
        assert s.log + s.todo == s.log;
        TickOrderly(s.log, cap, stop, outs);
        TickGrounded(s.log, cap, stop, outs);
      }
    case Append =>
      if s.todo != [] { AppendKeeps(s); }
    case Crash =>
      OrderlyPrefix(s.log, s.todo);
      assert s.log + [] == s.log;
  }

  lemma AppendKeeps(s: State)
    requires Inv(s) && s.todo != []
    ensures Inv(State(s.log + [s.todo[0]], s.todo[1..]))
  {
    assert (s.log + [s.todo[0]]) + s.todo[1..] == s.log + s.todo;
    GroundedSnoc(s, s.todo[0]);
    MentionsSnoc(s.log, s.todo[0], Evolution, "");
  }

  /** Every state of every run satisfies the invariant. */
  lemma {:induction false} RunInv(moves: seq<Move>)
    ensures Inv(Run(moves))
  {
    if moves == [] {
      assert State([], []).log + State([], []).todo == [];
    } else {
      RunInv(moves[..|moves| - 1]);
      ApplyKeeps(Run(moves[..|moves| - 1]), moves[|moves| - 1]);
    }
  }
}
