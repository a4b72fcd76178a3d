/** What one tick does with each planned request: which requests are planned and in which
    order, who is acknowledged, and how each served request is answered. */
module QueueAnswers {
  import opened QueueModel
  import opened QueueAcks
  import opened QueueLifecycle
  import opened QueueTheorems

  // ---------------------------------------------------------------------
  // The plan
  // ---------------------------------------------------------------------

  /** On any log, a request is planned exactly if it was made and none of the listed events
      answers its id. */
  lemma PlannedExactly(log: Log, c: Class, key: string)
    ensures Planned(Plan(log), c, key) <==>
      && (exists e :: e in log && e.key == key && match c
                                                 case Loop => e.kind == LoopRequested
                                                 case Evolution => e.kind in {EvoRequested(true), EvoRequested(false)}
                                                 case Gate => e.kind == GateRequested)
      && !exists e :: e in log && e.key == key && match c
           case Loop => e.kind in {LoopStarted, LoopCompleted, LoopFailed, LoopSkipped}
           case Evolution => e.kind in {EvoCompleted(true), EvoCompleted(false), EvoFailed(true), EvoFailed(false)}
           case Gate => e.kind in {GateAccepted, GateStarted, GateCompleted, GateFailed, GateSkipped}
  {
    if Planned(Plan(log), c, key) {
      var a :| a in Plan(log) && a.Ident() == (c, key);
      InPlan(log, a);
    }
    if e :| e in log && e.kind.IsRequest(c) && e.key == key && key !in Resolved(c, log) {
      PlanHas(log, c, e);
      assert ActionOf(c, e).Ident() == (c, key);
    }
  }

  function Turn(c: Class): nat {
    match c
    case Evolution => 0
    case Loop => 1
    case Gate => 2
  }

  lemma {:induction false} RequestsInOrder(c: Class, log: Log, gone: set<string>, i: nat, j: nat)
    returns (a: nat, b: nat)
    requires i < j < |Requests(c, log, gone)|
    ensures a < b < |log| && log[a] == Requests(c, log, gone)[i] && log[b] == Requests(c, log, gone)[j]
  {
    var n := |log| - 1;
    var earlier := Requests(c, log[..n], gone);
    if j < |earlier| {
      a, b := RequestsInOrder(c, log[..n], gone, i, j);
    } else {
      InRequests(c, log[..n], gone);
      assert earlier[i] in log[..n];
      a :| 0 <= a < n && log[a] == earlier[i];
      b := n;
    }
  }

  /** Two positions of the log, the first before the second, with the requests of a and b. */
  ghost predicate AskedBefore(log: Log, a: Action, b: Action) {
    exists i, j :: 0 <= i < j < |log| && log[i].kind.IsRequest(a.class_) && log[j].kind.IsRequest(b.class_)
                   && (log[i].key == a.key && log[j].key == b.key)
  }

  lemma FamilyInOrder(c: Class, log: Log, i: nat, j: nat)
    requires i < j < |Pending(c, log)|
    ensures AskedBefore(log, ActionOf(c, Pending(c, log)[i]), ActionOf(c, Pending(c, log)[j]))
  {
    var a, b := RequestsInOrder(c, log, Resolved(c, log), i, j);
    InRequests(c, log, Resolved(c, log));
    assert Pending(c, log)[i] in Pending(c, log) && Pending(c, log)[j] in Pending(c, log);
  }

  /** The plan serves evolution requests before loops and loops before review gates, and
      within a family the earlier request first. */
  lemma PlanInOrder(log: Log, i: nat, j: nat)
    requires i < j < |Plan(log)|
    ensures Turn(Plan(log)[i].class_) <= Turn(Plan(log)[j].class_)
    ensures Plan(log)[i].class_ == Plan(log)[j].class_ ==> AskedBefore(log, Plan(log)[i], Plan(log)[j])
  {
    if Plan(log)[i].class_ == Plan(log)[j].class_ {
      var c := Plan(log)[i].class_;
      var before := match c
        case Evolution => 0
        case Loop => |Pending(Evolution, log)|
        case Gate => |Pending(Evolution, log)| + |Pending(Loop, log)|;
      FamilyInOrder(c, log, i - before, j - before);
    }
  }

  /** A tick serves all planned actions, unless the cap or a stop comes first. */
  lemma ServedExactly(planned: nat, cap: int, stop: nat)
    ensures var n := Served(planned, cap, stop);
      && n <= planned && n <= stop && (0 < cap ==> n <= cap)
      && (n == planned || n == stop || (0 < cap && n == cap))
  {
  }

  // ---------------------------------------------------------------------
  // Acknowledgements
  // ---------------------------------------------------------------------

  lemma {:induction false} AcksCover(plan: seq<Action>, accepted: set<string>, a: Action)
    requires a in plan && a.Acknowledged()
    ensures a.key in accepted || exists e :: e in Acks(plan, accepted) && e.key == a.key
  {
    var rest := plan[1..];
    if plan[0] == a {
      if a.key !in accepted { assert AckEvent(a) in Acks(plan, accepted); }
    } else if plan[0].Acknowledged() && plan[0].key !in accepted {
      AcksCover(rest, accepted + {plan[0].key}, a);
      if a.key == plan[0].key { assert AckEvent(plan[0]) in Acks(plan, accepted); }
    } else {
      AcksCover(rest, accepted, a);
    }
  }

  lemma {:induction false} AcksAreNew(plan: seq<Action>, accepted: set<string>)
    ensures forall e :: e in Acks(plan, accepted) ==> e.key !in accepted
  {
    if plan != [] {
      AcksAreNew(plan[1..], accepted);
      AcksAreNew(plan[1..], accepted + {plan[0].key});
    }
  }

  lemma TickAcks(log: Log, cap: int, stop: nat, outs: nat -> Outcome, e: Event)
    ensures e in TickAppends(log, cap, stop, outs) && IsAck(e.kind) <==> e in Acks(Plan(log), Accepted(log))
  {
    var plan := Plan(log);
    AcksKeys(plan, Accepted(log));
    var served := plan[..Served(|plan|, cap, stop)];
    if e in ExecuteAll(served, outs) { ExecuteAllStarts(served, outs, e); }
  }

  /** A tick acknowledges an id exactly if a runnable loop or an evolution request is planned
      under it and neither family acknowledged it before. */
  lemma AcknowledgedExactly(log: Log, cap: int, stop: nat, outs: nat -> Outcome, key: string)
    requires key != ""
    ensures var all := TickAppends(log, cap, stop, outs);
      LoopAcks(all, key) || EvoAcks(all, key) <==>
      Wants(Plan(log), key) && !LoopAcks(log, key) && !EvoAcks(log, key)
  {
    var plan, all := Plan(log), TickAppends(log, cap, stop, outs);
    AcksAreNew(plan, Accepted(log));
    AcksKeys(plan, Accepted(log));
    if LoopAcks(all, key) || EvoAcks(all, key) {
      var e :| e in all && IsAck(e.kind) && e.key == key;
      TickAcks(log, cap, stop, outs, e);
      assert key !in Accepted(log);
    }
    if Wants(plan, key) && !LoopAcks(log, key) && !EvoAcks(log, key) {
      var a :| a in plan && a.key == key && a.Acknowledged();
      AcksCover(plan, Accepted(log), a);
      var e :| e in Acks(plan, Accepted(log)) && e.key == key;
      TickAcks(log, cap, stop, outs, e);
    }
  }

  // ---------------------------------------------------------------------
  // Answers
  // ---------------------------------------------------------------------

  /** The events with which a request of this class is started, completed, failed or skipped. */
  function StartedEvent(a: Action): Event {
    match a.class_
    case Loop => Event(LoopStarted, a.key, true)
    case Evolution => Event(EvoStarted(a.optimizer), a.key, true)
    case Gate => Event(GateStarted, a.key, true)
  }

  function CompletedEvent(a: Action): Event {
    match a.class_
    case Loop => Event(LoopCompleted, a.key, true)
    case Evolution => Event(EvoCompleted(a.optimizer), a.key, true)
    case Gate => Event(GateCompleted, a.key, true)
  }

  function FailedEvent(a: Action): Event {
    match a.class_
    case Loop => Event(LoopFailed, a.key, true)
    case Evolution => Event(EvoFailed(a.optimizer), a.key, true)
    case Gate => Event(GateFailed, a.key, true)
  }

  /** Evolution requests always run. */
  predicate WillRun(a: Action) { a.class_.Evolution? || a.runnable }

  /** An action that runs is started, and completed or failed as its runner says; any other is
      skipped.  A worktree report appears exactly if a loop ran and its finalizer made one. */
  lemma ExecuteAnswers(a: Action, out: Outcome)
    ensures StartedEvent(a) in Execute(a, out) <==> WillRun(a)
    ensures CompletedEvent(a) in Execute(a, out) <==> WillRun(a) && out.ok
    ensures FailedEvent(a) in Execute(a, out) <==> WillRun(a) && !out.ok
    ensures Event(LoopSkipped, a.key, true) in Execute(a, out) <==> a.class_.Loop? && !a.runnable
    ensures Event(GateSkipped, a.key, true) in Execute(a, out) <==> a.class_.Gate? && !a.runnable
    ensures Event(WorktreeLifecycle, a.key, true) in Execute(a, out) <==> a.class_.Loop? && a.runnable && out.lifecycle
  {
    var es := Execute(a, out);
    match a.class_ {
      case Loop =>
        assert es[0] in es;
        if a.runnable { assert es[1] in es && (out.lifecycle ==> es[2] in es); }
      case Evolution => assert es[0] in es && es[1] in es;
      case Gate =>
        assert es[0] in es;
        if a.runnable { assert es[1] in es && es[2] in es; }
    }
  }

  /** The class of request an answer event belongs to. */
  function AnswerClass(k: Kind): Class {
    if k.IsLoop() then Loop else if k.IsEvolution() then Evolution else Gate
  }

  predicate IsAnswer(k: Kind) {
    || k.LoopStarted? || k.LoopCompleted? || k.LoopFailed? || k.LoopSkipped?
    || k.EvoStarted? || k.EvoCompleted? || k.EvoFailed?
    || k.GateStarted? || k.GateCompleted? || k.GateFailed? || k.GateSkipped?
  }

  lemma ExecuteOwn(a: Action, out: Outcome, e: Event)
    requires e in Execute(a, out) && IsAnswer(e.kind)
    ensures a.Ident() == (AnswerClass(e.kind), e.key)
  {
    match a.class_ {
      case Loop =>
      case Evolution =>
      case Gate =>
    }
  }

  /** Among the executions of a plan, the answers to a request that is planned once are
      those of its own execution. */
  lemma {:induction false} OwnAnswers(plan: seq<Action>, outs: nat -> Outcome, p: nat, e: Event)
    requires p < |plan| && IsAnswer(e.kind) && plan[p].Ident() == (AnswerClass(e.kind), e.key)
    requires OnceFor(plan, plan[p].Ident())
    ensures e in ExecuteAll(plan, outs) <==> e in Execute(plan[p], outs(p))
  {
    var n := |plan| - 1;
    if p == n {
      if e in ExecuteAll(plan[..n], outs) { NoAnswers(plan[..n], outs, e); }
    } else {
      OwnAnswers(plan[..n], outs, p, e);
      if e in Execute(plan[n], outs(n)) { ExecuteOwn(plan[n], outs(n), e); }
    }
  }

  lemma {:induction false} NoAnswers(plan: seq<Action>, outs: nat -> Outcome, e: Event)
    requires IsAnswer(e.kind) && e in ExecuteAll(plan, outs)
    ensures exists i :: 0 <= i < |plan| && plan[i].Ident() == (AnswerClass(e.kind), e.key)
  {
    var n := |plan| - 1;
    if e in Execute(plan[n], outs(n)) {
      ExecuteOwn(plan[n], outs(n), e);
      assert plan[n].Ident() == (AnswerClass(e.kind), e.key);
    } else {
      NoAnswers(plan[..n], outs, e);
      var i :| 0 <= i < n && plan[..n][i].Ident() == (AnswerClass(e.kind), e.key);
      assert plan[i].Ident() == (AnswerClass(e.kind), e.key);
    }
  }

  lemma ServedAnswer(plan: seq<Action>, n: nat, outs: nat -> Outcome, p: nat, e: Event)
    requires n <= |plan| && p < |plan| && OnceFor(plan, plan[p].Ident())
    requires IsAnswer(e.kind) && plan[p].Ident() == (AnswerClass(e.kind), e.key)
    ensures e in ExecuteAll(plan[..n], outs) <==> p < n && e in Execute(plan[p], outs(p))
  {
    if p < n {
      OwnAnswers(plan[..n], outs, p, e);
    } else if e in ExecuteAll(plan[..n], outs) {
      NoAnswers(plan[..n], outs, e);
    }
  }

  /** How a request is answered by these events, if a tick gets to it: started if it runs,
      completed exactly if its runner succeeded, failed exactly if not, and skipped exactly
      if it does not run. */
  ghost predicate Answered(a: Action, out: Outcome, served: bool, es: Log) {
    && (StartedEvent(a) in es <==> served && WillRun(a))
    && (CompletedEvent(a) in es <==> served && WillRun(a) && out.ok)
    && (FailedEvent(a) in es <==> served && WillRun(a) && !out.ok)
    && (a.class_.Loop? ==> (Event(LoopSkipped, a.key, true) in es <==> served && !a.runnable))
    && (a.class_.Gate? ==> (Event(GateSkipped, a.key, true) in es <==> served && !a.runnable))
  }

  lemma ServedAnswers(plan: seq<Action>, n: nat, outs: nat -> Outcome, p: nat)
    requires n <= |plan| && p < |plan| && OnceFor(plan, plan[p].Ident())
    ensures Answered(plan[p], outs(p), p < n, ExecuteAll(plan[..n], outs))
  {
    var a := plan[p];
    ExecuteAnswers(a, outs(p));
    ServedAnswer(plan, n, outs, p, StartedEvent(a));
    ServedAnswer(plan, n, outs, p, CompletedEvent(a));
    ServedAnswer(plan, n, outs, p, FailedEvent(a));
    if a.class_.Loop? { ServedAnswer(plan, n, outs, p, Event(LoopSkipped, a.key, true)); }
    if a.class_.Gate? { ServedAnswer(plan, n, outs, p, Event(GateSkipped, a.key, true)); }
  }

  lemma AnsweredAfter(a: Action, out: Outcome, served: bool, acks: Log, es: Log)
    requires Answered(a, out, served, es) && forall e :: e in acks ==> IsAck(e.kind)
    ensures Answered(a, out, served, acks + es)
  {
  }

  /** A request that is planned once, at position p, is answered by a tick exactly if the tick
      gets to it, and as its own runner says. */
  lemma AnsweredExactly(log: Log, cap: int, stop: nat, outs: nat -> Outcome, p: nat)
    requires p < |Plan(log)| && OnceFor(Plan(log), Plan(log)[p].Ident())
    ensures var served := p < Served(|Plan(log)|, cap, stop);
      Answered(Plan(log)[p], outs(p), served, TickAppends(log, cap, stop, outs))
  {
    var plan := Plan(log);
    var n := Served(|plan|, cap, stop);
    ServedAnswers(plan, n, outs, p);
    AcksKeys(plan, Accepted(log));
    AnsweredAfter(plan[p], outs(p), p < n, Acks(plan, Accepted(log)), ExecuteAll(plan[..n], outs));
  }

  /** In every run loops and evolution requests are planned once, so this holds for each of
      them: a served request is completed exactly if its own runner succeeded. */
  lemma RunAnswers(moves: seq<Move>, cap: int, stop: nat, outs: nat -> Outcome, p: nat)
    requires p < |Plan(Run(moves).log)| && !Plan(Run(moves).log)[p].class_.Gate?
    ensures var log := Run(moves).log;
      Answered(Plan(log)[p], outs(p), p < Served(|Plan(log)|, cap, stop), TickAppends(log, cap, stop, outs))
  {
    var log := Run(moves).log;
    var a := Plan(log)[p];
    RunOrderly(moves);
    assert OrderlyAt(log, a.key);
    OrderlyOnce(a.class_, log, a.key);
    PlanOnceFor(a.class_, log, a.key);
    AnsweredExactly(log, cap, stop, outs, p);
  }
}
