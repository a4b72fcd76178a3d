/** What the lifecycle invariant means for a reader of the log, and the runs that
    show why the producer guard is needed. */
module QueueTheorems {
  import opened QueueModel
  import opened QueueAcks
  import opened QueueLifecycle

  lemma RunOrderly(moves: seq<Move>)
    ensures Orderly(Run(moves).log)
  {
    RunInv(moves);
    OrderlyPrefix(Run(moves).log, Run(moves).todo);
  }

  lemma PrefixOrderly(log: Log, j: nat, key: string)
    requires OrderlyAt(log, key) && j < |log|
    ensures OrderlyAt(log[..j], key) && OrderlyAt(log[..j] + [log[j]], key)
  {
    assert log == log[..j] + log[j..] && log == (log[..j] + [log[j]]) + log[j + 1..];
    OrderlyPrefixAt(log[..j], log[j..], key);
    OrderlyPrefixAt(log[..j] + [log[j]], log[j + 1..], key);
  }

  lemma RunPrefixOrderly(moves: seq<Move>, j: nat, key: string)
    requires j < |Run(moves).log|
    ensures var log := Run(moves).log; OrderlyAt(log[..j], key) && OrderlyAt(log[..j] + [log[j]], key)
  {
    RunOrderly(moves);
    assert OrderlyAt(Run(moves).log, key);
    PrefixOrderly(Run(moves).log, j, key);
  }

  lemma LoopOrder(log: Log, e: Event, f: Event)
    requires f in log && f.key == e.key && f.kind.IsLoop() && e.kind.IsLoop()
    requires OrderlyAt(log, e.key) && OrderlyAt(log + [e], e.key)
    ensures LoopRank(f.kind) < LoopRank(e.kind)
  {
    LoopPhaseHistory(log, e.key);
    FoldSnoc(Fresh, EFresh, log, e, e.key);
  }

  /** In every log of every run, two events of one loop request are in strict lifecycle
      order: REQUESTED, then ACCEPTED, then STARTED, then one terminal event.  So each
      of them occurs at most once, whatever crashes happened in between. */
  lemma LoopLifecycle(moves: seq<Move>, i: nat, j: nat)
    requires i < j < |Run(moves).log|
    requires Run(moves).log[i].kind.IsLoop() && Run(moves).log[j].kind.IsLoop()
    requires Run(moves).log[i].key == Run(moves).log[j].key
    ensures LoopRank(Run(moves).log[i].kind) < LoopRank(Run(moves).log[j].kind)
  {
    var log := Run(moves).log;
    RunPrefixOrderly(moves, j, log[j].key);
    assert log[i] in log[..j];
    LoopOrder(log[..j], log[j], log[i]);
  }

  /** The kind that must have come before a loop event, if any. */
  function LoopCause(k: Kind): Kind {
    match k
    case LoopCompleted => LoopStarted
    case LoopFailed => LoopStarted
    case _ => LoopRequested
  }

  /** No loop event without its cause: a completed or failed loop has an earlier STARTED,
      everything an earlier REQUESTED of matching policy. */
  lemma LoopCausality(moves: seq<Move>, j: nat)
    requires j < |Run(moves).log|
    requires Run(moves).log[j].kind.IsLoop() && !Run(moves).log[j].kind.LoopRequested?
    ensures exists i :: 0 <= i < j && Run(moves).log[i].kind == LoopCause(Run(moves).log[j].kind)
                        && Run(moves).log[i].key == Run(moves).log[j].key
    ensures exists i :: 0 <= i < j && Run(moves).log[i] ==
                        Event(LoopRequested, Run(moves).log[j].key, !Run(moves).log[j].kind.LoopSkipped?)
  {
    var log := Run(moves).log;
    RunPrefixOrderly(moves, j, log[j].key);
    LoopCaused(log[..j], log[j]);
    assert forall f :: f in log[..j] ==> exists i :: 0 <= i < j && log[i] == f;
  }

  lemma LoopCaused(log: Log, e: Event)
    requires e.kind.IsLoop() && !e.kind.LoopRequested?
    requires OrderlyAt(log, e.key) && OrderlyAt(log + [e], e.key)
    ensures Event(LoopRequested, e.key, !e.kind.LoopSkipped?) in log
    ensures exists f :: f in log && f.kind == LoopCause(e.kind) && f.key == e.key
  {
    LoopPhaseHistory(log, e.key);
    FoldSnoc(Fresh, EFresh, log, e, e.key);
    assert Event(LoopRequested, e.key, !e.kind.LoopSkipped?) in log;
  }

  /** Every id is acknowledged at most once, over both families together. */
  lemma AcknowledgedOnce(moves: seq<Move>, i: nat, j: nat)
    requires i < j < |Run(moves).log| && Run(moves).log[i].key == Run(moves).log[j].key
    ensures !(IsAck(Run(moves).log[i].kind) && IsAck(Run(moves).log[j].kind))
  {
    var log := Run(moves).log;
    RunPrefixOrderly(moves, j, log[j].key);
    assert log[i] in log[..j];
    AckStep(log[..j], log[j]);
  }

  lemma AckStep(log: Log, e: Event)
    requires OrderlyAt(log, e.key) && OrderlyAt(log + [e], e.key)
    ensures IsAck(e.kind) ==> !LoopAcks(log, e.key) && !EvoAcks(log, e.key)
    ensures IsStart(e.kind) ==> (LoopAcks(log, e.key) <==> !EvoAcks(log, e.key))
  {
    AckFacts(log, e.key);
    AckConcat(Unacked, log, [e], e.key);
    AckOne(AckFold(Unacked, log, e.key), e, e.key);
  }

  /** Whatever starts, a loop or an evolution request, was acknowledged before under its id
      by exactly one of the two families.  So STARTED has an earlier ACCEPTED of its own
      family if and only if the other family did not acknowledge the id first. */
  lemma StartedAfterAcknowledgement(moves: seq<Move>, j: nat)
    requires j < |Run(moves).log| && IsStart(Run(moves).log[j].kind)
    ensures var log := Run(moves).log;
      LoopAcks(log[..j], log[j].key) <==> !EvoAcks(log[..j], log[j].key)
  {
    RunPrefixOrderly(moves, j, Run(moves).log[j].key);
    AckStep(Run(moves).log[..j], Run(moves).log[j]);
  }

  /** The same for evolution requests, where STARTED alone may repeat: a crashed trial
      is started again, but acknowledged once and answered at most once. */
  lemma EvolutionLifecycle(moves: seq<Move>, i: nat, j: nat)
    requires i < j < |Run(moves).log|
    requires Run(moves).log[i].kind.IsEvolution() && Run(moves).log[j].kind.IsEvolution()
    requires Run(moves).log[i].key == Run(moves).log[j].key
    ensures EvoRank(Run(moves).log[i].kind) < EvoRank(Run(moves).log[j].kind)
            || (Run(moves).log[i].kind.EvoStarted? && Run(moves).log[j].kind.EvoStarted?)
  {
    var log := Run(moves).log;
    RunPrefixOrderly(moves, j, log[j].key);
    assert log[i] in log[..j];
    EvolutionOrder(log[..j], log[j], log[i]);
  }

  lemma EvolutionOrder(log: Log, e: Event, f: Event)
    requires f in log && f.key == e.key && f.kind.IsEvolution() && e.kind.IsEvolution()
    requires OrderlyAt(log, e.key) && OrderlyAt(log + [e], e.key)
    ensures EvoRank(f.kind) < EvoRank(e.kind) || (f.kind.EvoStarted? && e.kind.EvoStarted?)
  {
    EvoPhaseFacts(log, e.key);
    EvoPhaseHistory(log, e.key);
    FoldSnoc(Fresh, EFresh, log, e, e.key);
  }

  lemma {:induction false} RunExtends(moves: seq<Move>, more: seq<Move>)
    ensures Run(moves).log <= Run(moves + more).log
  {
    if more == [] {
      assert moves + more == moves;
    } else {
      var n := |more| - 1;
      assert (moves + more)[..|moves + more| - 1] == moves + more[..n];
      RunExtends(moves, more[..n]);
    }
  }

  /** A loop that was started, for instance one whose tick crashed right after STARTED,
      is never planned again; neither is a review gate that was only acknowledged. */
  lemma StartedNeverPlannedAgain(moves: seq<Move>, more: seq<Move>, e: Event)
    requires e in Run(moves).log && (e.kind.LoopStarted? || e.kind.GateAccepted?)
    ensures !Planned(Plan(Run(moves + more).log), if e.kind.LoopStarted? then Loop else Gate, e.key)
  {
    RunExtends(moves, more);
    var log := Run(moves + more).log;
    assert e in log;
    forall a | a in Plan(log)
      ensures a.key !in Resolved(a.class_, log)
    {
      InPlan(log, a);
    }
  }

  /** An evolution request stays planned exactly until a terminal event answers it. */
  lemma EvolutionStaysPending(log: Log, e: Event)
    requires e in log && e.kind.EvoRequested?
    ensures Planned(Plan(log), Evolution, e.key) <==>
      !exists f :: f in log && f.key == e.key && (f.kind.EvoCompleted? || f.kind.EvoFailed?)
  {
    if e.key !in Resolved(Evolution, log) {
      PlanHas(log, Evolution, e);
      assert ActionOf(Evolution, e).Ident() == (Evolution, e.key);
    } else {
      forall a | a in Plan(log)
        ensures a.key !in Resolved(a.class_, log)
      {
        InPlan(log, a);
      }
    }
  }

  function Appends(n: nat): seq<Move> { seq(n, _ => Append) }

  lemma RunSnoc(moves: seq<Move>, m: Move)
    ensures Run(moves + [m]) == Apply(Run(moves), m)
  {
    assert (moves + [m])[..|moves|] == moves;
  }

  lemma {:induction false} AppendsDrain(moves: seq<Move>, log: Log, todo: Log, i: nat)
    requires Run(moves) == State(log, todo) && i <= |todo|
    ensures Run(moves + Appends(i)) == State(log + todo[..i], todo[i..])
  {
    if i == 0 {
      assert moves + Appends(0) == moves && log + todo[..0] == log;
    } else {
      AppendsDrain(moves, log, todo, i - 1);
      assert moves + Appends(i) == (moves + Appends(i - 1)) + [Append];
      RunSnoc(moves + Appends(i - 1), Append);
      assert (log + todo[..i - 1]) + [todo[i - 1]] == log + todo[..i];
    }
  }

  /** Ticks and crashes of the run model are those of the resident: from an idle state, a
      tick followed by i appends leaves the log with the first i events that one call of
      `run_resident_once` writes, for every i. */
  lemma TickPrefixReachable(moves: seq<Move>, cap: int, stop: nat, outs: nat -> Outcome, i: nat)
    requires Run(moves).todo == [] && i <= |TickAppends(Run(moves).log, cap, stop, outs)|
    ensures var all := TickAppends(Run(moves).log, cap, stop, outs);
      Run(moves + [Tick(cap, stop, outs)] + Appends(i)) == State(Run(moves).log + all[..i], all[i..])
  {
    RunSnoc(moves, Tick(cap, stop, outs));
    AppendsDrain(moves + [Tick(cap, stop, outs)], Run(moves).log, TickAppends(Run(moves).log, cap, stop, outs), i);
  }

  /** i of the events are appended, and either the rest is still to come or it is lost. */
  predicate Prefixed(s: State, log: Log, all: Log, i: nat) {
    i <= |all| && s.log == log + all[..i] && (s.todo == all[i..] || s.todo == [])
  }

  lemma PrefixedNext(s: State, log: Log, all: Log, i: nat, m: Move) returns (k: nat)
    requires Prefixed(s, log, all, i) && (m.Append? || m.Crash?)
    ensures Prefixed(Apply(s, m), log, all, k)
  {
    k := i;
    if m.Append? && s.todo != [] {
      assert (log + all[..i]) + [all[i]] == log + all[..i + 1];
      k := i + 1;
    }
  }

  lemma {:induction false} OnlyPrefixes(moves: seq<Move>, log: Log, all: Log, more: seq<Move>) returns (i: nat)
    requires Run(moves) == State(log, all) && forall m :: m in more ==> m.Append? || m.Crash?
    ensures Prefixed(Run(moves + more), log, all, i)
  {
    if more == [] {
      assert moves + more == moves;
      i := 0;
    } else {
      var n := |more| - 1;
      var k := OnlyPrefixes(moves, log, all, more[..n]);
      assert moves + more == (moves + more[..n]) + [more[n]];
      RunSnoc(moves + more[..n], more[n]);
      i := PrefixedNext(Run(moves + more[..n]), log, all, k, more[n]);
    }
  }

  /** And nothing else is reached: after a tick, appends and crashes alone leave the log with
      a prefix of what that call writes. */
  lemma TickReachesOnlyPrefixes(moves: seq<Move>, cap: int, stop: nat, outs: nat -> Outcome, more: seq<Move>)
    returns (i: nat)
    requires Run(moves).todo == [] && forall m :: m in more ==> m.Append? || m.Crash?
    ensures var all := TickAppends(Run(moves).log, cap, stop, outs);
      i <= |all| && Run(moves + [Tick(cap, stop, outs)] + more).log == Run(moves).log + all[..i]
  {
    RunSnoc(moves, Tick(cap, stop, outs));
    var all := TickAppends(Run(moves).log, cap, stop, outs);
    i := OnlyPrefixes(moves + [Tick(cap, stop, outs)], Run(moves).log, all, more);
  }

  lemma OneRequest(r: Event, c: Class, gone: set<string>)
    requires r.key !in gone
    ensures Requests(c, [r], gone) == if r.kind.IsRequest(c) then [r] else []
  {
    assert [r][..0] == [];
  }

  lemma TwoRequests(r: Event, c: Class)
    requires r.kind.IsAnyRequest()
    ensures Pending(c, [r, r]) == if r.kind.IsRequest(c) then [r, r] else []
  {
    assert Resolved(c, [r, r]) == {};
    assert [r, r][..1] == [r];
    OneRequest(r, c, {});
  }

  lemma TwoRequestsActions(r: Event, c: Class, d: Class)
    requires r.kind.IsRequest(c)
    ensures Actions(d, Pending(d, [r, r])) == if d == c then [ActionOf(c, r), ActionOf(c, r)] else []
  {
    TwoRequests(r, d);
  }

  lemma TwoRequestsPlan(r: Event, c: Class)
    requires r.kind.IsRequest(c)
    ensures Plan([r, r]) == [ActionOf(c, r), ActionOf(c, r)]
  {
    TwoRequestsActions(r, c, Evolution);
    TwoRequestsActions(r, c, Loop);
    TwoRequestsActions(r, c, Gate);
  }

  lemma ExecuteTwo(a: Action, outs: nat -> Outcome)
    ensures ExecuteAll([a, a], outs) == Execute(a, outs(0)) + Execute(a, outs(1))
  {
    assert [a, a][..1] == [a] && [a][..0] == [];
    assert ExecuteAll([a], outs) == [] + Execute(a, outs(0));
  }

  /** Two requests under one id are both executed by one tick. */
  lemma TwoRequestsTick(r: Event, c: Class, outs: nat -> Outcome)
    requires r.kind.IsRequest(c)
    ensures var a := ActionOf(c, r);
      TickAppends([r, r], 0, 2, outs) == Acks([a, a], Accepted([r, r])) + (Execute(a, outs(0)) + Execute(a, outs(1)))
  {
    var a := ActionOf(c, r);
    TwoRequestsPlan(r, c);
    ExecuteTwo(a, outs);
    assert [a, a][..2] == [a, a];
  }

  /** Why the producer guard matters: two requests under one id are both planned, and
      one tick starts the same loop twice. */
  lemma UnguardedRequestsStartTwice(key: string, outs: nat -> Outcome)
    ensures var r := Event(LoopRequested, key, true);
      var appended := TickAppends([r, r], 0, 2, outs);
      exists i, j :: 0 <= i < j < |appended| && appended[i] == appended[j] == Event(LoopStarted, key, true)
  {
    var r := Event(LoopRequested, key, true);
    var a := ActionOf(Loop, r);
    TwoRequestsTick(r, Loop, outs);
    var appended := TickAppends([r, r], 0, 2, outs);
    var n, first := |Acks([a, a], Accepted([r, r]))|, Execute(a, outs(0));
    assert appended[n] == first[0] && appended[n + |first|] == Execute(a, outs(1))[0];
  }
}
