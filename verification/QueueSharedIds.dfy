/** What happens to an id that a loop request and an evolution request share.  Nothing
    forbids it: the producer guard looks at loop events alone. */
module QueueSharedIds {
  import opened QueueModel
  import opened QueueAcks
  import opened QueueLifecycle
  import opened QueueTheorems
  import opened QueueDrain
  import QueueAnswers

  lemma {:induction false} ExecutionsAppear(plan: seq<Action>, outs: nat -> Outcome, i: nat)
    requires i < |plan|
    ensures forall e :: e in Execute(plan[i], outs(i)) ==> e in ExecuteAll(plan, outs)
  {
    if i < |plan| - 1 { ExecutionsAppear(plan[..|plan| - 1], outs, i); }
  }

  /** Acknowledgements of both families share one set, so a loop whose id is already
      acknowledged as an evolution request starts without any ACCEPTED of its own. */
  lemma SharedIdSkipsAcknowledgement(log: Log, cap: int, stop: nat, outs: nat -> Outcome, i: nat)
    requires i < Served(|Plan(log)|, cap, stop)
    requires Plan(log)[i].class_.Loop? && Plan(log)[i].runnable
    requires EvoAcks(log, Plan(log)[i].key) && !LoopAcks(log, Plan(log)[i].key) && Plan(log)[i].key != ""
    ensures Event(LoopStarted, Plan(log)[i].key, true) in TickAppends(log, cap, stop, outs)
    ensures !LoopAcks(log + TickAppends(log, cap, stop, outs), Plan(log)[i].key)
  {
    var plan := Plan(log);
    var key := plan[i].key;
    var served := plan[..Served(|plan|, cap, stop)];
    assert key in Accepted(log);
    QueueAnswers.AcksAreNew(plan, Accepted(log));
    ExecutionsAppear(served, outs, i);
    forall e | e in ExecuteAll(served, outs)
      ensures !IsAck(e.kind)
    {
      ExecuteAllStarts(served, outs, e);
    }
    assert Execute(served[i], outs(i))[0] == Event(LoopStarted, key, true);
    assert Execute(served[i], outs(i))[0] in Execute(served[i], outs(i));
  }

  /** A tick that only acknowledges leaves an evolution request acknowledged, and mentions
      no loop. */
  lemma AcknowledgeOnly(key: string, outs: nat -> Outcome)
    requires key != ""
    ensures var r := Event(EvoRequested(false), key, true);
      var log := [r] + TickAppends([r], 0, 0, outs);
      EvoAcks(log, key) && !Mentions(log, Loop, key)
  {
    var r := Event(EvoRequested(false), key, true);
    var a := ActionOf(Evolution, r);
    var all := TickAppends([r], 0, 0, outs);
    assert r in [r] && Resolved(Evolution, [r]) == {};
    PlanHas([r], Evolution, r);
    QueueAnswers.AcksCover(Plan([r]), Accepted([r]), a);
    AcksKeys(Plan([r]), Accepted([r]));
    var e :| e in Acks(Plan([r]), Accepted([r])) && e.key == key;
    var b :| b in Plan([r]) && b.key == e.key && e == AckEvent(b) && b.Acknowledged();
    InPlan([r], b);
    assert e in [r] + all && e.kind.EvoAccepted?;
    TickGrounded([r], 0, 0, outs);
    assert !Mentions([r], Loop, key);
  }

  /** From a state whose log has the evolution acknowledgement, producing and running a loop
      under the same id reaches a log with STARTED and no ACCEPTED of that loop. */
  lemma LoopUnderAcknowledgedId(moves: seq<Move>, log: Log, key: string, outs: nat -> Outcome) returns (more: seq<Move>)
    requires Run(moves) == State(log, []) && key != "" && EvoAcks(log, key) && !Mentions(log, Loop, key)
    ensures Event(LoopStarted, key, true) in Run(moves + more).log && !LoopAcks(Run(moves + more).log, key)
  {
    var r := Event(LoopRequested, key, true);
    var asked := log + [r];
    RunSnoc(moves, Produce(r));
    LoopPlanned(log, key);
    var i :| 0 <= i < |Plan(asked)| && Plan(asked)[i] == ActionOf(Loop, r);
    SharedIdSkipsAcknowledgement(asked, 0, |Plan(asked)|, outs, i);
    assert FullTick(asked, asked + TickAppends(asked, 0, |Plan(asked)|, outs), 0, outs);
    more := Continue(moves, [Produce(r)], asked, asked + TickAppends(asked, 0, |Plan(asked)|, outs), 0, outs);
  }

  lemma LoopPlanned(log: Log, key: string)
    requires EvoAcks(log, key) && !Mentions(log, Loop, key)
    ensures var r := Event(LoopRequested, key, true);
      ActionOf(Loop, r) in Plan(log + [r]) && EvoAcks(log + [r], key) && !LoopAcks(log + [r], key)
  {
    var r := Event(LoopRequested, key, true);
    var e :| e in log && e.kind.EvoAccepted? && e.key == key;
    assert e in log + [r] && r in log + [r];
    assert forall f :: f in log && f.kind.IsLoop() ==> f.key != key;
    PlanHas(log + [r], Loop, r);
  }

  lemma ProducedOnce(r: Event)
    requires r.kind.EvoRequested? && r.key != ""
    ensures Run([Produce(r)]) == State([r], [])
  {
    RunSnoc([], Produce(r));
    assert [] + [Produce(r)] == [Produce(r)];
  }

  /** A run that reaches such a log, for every id: an evolution request is acknowledged, a
      loop is requested under its id, and the loop starts without an ACCEPTED of its own. */
  lemma SharedIdReachable(key: string, outs: nat -> Outcome) returns (moves: seq<Move>)
    requires key != ""
    ensures Event(LoopStarted, key, true) in Run(moves).log && !LoopAcks(Run(moves).log, key)
  {
    var r := Event(EvoRequested(false), key, true);
    ProducedOnce(r);
    var acked := TickReachable([Produce(r)], [r], 0, 0, outs);
    AcknowledgeOnly(key, outs);
    var more := LoopUnderAcknowledgedId([Produce(r)] + acked, [r] + TickAppends([r], 0, 0, outs), key, outs);
    moves := [Produce(r)] + acked + more;
  }
}
