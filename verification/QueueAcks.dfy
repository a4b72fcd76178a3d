/** Acknowledgements.  Loops and evolution requests are acknowledged under their ids in one
    shared set, so an id that both families use is acknowledged by only one of them. */
module QueueAcks {
  import opened QueueModel

  predicate IsAck(k: Kind) { k.LoopAccepted? || k.EvoAccepted? }

  predicate IsStart(k: Kind) { k.LoopStarted? || k.EvoStarted? }

  /** Who acknowledged an id.  `AckBroken` is absorbing: it is reached by a second
      acknowledgement, or by a start without one. */
  datatype AckPhase = Unacked | ByLoop | ByEvolution | AckBroken

  function AckNext(p: AckPhase, k: Kind): AckPhase {
    if IsAck(k) then
      if !p.Unacked? then AckBroken else if k.LoopAccepted? then ByLoop else ByEvolution
    else if IsStart(k) && p.Unacked? then AckBroken
    else p
  }

  function AckFold(p: AckPhase, log: Log, key: string): AckPhase {
    if log == [] then p
    else
      var e := log[|log| - 1];
      var q := AckFold(p, log[..|log| - 1], key);
      if e.key == key then AckNext(q, e.kind) else q
  }

  lemma {:induction false} AckConcat(p: AckPhase, a: Log, b: Log, key: string)
    ensures AckFold(p, a + b, key) == AckFold(AckFold(p, a, key), b, key)
  {
    if b == [] {
      assert a + b == a;
    } else {
      var n := |b| - 1;
      assert (a + b)[..|a + b| - 1] == a + b[..n];
      AckConcat(p, a, b[..n], key);
    }
  }

  lemma {:induction false} AckBrokenStays(log: Log, key: string)
    ensures AckFold(AckBroken, log, key) == AckBroken
  {
    if log != [] { AckBrokenStays(log[..|log| - 1], key); }
  }

  lemma AckOne(p: AckPhase, e: Event, key: string)
    ensures AckFold(p, [e], key) == if e.key == key then AckNext(p, e.kind) else p
  {
    assert [e][..0] == [];
  }

  /** Events that neither acknowledge nor start anything, or have another id, do not matter. */
  lemma AckSkips(log: Log, e: Event, rest: Log, key: string)
    requires e.key == key ==> !IsAck(e.kind) && !IsStart(e.kind)
    ensures AckFold(Unacked, (log + [e]) + rest, key) == AckFold(Unacked, log + rest, key)
  {
    AckConcat(Unacked, log, rest, key);
    AckConcat(Unacked, log + [e], rest, key);
    AckConcat(Unacked, log, [e], key);
    AckOne(AckFold(Unacked, log, key), e, key);
  }

  predicate LoopAcks(log: Log, key: string) { exists e :: e in log && e.kind.LoopAccepted? && e.key == key }

  predicate EvoAcks(log: Log, key: string) { exists e :: e in log && e.kind.EvoAccepted? && e.key == key }

  predicate Starts(log: Log, key: string) { exists e :: e in log && IsStart(e.kind) && e.key == key }

  /** What the phase says about the log. */
  lemma {:induction false} AckFacts(log: Log, key: string)
    requires !AckFold(Unacked, log, key).AckBroken?
    ensures AckFold(Unacked, log, key).ByLoop? <==> LoopAcks(log, key)
    ensures AckFold(Unacked, log, key).ByEvolution? <==> EvoAcks(log, key)
    ensures Starts(log, key) ==> !AckFold(Unacked, log, key).Unacked?
  {
    if log != [] {
      var n := |log| - 1;
      assert log == log[..n] + [log[n]];
      AckFacts(log[..n], key);
    }
  }

  /** The accepted set is what the phases say, as long as no evolution id is empty. */
  lemma AcceptedIs(log: Log, key: string)
    requires !AckFold(Unacked, log, key).AckBroken? && !EvoAcks(log, "")
    ensures key in Accepted(log) <==> !AckFold(Unacked, log, key).Unacked?
  {
    AckFacts(log, key);
  }

  // ---------------------------------------------------------------------
  // One tick
  // ---------------------------------------------------------------------

  predicate Wants(plan: seq<Action>, key: string) { exists a :: a in plan && a.key == key && a.Acknowledged() }

  /** The acknowledgement pass acknowledges every wanted id that is not yet accepted, once. */
  lemma {:induction false} AcksAckFold(p: AckPhase, plan: seq<Action>, accepted: set<string>, key: string)
    requires !p.AckBroken? && (key in accepted <==> !p.Unacked?)
    ensures var q := AckFold(p, Acks(plan, accepted), key);
      !q.AckBroken? && (q.Unacked? <==> p.Unacked? && !Wants(plan, key))
    decreases plan
  {
    if plan != [] {
      var a, rest := plan[0], plan[1..];
      assert plan == [a] + rest;
      if a.Acknowledged() && a.key !in accepted {
        AckOne(p, AckEvent(a), key);
        AckConcat(p, [AckEvent(a)], Acks(rest, accepted + {a.key}), key);
        AcksAckFold(AckFold(p, [AckEvent(a)], key), rest, accepted + {a.key}, key);
      } else {
        AcksAckFold(p, rest, accepted, key);
      }
    }
  }

  lemma {:induction false} AckUntouched(p: AckPhase, log: Log, key: string)
    requires forall e :: e in log && e.key == key ==> !IsAck(e.kind) && (IsStart(e.kind) ==> !p.Unacked?)
    ensures AckFold(p, log, key) == p
  {
    if log != [] { AckUntouched(p, log[..|log| - 1], key); }
  }

  lemma ExecuteStarts(a: Action, out: Outcome, e: Event)
    requires e in Execute(a, out)
    ensures e.key == a.key && !IsAck(e.kind) && (IsStart(e.kind) ==> a.class_.Evolution? || a.Acknowledged())
  {
    match a.class_ {
      case Loop =>
      case Evolution =>
      case Gate =>
    }
  }

  lemma {:induction false} ExecuteAllStarts(plan: seq<Action>, outs: nat -> Outcome, e: Event)
    requires e in ExecuteAll(plan, outs)
    ensures !IsAck(e.kind)
    ensures IsStart(e.kind) ==> exists a :: a in plan && a.key == e.key && (a.class_.Evolution? || a.Acknowledged())
  {
    var n := |plan| - 1;
    assert plan == plan[..n] + [plan[n]];
    if e in Execute(plan[n], outs(n)) {
      ExecuteStarts(plan[n], outs(n), e);
    } else {
      ExecuteAllStarts(plan[..n], outs, e);
    }
  }

  lemma ExecuteAckFold(p: AckPhase, plan: seq<Action>, outs: nat -> Outcome, key: string)
    requires forall a :: a in plan && a.class_.Evolution? ==> a.runnable
    requires p.Unacked? ==> !Wants(plan, key)
    ensures AckFold(p, ExecuteAll(plan, outs), key) == p
  {
    forall e | e in ExecuteAll(plan, outs) && e.key == key
      ensures !IsAck(e.kind) && (IsStart(e.kind) ==> !p.Unacked?)
    {
      ExecuteAllStarts(plan, outs, e);
    }
    AckUntouched(p, ExecuteAll(plan, outs), key);
  }

  lemma TickAckFold(log: Log, plan: seq<Action>, n: nat, outs: nat -> Outcome, key: string)
    requires !AckFold(Unacked, log, key).AckBroken? && !EvoAcks(log, "") && n <= |plan|
    requires forall a :: a in plan && a.class_.Evolution? ==> a.runnable
    ensures !AckFold(Unacked, log + (Acks(plan, Accepted(log)) + ExecuteAll(plan[..n], outs)), key).AckBroken?
  {
    var acks, lives := Acks(plan, Accepted(log)), ExecuteAll(plan[..n], outs);
    var p := AckFold(Unacked, log, key);
    AcceptedIs(log, key);
    AcksAckFold(p, plan, Accepted(log), key);
    assert forall a :: a in plan[..n] ==> a in plan;
    ExecuteAckFold(AckFold(p, acks, key), plan[..n], outs, key);
    AckConcat(p, acks, lives, key);
    AckConcat(Unacked, log, acks + lives, key);
  }
}
