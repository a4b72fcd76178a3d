/** Review gates in the same runs.  Nobody guards their requests, so ids may repeat.  What
    always holds is causality: no gate event without the event that must come before it. */
module QueueGates {
  import opened QueueModel
  import opened QueueLifecycle

  /** The cause of a gate event is among the events before it. */
  ghost predicate Caused(before: Log, e: Event) {
    match e.kind
    case GateAccepted => Event(GateRequested, e.key, true) in before
    case GateSkipped => Event(GateRequested, e.key, false) in before
    case GateStarted => exists f :: f in before && f.kind.GateAccepted? && f.key == e.key
    case GateCompleted => exists f :: f in before && f.kind.GateStarted? && f.key == e.key
    case GateFailed => exists f :: f in before && f.kind.GateStarted? && f.key == e.key
    case _ => true
  }

  /** Every event of s has its cause in `base` or earlier in s. */
  ghost predicate Causal(base: Log, s: Log) {
    forall j :: 0 <= j < |s| ==> Caused(base + s[..j], s[j])
  }

  lemma CausedMonotone(before: Log, more: Log, e: Event)
    requires Caused(before, e) && forall f :: f in before ==> f in more
    ensures Caused(more, e)
  {
  }

  lemma CausalConcat(base: Log, a: Log, b: Log)
    ensures Causal(base, a + b) <==> Causal(base, a) && Causal(base + a, b)
  {
    forall j | 0 <= j < |a|
      ensures (a + b)[..j] == a[..j] && (a + b)[j] == a[j]
    {
    }
    forall j | 0 <= j < |b|
      ensures base + (a + b)[..|a| + j] == (base + a) + b[..j] && (a + b)[|a| + j] == b[j]
    {
    }
    if Causal(base, a + b) {
      forall j | 0 <= j < |b|
        ensures Caused((base + a) + b[..j], b[j])
      {
        assert Caused(base + (a + b)[..|a| + j], (a + b)[|a| + j]);
      }
      forall j | 0 <= j < |a|
        ensures Caused(base + a[..j], a[j])
      {
        assert Caused(base + (a + b)[..j], (a + b)[j]);
      }
    }
    if Causal(base, a) && Causal(base + a, b) {
      forall j | 0 <= j < |a + b|
        ensures Caused(base + (a + b)[..j], (a + b)[j])
      {
        if j >= |a| { assert Caused((base + a) + b[..j - |a|], b[j - |a|]); }
      }
    }
  }

  lemma CausalMonotone(base: Log, more: Log, s: Log)
    requires Causal(base, s) && forall f :: f in base ==> f in more
    ensures Causal(more, s)
  {
    forall j | 0 <= j < |s|
      ensures Caused(more + s[..j], s[j])
    {
      CausedMonotone(base + s[..j], more + s[..j], s[j]);
    }
  }

  predicate GateKind(k: Kind) {
    k.GateAccepted? || k.GateStarted? || k.GateCompleted? || k.GateFailed? || k.GateSkipped?
  }

  lemma CausalWithoutGates(base: Log, s: Log)
    requires forall e :: e in s ==> !GateKind(e.kind)
    ensures Causal(base, s)
  {
    forall j | 0 <= j < |s|
      ensures Caused(base + s[..j], s[j])
    {
      assert s[j] in s;
    }
  }

  lemma ExecuteCausal(base: Log, a: Action, out: Outcome)
    requires a.class_.Gate? ==> Event(GateRequested, a.key, a.runnable) in base
    ensures Causal(base, Execute(a, out))
  {
    var es := Execute(a, out);
    match a.class_ {
      case Loop => CausalWithoutGates(base, es);
      case Evolution => CausalWithoutGates(base, es);
      case Gate =>
        assert es[0] in base + es[..1];
        if a.runnable { assert es[0] in base + es[..2] && es[1] in base + es[..2]; }
    }
  }

  lemma {:induction false} ExecuteAllCausal(base: Log, plan: seq<Action>, outs: nat -> Outcome)
    requires forall a :: a in plan && a.class_.Gate? ==> Event(GateRequested, a.key, a.runnable) in base
    ensures Causal(base, ExecuteAll(plan, outs))
  {
    if plan != [] {
      var n := |plan| - 1;
      ExecuteAllCausal(base, plan[..n], outs);
      ExecuteCausal(base + ExecuteAll(plan[..n], outs), plan[n], outs(n));
      CausalConcat(base, ExecuteAll(plan[..n], outs), Execute(plan[n], outs(n)));
    }
  }

  lemma TickCausal(log: Log, cap: int, stop: nat, outs: nat -> Outcome)
    ensures Causal(log, TickAppends(log, cap, stop, outs))
  {
    var plan := Plan(log);
    var acks := Acks(plan, Accepted(log));
    var served := plan[..Served(|plan|, cap, stop)];
    AcksKeys(plan, Accepted(log));
    CausalWithoutGates(log, acks);
    forall a | a in served && a.class_.Gate?
      ensures Event(GateRequested, a.key, a.runnable) in log + acks
    {
      assert a in plan;
      InPlan(log, a);
    }
    ExecuteAllCausal(log + acks, served, outs);
    CausalConcat(log, acks, ExecuteAll(served, outs));
  }

  lemma {:induction false} RunCausal(moves: seq<Move>)
    ensures Causal([], Run(moves).log) && Causal(Run(moves).log, Run(moves).todo)
  {
    if moves != [] {
      var s, m := Run(moves[..|moves| - 1]), moves[|moves| - 1];
      RunCausal(moves[..|moves| - 1]);
      match m
      case Produce(e) =>
        if MayProduce(s.log, e) {
          CausalWithoutGates([] + s.log, [e]);
          CausalConcat([], s.log, [e]);
          CausalMonotone(s.log, s.log + [e], s.todo);
        }
      case Tick(cap, stop, outs) => TickCausal(s.log, cap, stop, outs);
      case Append =>
        if s.todo != [] {
          assert s.todo == [s.todo[0]] + s.todo[1..] && [] + s.log == s.log;
          CausalConcat(s.log, [s.todo[0]], s.todo[1..]);
          CausalConcat([], s.log, [s.todo[0]]);
        }
      case Crash =>
    }
  }

  /** In every log of every run, each review gate event comes after its cause: STARTED
      after an ACCEPTED, a completed or failed gate after a STARTED, and an acknowledged or
      skipped gate after a request within, respectively over, its attempt cap. */
  lemma GateCausality(moves: seq<Move>, j: nat)
    requires j < |Run(moves).log|
    ensures Caused(Run(moves).log[..j], Run(moves).log[j])
  {
    RunCausal(moves);
    assert [] + Run(moves).log[..j] == Run(moves).log[..j];
  }
}
