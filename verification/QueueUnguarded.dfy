/** The same runs with producers that do not ask `loop_request_exists`: an id keeps to its
    lifecycle exactly if it is requested once. */
module QueueUnguarded {
  import opened QueueModel
  import opened QueueAcks
  import opened QueueLifecycle
  import opened QueueTheorems

  /** As in the guarded model, but a loop request may arrive at any time. */
  function ApplyFreely(s: State, m: Move): State {
    if m.Produce? && m.e.kind.LoopRequested? then s.(log := s.log + [m.e]) else Apply(s, m)
  }

  function RunFreely(moves: seq<Move>): State {
    if moves == [] then State([], [])
    else ApplyFreely(RunFreely(moves[..|moves| - 1]), moves[|moves| - 1])
  }

  lemma {:induction false} FreelyGrounded(moves: seq<Move>)
    ensures Grounded(RunFreely(moves)) && NoEmptyIds(RunFreely(moves).log)
  {
    if moves != [] {
      var s, m := RunFreely(moves[..|moves| - 1]), moves[|moves| - 1];
      FreelyGrounded(moves[..|moves| - 1]);
      match m
      case Produce(e) =>
        GroundedSnoc(s, e);
        MentionsSnoc(s.log, e, Evolution, "");
      case Tick(cap, stop, outs) =>
        if s.todo == [] { TickGrounded(s.log, cap, stop, outs); }
      case Append =>
        if s.todo != [] {
          GroundedSnoc(s, s.todo[0]);
          MentionsSnoc(s.log, s.todo[0], Evolution, "");
        }
      case Crash =>
    }
  }

  /** A first request finds no loop event under its id. */
  lemma FirstRequest(log: Log, e: Event)
    requires e.kind.LoopRequested? && RequestedOnce(Loop, log + [e], e.key) && OrderlyAt(log, e.key)
    ensures !Mentions(log, Loop, e.key)
  {
    LoopPhaseFacts(log, e.key);
    LoopPhaseHistory(log, e.key);
    assert (log + [e])[|log|] == e;
    forall f | f in log && f.kind.LoopRequested?
      ensures f.key != e.key
    {
      var i :| 0 <= i < |log| && log[i] == f;
      assert (log + [e])[i] == f;
    }
  }

  lemma ProduceFreely(s: State, e: Event, key: string)
    requires Grounded(s) && OrderlyAt(s.log + s.todo, key)
    requires e.kind.LoopRequested? && RequestedOnce(Loop, s.log + [e], key)
    ensures OrderlyAt((s.log + [e]) + s.todo, key)
  {
    OrderlyPrefixAt(s.log, s.todo, key);
    if e.key == key {
      FirstRequest(s.log, e);
      ProduceKeepsKey(s, e, key);
    } else {
      OtherKey(s, e, key);
    }
  }

  lemma OtherKey(s: State, e: Event, key: string)
    requires OrderlyAt(s.log + s.todo, key) && e.key != key
    ensures OrderlyAt((s.log + [e]) + s.todo, key)
  {
    FoldConcat(Fresh, EFresh, s.log, s.todo, key);
    FoldConcat(Fresh, EFresh, s.log + [e], s.todo, key);
    FoldSnoc(Fresh, EFresh, s.log, e, key);
    AckSkips(s.log, e, s.todo, key);
  }

  lemma {:induction false} FreelyOrderly(moves: seq<Move>, key: string)
    requires RequestedOnce(Loop, RunFreely(moves).log, key)
    ensures OrderlyAt(RunFreely(moves).log + RunFreely(moves).todo, key)
  {
    if moves == [] {
      assert RunFreely(moves).log + RunFreely(moves).todo == [];
    } else {
      var s, m := RunFreely(moves[..|moves| - 1]), moves[|moves| - 1];
      FreelyGrounded(moves[..|moves| - 1]);
      assert s.log <= RunFreely(moves).log;
      OncePrefix(Loop, s.log, RunFreely(moves).log[|s.log|..], key);
      FreelyOrderly(moves[..|moves| - 1], key);
      FreelyKeeps(s, m, key);
    }
  }

  lemma FreelyKeeps(s: State, m: Move, key: string)
    requires Grounded(s) && NoEmptyIds(s.log) && OrderlyAt(s.log + s.todo, key)
    requires RequestedOnce(Loop, ApplyFreely(s, m).log, key)
    ensures var r := ApplyFreely(s, m); OrderlyAt(r.log + r.todo, key)
  {
    match m
    case Produce(e) =>
      if e.kind.LoopRequested? {
        ProduceFreely(s, e, key);
      } else if MayProduce(s.log, e) {
        ProduceKeepsKey(s, e, key);
      }
    case Tick(cap, stop, outs) =>
      if s.todo == [] {
        assert s.log + s.todo == s.log;
        TickKeepsKey(s.log, cap, stop, outs, key);
      }
    case Append =>
      if s.todo != [] { assert (s.log + [s.todo[0]]) + s.todo[1..] == s.log + s.todo; }
    case Crash =>
      OrderlyPrefixAt(s.log, s.todo, key);
      assert s.log + [] == s.log;
  }

  /** The loop events of an id are in strict lifecycle order. */
  ghost predicate InOrder(log: Log, key: string) {
    forall i, j :: 0 <= i < j < |log| && log[i].kind.IsLoop() && log[j].kind.IsLoop() ==>
      (log[i].key == key && log[j].key == key ==> LoopRank(log[i].kind) < LoopRank(log[j].kind))
  }

  lemma OrderlyInOrder(log: Log, key: string)
    requires OrderlyAt(log, key)
    ensures InOrder(log, key)
  {
    forall i, j | 0 <= i < j < |log| && log[i].kind.IsLoop() && log[j].kind.IsLoop() && log[i].key == log[j].key == key
      ensures LoopRank(log[i].kind) < LoopRank(log[j].kind)
    {
      PrefixOrderly(log, j, key);
      assert log[i] in log[..j];
      LoopOrder(log[..j], log[j], log[i]);
    }
  }

  /** Without the guard, in every log of every run, the loop events of an id are in strict
      lifecycle order, each at most once, if and only if the id is requested at most once. */
  lemma UnguardedLifecycle(moves: seq<Move>, key: string)
    ensures InOrder(RunFreely(moves).log, key) <==> RequestedOnce(Loop, RunFreely(moves).log, key)
  {
    if RequestedOnce(Loop, RunFreely(moves).log, key) {
      FreelyOrderly(moves, key);
      OrderlyPrefixAt(RunFreely(moves).log, RunFreely(moves).todo, key);
      OrderlyInOrder(RunFreely(moves).log, key);
    }
  }
}
