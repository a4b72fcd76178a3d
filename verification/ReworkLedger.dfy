/** The rework ledger of the inner runner: which tasks are done, which were reworked, and
    how the two add up. */
module ReworkLedger {
  import opened Options

  datatype Kind = TerminalDone | Fatal | Rework | OtherKind

  /** `task` is empty for an anonymous event; `detail` is the rest of it. */
  datatype Event = Event(kind: Kind, task: string, detail: string)

  type Log = seq<Event>

  datatype Ledger = Ledger(done: nat, rework: nat, passedAfterRework: nat, pendingRework: nat, fatal: Option<Event>)

  // ---------------------------------------------------------------------
  // Declarative reading of a log
  // ---------------------------------------------------------------------

  function NamedTasks(log: Log, kind: Kind): set<string> {
    set e | e in log && e.kind == kind && e.task != "" :: e.task
  }

  function Anonymous(log: Log, kind: Kind): nat {
    if log == [] then 0
    else Anonymous(log[..|log| - 1], kind) + if log[|log| - 1].kind == kind && log[|log| - 1].task == "" then 1 else 0
  }

  function FirstFatalOf(log: Log): Option<Event> {
    if log == [] then None
    else
      var before := FirstFatalOf(log[..|log| - 1]);
      if before.None? && log[|log| - 1].kind.Fatal? then Some(log[|log| - 1]) else before
  }

  /** The counts as the code combines them from named and anonymous parts. */
  function Combine(done: set<string>, anonymousDone: nat, rework: set<string>, anonymousRework: nat,
                   fatal: Option<Event>): Ledger {
    Ledger(|done| + anonymousDone,
           |rework| + anonymousRework,
           |done * rework| + (if anonymousDone > 0 && anonymousRework > 0
                              then (if anonymousDone < anonymousRework then anonymousDone else anonymousRework) else 0),
           |rework - done| + (if anonymousRework > anonymousDone then anonymousRework - anonymousDone else 0),
           fatal)
  }

  function LedgerOf(log: Log): Ledger {
    Combine(NamedTasks(log, TerminalDone), Anonymous(log, TerminalDone),
            NamedTasks(log, Rework), Anonymous(log, Rework), FirstFatalOf(log))
  }

  lemma OneMore(log: Log, i: nat, kind: Kind)
    requires i < |log|
    ensures NamedTasks(log[..i + 1], kind) ==
      NamedTasks(log[..i], kind) + if log[i].kind == kind && log[i].task != "" then {log[i].task} else {}
    ensures Anonymous(log[..i + 1], kind)
      == Anonymous(log[..i], kind) + if log[i].kind == kind && log[i].task == "" then 1 else 0
    ensures FirstFatalOf(log[..i + 1]) ==
      if FirstFatalOf(log[..i]).None? && log[i].kind.Fatal? then Some(log[i]) else FirstFatalOf(log[..i])
  {
    assert log[..i + 1] == log[..i] + [log[i]] && log[..i + 1][..i] == log[..i];
  }

  /** `_scan_terminal_done_fatal_rework`. */
  method Scan(log: Log) returns (ledger: Ledger)
    ensures ledger == LedgerOf(log)
  {
    var done: set<string>, anonymousDone: nat := {}, 0;
    var rework: set<string>, anonymousRework: nat := {}, 0;
    var fatal: Option<Event> := None;
    for i := 0 to |log|
      invariant done == NamedTasks(log[..i], TerminalDone) && anonymousDone == Anonymous(log[..i], TerminalDone)
      invariant rework == NamedTasks(log[..i], Rework) && anonymousRework == Anonymous(log[..i], Rework)
      invariant fatal == FirstFatalOf(log[..i])
    {
      var e := log[i];
      OneMore(log, i, TerminalDone);
      OneMore(log, i, Rework);
      if e.kind.TerminalDone? {
        if e.task != "" { done := done + {e.task}; } else { anonymousDone := anonymousDone + 1; }
      } else if e.kind.Fatal? && fatal.None? {
        fatal := Some(e);
      }
      if e.kind.Rework? {
        if e.task != "" { rework := rework + {e.task}; } else { anonymousRework := anonymousRework + 1; }
      }
    }
    assert log[..|log|] == log;
    ledger := Combine(done, anonymousDone, rework, anonymousRework, fatal);
  }

  // ---------------------------------------------------------------------
  // Conservation, order independence, growth
  // ---------------------------------------------------------------------

  /** Every reworked task is accounted for once: it passed after rework or is pending. */
  lemma Conservation(log: Log)
    ensures var l := LedgerOf(log); l.passedAfterRework + l.pendingRework == l.rework
  {
    var done, rework := NamedTasks(log, TerminalDone), NamedTasks(log, Rework);
    assert rework == (done * rework) + (rework - done);
  }

  /** The positions of the anonymous events of a kind. */
  function AnonymousAt(log: Log, kind: Kind): set<nat> {
    set i | 0 <= i < |log| && log[i].kind == kind && log[i].task == ""
  }

  lemma AnonymousAtNext(log: Log, e: Event, kind: Kind)
    ensures AnonymousAt(log + [e], kind)
      == AnonymousAt(log, kind) + if e.kind == kind && e.task == "" then {|log|} else {}
  {
    forall i: nat
      ensures i in AnonymousAt(log + [e], kind) <==>
        i in AnonymousAt(log, kind) || (i == |log| && e.kind == kind && e.task == "")
    {
      if i < |log| { assert (log + [e])[i] == log[i]; }
    }
  }

  lemma {:induction false} AnonymousCount(log: Log, kind: Kind)
    ensures Anonymous(log, kind) == |AnonymousAt(log, kind)|
  {
    if log != [] {
      var n := |log| - 1;
      AnonymousCount(log[..n], kind);
      assert log == log[..n] + [log[n]];
      AnonymousAtNext(log[..n], log[n], kind);
      assert n !in AnonymousAt(log[..n], kind);
    }
  }

  /** The named tasks with a rework event, and of those the ones with a terminal event. */
  ghost function Reworked(log: Log): set<string> {
    set e | e in log && e.kind == Rework && e.task != "" :: e.task
  }

  ghost predicate IsDone(log: Log, task: string) { exists e :: e in log && e.kind == TerminalDone && e.task == task }

  /** Where the counts come from: a named reworked task counts as passed exactly if it is
      done and as pending exactly if not; anonymous reworks are matched one by one with
      anonymous terminal events, and the rest is pending. */
  lemma LedgerExactly(log: Log)
    ensures var l := LedgerOf(log);
      var done, rework := |AnonymousAt(log, TerminalDone)|, |AnonymousAt(log, Rework)|;
      var matched := if done < rework then done else rework;
      && l.passedAfterRework == |set task | task in Reworked(log) && IsDone(log, task)| + matched
      && l.pendingRework == |set task | task in Reworked(log) && !IsDone(log, task)| + (rework - matched)
      && l.rework == |Reworked(log)| + rework
      && l.done == |set e | e in log && e.kind == TerminalDone && e.task != "" :: e.task| + done
  {
    AnonymousCount(log, TerminalDone);
    AnonymousCount(log, Rework);
    var done, rework := NamedTasks(log, TerminalDone), NamedTasks(log, Rework);
    assert rework == Reworked(log);
    assert (set task | task in Reworked(log) && IsDone(log, task)) == done * rework;
    assert (set task | task in Reworked(log) && !IsDone(log, task)) == rework - done;
  }

  /** The fatal event of the ledger is the first one of the log. */
  lemma {:induction false} FirstFatalExactly(log: Log)
    ensures FirstFatalOf(log).None? <==> forall i :: 0 <= i < |log| ==> !log[i].kind.Fatal?
    ensures forall i :: 0 <= i < |log| && log[i].kind.Fatal? && (forall j :: 0 <= j < i ==> !log[j].kind.Fatal?) ==>
      FirstFatalOf(log) == Some(log[i])
  {
    if log != [] { FirstFatalExactly(log[..|log| - 1]); }
  }

  lemma {:induction false} AnonymousConcat(a: Log, b: Log, kind: Kind)
    ensures Anonymous(a + b, kind) == Anonymous(a, kind) + Anonymous(b, kind)
  {
    if b == [] {
      assert a + b == a;
    } else {
      assert (a + b)[..|a + b| - 1] == a + b[..|b| - 1];
      AnonymousConcat(a, b[..|b| - 1], kind);
    }
  }

  /** Taking one event out of a log takes out its share of the count. */
  lemma AnonymousRemoved(b: Log, k: nat, kind: Kind)
    requires k < |b|
    ensures Anonymous(b, kind) == Anonymous(b[..k] + b[k + 1..], kind) + Anonymous([b[k]], kind)
    ensures multiset(b[..k] + b[k + 1..]) == multiset(b) - multiset{b[k]}
  {
    var front, x, back := b[..k], b[k], b[k + 1..];
    assert b == front + ([x] + back);
    AnonymousConcat(front, back, kind);
    AnonymousConcat(front, [x] + back, kind);
    AnonymousConcat([x], back, kind);
  }

  lemma {:induction false} AnonymousPermuted(a: Log, b: Log, kind: Kind)
    requires multiset(a) == multiset(b)
    ensures Anonymous(a, kind) == Anonymous(b, kind)
    decreases |a|
  {
    if a == [] {
      assert |b| == |multiset(b)| == 0;
    } else {
      var n := |a| - 1;
      assert a[n] in multiset(b);
      var k :| 0 <= k < |b| && b[k] == a[n];
      AnonymousRemoved(a, n, kind);
      AnonymousRemoved(b, k, kind);
      AnonymousPermuted(a[..n] + a[n + 1..], b[..k] + b[k + 1..], kind);
    }
  }

  /** All counts depend on the events, not on their order. */
  lemma OrderIndependent(a: Log, b: Log)
    requires multiset(a) == multiset(b)
    ensures LedgerOf(a).(fatal := None) == LedgerOf(b).(fatal := None)
  {
    forall e
      ensures e in a <==> e in b
    {
      assert e in a <==> e in multiset(a);
      assert e in b <==> e in multiset(b);
    }
    forall kind
      ensures NamedTasks(a, kind) == NamedTasks(b, kind) && Anonymous(a, kind) == Anonymous(b, kind)
    {
      AnonymousPermuted(a, b, kind);
    }
  }

  lemma SubsetCount(a: set<string>, b: set<string>)
    requires a <= b
    ensures |a| <= |b|
  {
    assert b == a + (b - a);
  }

  lemma {:induction false} FirstFatalKept(a: Log, b: Log)
    requires FirstFatalOf(a).Some?
    ensures FirstFatalOf(a + b) == FirstFatalOf(a)
  {
    if b == [] {
      assert a + b == a;
    } else {
      assert (a + b)[..|a + b| - 1] == a + b[..|b| - 1];
      FirstFatalKept(a, b[..|b| - 1]);
    }
  }

  /** As the log grows, done, rework and passed-after-rework counts never drop, and the
      first fatal event stays. */
  lemma Growth(a: Log, b: Log)
    ensures LedgerOf(a).done <= LedgerOf(a + b).done
    ensures LedgerOf(a).rework <= LedgerOf(a + b).rework
    ensures LedgerOf(a).passedAfterRework <= LedgerOf(a + b).passedAfterRework
    ensures LedgerOf(a).fatal.Some? ==> LedgerOf(a + b).fatal == LedgerOf(a).fatal
  {
    forall kind
      ensures NamedTasks(a, kind) <= NamedTasks(a + b, kind) && Anonymous(a, kind) <= Anonymous(a + b, kind)
    {
      AnonymousConcat(a, b, kind);
    }
    SubsetCount(NamedTasks(a, TerminalDone), NamedTasks(a + b, TerminalDone));
    SubsetCount(NamedTasks(a, Rework), NamedTasks(a + b, Rework));
    SubsetCount(NamedTasks(a, TerminalDone) * NamedTasks(a, Rework),
                NamedTasks(a + b, TerminalDone) * NamedTasks(a + b, Rework));
    if FirstFatalOf(a).Some? { FirstFatalKept(a, b); }
  }

  datatype Status = StatusFatal | Passed | PassedAfterRework | FailedPendingRework | Failed

  /** The final status choice of `bypass_inner_run`. */
  function StatusOf(l: Ledger, expected: int): Status {
    if l.fatal.Some? then StatusFatal
    else if l.done >= expected then if l.passedAfterRework > 0 then PassedAfterRework else Passed
    else if l.pendingRework > 0 then FailedPendingRework
    else Failed
  }

  /** What each status says about the log, exactly. */
  lemma StatusExactly(log: Log, expected: int)
    ensures var s, l := StatusOf(LedgerOf(log), expected), LedgerOf(log);
      var fatal := exists i :: 0 <= i < |log| && log[i].kind == Fatal;
      && (s == StatusFatal <==> fatal)
      && (s == Passed <==> !fatal && l.done >= expected && l.passedAfterRework == 0)
      && (s == PassedAfterRework <==> !fatal && l.done >= expected && l.passedAfterRework > 0)
      && (s == FailedPendingRework <==> !fatal && l.done < expected && l.pendingRework > 0)
      && (s == Failed <==> !fatal && l.done < expected && l.pendingRework == 0)
  {
    FirstFatalExactly(log);
  }

  lemma {:induction false} NoFatalConcat(a: Log, b: Log)
    requires FirstFatalOf(a).None? && forall e :: e in b ==> !e.kind.Fatal?
    ensures FirstFatalOf(a + b).None?
  {
    if b == [] {
      assert a + b == a;
    } else {
      assert (a + b)[..|a + b| - 1] == a + b[..|b| - 1];
      NoFatalConcat(a, b[..|b| - 1]);
    }
  }

  /** Verdicts are stable: a fatal run stays fatal, and a run that passed keeps passing
      unless a fatal event arrives; rework is never forgotten. */
  lemma StatusStable(a: Log, b: Log, expected: int)
    ensures StatusOf(LedgerOf(a), expected).StatusFatal? ==> StatusOf(LedgerOf(a + b), expected).StatusFatal?
    ensures (forall e :: e in b ==> !e.kind.Fatal?) ==>
      && (StatusOf(LedgerOf(a), expected).PassedAfterRework? ==> StatusOf(LedgerOf(a + b), expected).PassedAfterRework?)
      && (StatusOf(LedgerOf(a), expected).Passed? ==>
            StatusOf(LedgerOf(a + b), expected).Passed? || StatusOf(LedgerOf(a + b), expected).PassedAfterRework?)
  {
    Growth(a, b);
    if FirstFatalOf(a).None? && forall e :: e in b ==> !e.kind.Fatal? { NoFatalConcat(a, b); }
  }
}
