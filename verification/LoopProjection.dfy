/** The read model of loop requests: one row per request id whose status is decided by
    the last lifecycle event, and a summary counted from the rows. */
module LoopProjection {
  import opened QueueModel
  import opened QueueLifecycle
  import QueueTheorems

  datatype Summary = Summary(total: nat, pending: nat, active: nat, completed: nat, failed: nat, skipped: nat)

  /** The status of every row, as the type of the event that set it. */
  function Rows(events: Log): map<string, Kind> {
    if events == [] then map[]
    else
      var e := events[|events| - 1];
      var rows := Rows(events[..|events| - 1]);
      if e.kind.IsLoop() then rows[e.key := e.kind] else rows
  }

  function WithStatus(rows: map<string, Kind>, status: Kind): set<string> {
    set key | key in rows && rows[key] == status
  }

  function Count(rows: map<string, Kind>, status: Kind): nat { |WithStatus(rows, status)| }

  function Summarize(rows: map<string, Kind>): Summary {
    Summary(|rows|, Count(rows, LoopRequested) + Count(rows, LoopAccepted), Count(rows, LoopStarted),
            Count(rows, LoopCompleted), Count(rows, LoopFailed), Count(rows, LoopSkipped))
  }

  /** The `Counter` over the rows: a count per status, 0 where there is none. */
  method CountRows(rows: map<string, Kind>) returns (byStatus: Kind -> nat)
    ensures forall s: Kind :: byStatus(s) == Count(rows, s)
  {
    var counts: map<Kind, nat> := map[];
    var left := rows.Keys;
    assert forall s: Kind :: WithStatus(rows, s) * left == WithStatus(rows, s);
    while left != {}
      invariant left <= rows.Keys
      invariant forall s: Kind :: Get(counts, s) + |WithStatus(rows, s) * left| == Count(rows, s)
      decreases left
    {
      var key :| key in left;
      forall s: Kind
        ensures |WithStatus(rows, s) * (left - {key})| == |WithStatus(rows, s) * left| - if s == rows[key] then 1 else 0
      {
        assert WithStatus(rows, s) * (left - {key}) == (WithStatus(rows, s) * left) - {key};
      }
      counts := counts[rows[key] := Get(counts, rows[key]) + 1];
      left := left - {key};
    }
    assert forall s: Kind :: WithStatus(rows, s) * {} == {};
    byStatus := s => Get(counts, s);
  }

  function Get(counts: map<Kind, nat>, status: Kind): nat { if status in counts then counts[status] else 0 }

  /** `loop_requests_projection`: fold the events into rows, then count the rows. */
  method Project(events: Log) returns (summary: Summary)
    ensures summary == Summarize(Rows(events))
  {
    var rows: map<string, Kind> := map[];
    for i := 0 to |events|
      invariant rows == Rows(events[..i])
    {
      assert events[..i + 1][..i] == events[..i];
      if events[i].kind.IsLoop() {
        rows := rows[events[i].key := events[i].kind];
      }
    }
    assert events[..|events|] == events;
    var byStatus := CountRows(rows);
    summary := Summary(|rows|, byStatus(LoopRequested) + byStatus(LoopAccepted), byStatus(LoopStarted),
                       byStatus(LoopCompleted), byStatus(LoopFailed), byStatus(LoopSkipped));
  }

  lemma {:induction false} RowsAreLoopKinds(events: Log)
    ensures forall key :: key in Rows(events) ==> Rows(events)[key].IsLoop()
  {
    if events != [] { RowsAreLoopKinds(events[..|events| - 1]); }
  }

  /** The event at i is the last loop event of its id. */
  ghost predicate LastLoopEvent(events: Log, i: nat) {
    && i < |events| && events[i].kind.IsLoop()
    && forall j :: i < j < |events| && events[j].kind.IsLoop() ==> events[j].key != events[i].key
  }

  /** The ids whose last loop event is of this type. */
  ghost function LastIs(events: Log, kind: Kind): set<string> {
    set i | 0 <= i < |events| && LastLoopEvent(events, i) && events[i].kind == kind :: events[i].key
  }

  /** On any log a row holds the type of the last loop event of its id. */
  lemma {:induction false} RowIsLast(events: Log, i: nat)
    requires LastLoopEvent(events, i)
    ensures events[i].key in Rows(events) && Rows(events)[events[i].key] == events[i].kind
  {
    var n := |events| - 1;
    if i < n {
      assert forall j :: i < j < n && events[j].kind.IsLoop() ==> events[..n][j].key != events[i].key;
      RowIsLast(events[..n], i);
    }
  }

  lemma {:induction false} RowHasLast(events: Log, key: string) returns (i: nat)
    requires key in Rows(events)
    ensures LastLoopEvent(events, i) && events[i].key == key
  {
    var n := |events| - 1;
    if events[n].kind.IsLoop() && events[n].key == key {
      return n;
    }
    i := RowHasLast(events[..n], key);
    assert forall j :: i < j < n && events[j].kind.IsLoop() ==> events[..n][j].key != key;
  }

  lemma StatusIsLast(events: Log, kind: Kind)
    ensures WithStatus(Rows(events), kind) == LastIs(events, kind)
  {
    forall key | key in WithStatus(Rows(events), kind)
      ensures key in LastIs(events, kind)
    {
      var i := RowHasLast(events, key);
      RowIsLast(events, i);
    }
    forall key | key in LastIs(events, kind)
      ensures key in WithStatus(Rows(events), kind)
    {
      var i :| 0 <= i < |events| && LastLoopEvent(events, i) && events[i].kind == kind && events[i].key == key;
      RowIsLast(events, i);
    }
  }

  /** On any log each number of the summary counts the ids whose last loop event is of the
      matching type. */
  lemma SummaryExactly(events: Log)
    ensures var s := Summarize(Rows(events));
      && s.pending == |LastIs(events, LoopRequested)| + |LastIs(events, LoopAccepted)|
      && s.active == |LastIs(events, LoopStarted)| && s.completed == |LastIs(events, LoopCompleted)|
      && s.failed == |LastIs(events, LoopFailed)| && s.skipped == |LastIs(events, LoopSkipped)|
  {
    StatusIsLast(events, LoopRequested);
    StatusIsLast(events, LoopAccepted);
    StatusIsLast(events, LoopStarted);
    StatusIsLast(events, LoopCompleted);
    StatusIsLast(events, LoopFailed);
    StatusIsLast(events, LoopSkipped);
  }

  lemma DisjointSum(a: set<string>, b: set<string>)
    requires a !! b
    ensures |a + b| == |a| + |b|
  {
  }

  lemma SixWay(all: set<string>, r: set<string>, a: set<string>, s: set<string>,
               c: set<string>, f: set<string>, k: set<string>)
    requires r !! a !! s !! c !! f !! k
    requires all == r + a + s + c + f + k
    ensures |all| == |r| + |a| + |s| + |c| + |f| + |k|
  {
  }

  lemma KeysCovered(rows: map<string, Kind>)
    requires forall key :: key in rows ==> rows[key].IsLoop()
    ensures rows.Keys ==
      WithStatus(rows, LoopRequested) + WithStatus(rows, LoopAccepted) + WithStatus(rows, LoopStarted)
      + WithStatus(rows, LoopCompleted) + WithStatus(rows, LoopFailed) + WithStatus(rows, LoopSkipped)
  {
  }

  /** On any log whatsoever the five classes partition the rows. */
  lemma SummaryPartitions(events: Log)
    ensures var s := Summarize(Rows(events)); s.pending + s.active + s.completed + s.failed + s.skipped == s.total
  {
    RowsAreLoopKinds(events);
    var rows := Rows(events);
    var r, a, s := WithStatus(rows, LoopRequested), WithStatus(rows, LoopAccepted), WithStatus(rows, LoopStarted);
    var c, f, k := WithStatus(rows, LoopCompleted), WithStatus(rows, LoopFailed), WithStatus(rows, LoopSkipped);
    KeysCovered(rows);
    SixWay(rows.Keys, r, a, s, c, f, k);
  }

  /** On an orderly log the row status is the phase of the request. */
  lemma {:induction false} RowIsPhase(events: Log, key: string)
    requires LoopFold(Fresh, events, key) != Broken
    ensures var p := LoopFold(Fresh, events, key);
      && (key in Rows(events) <==> !p.Fresh?)
      && (key in Rows(events) ==>
            var k := Rows(events)[key];
            && (k.LoopRequested? <==> p.Queued?) && (k.LoopAccepted? <==> p.Acked?) && (k.LoopStarted? <==> p.Running?)
            && (k.LoopCompleted? || k.LoopFailed? <==> p.Finished?) && (k.LoopSkipped? <==> p.Skipped?))
  {
    if events != [] { RowIsPhase(events[..|events| - 1], key); }
  }

  function Keys(events: seq<Event>): set<string> { set e | e in events :: e.key }

  lemma {:induction false} DistinctKeysCount(events: seq<Event>)
    requires DistinctKeys(events)
    ensures |Keys(events)| == |events|
  {
    if events != [] {
      var n := |events| - 1;
      DistinctKeysCount(events[..n]);
      assert events == events[..n] + [events[n]];
      assert Keys(events) == Keys(events[..n]) + {events[n].key};
    }
  }

  function Shown(log: Log): set<string> { WithStatus(Rows(log), LoopRequested) + WithStatus(Rows(log), LoopAccepted) }

  /** A key is pending exactly while its phase is queued or acknowledged. */
  lemma PendingIsPhase(log: Log, key: string)
    requires OrderlyAt(log, key)
    ensures key in Keys(Pending(Loop, log)) <==> var p := LoopFold(Fresh, log, key); p.Queued? || p.Acked?
  {
    InRequests(Loop, log, Resolved(Loop, log));
    LoopPhaseFacts(log, key);
    LoopPhaseHistory(log, key);
    var p := LoopFold(Fresh, log, key);
    if p.Queued? || p.Acked? {
      var e := Event(LoopRequested, key, !(p.Queued? && !p.runnable));
      assert e in Pending(Loop, log);
    } else {
      assert forall e :: e in Pending(Loop, log) ==> Mentions(log, Loop, e.key);
    }
  }

  lemma ShownIsPhase(log: Log, key: string)
    requires OrderlyAt(log, key)
    ensures key in Shown(log) <==> var p := LoopFold(Fresh, log, key); p.Queued? || p.Acked?
  {
    RowIsPhase(log, key);
  }

  /** The read model and the queue agree in every reachable log: the rows shown as
      pending are exactly the requests the resident will still plan, and the summary
      counts each of them once. */
  lemma ReadModelAgrees(moves: seq<Move>)
    ensures Shown(Run(moves).log) == Keys(Pending(Loop, Run(moves).log))
    ensures Summarize(Rows(Run(moves).log)).pending == |Pending(Loop, Run(moves).log)|
  {
    QueueTheorems.RunOrderly(moves);
    OrderlyAgrees(Run(moves).log);
  }

  lemma OrderlyAgrees(log: Log)
    requires Orderly(log)
    ensures Shown(log) == Keys(Pending(Loop, log))
    ensures Summarize(Rows(log)).pending == |Pending(Loop, log)|
  {
    forall key
      ensures key in Shown(log) <==> key in Keys(Pending(Loop, log))
    {
      assert OrderlyAt(log, key);
      ShownIsPhase(log, key);
      PendingIsPhase(log, key);
    }
    RequestsDistinct(Loop, log, Resolved(Loop, log));
    DistinctKeysCount(Pending(Loop, log));
    DisjointSum(WithStatus(Rows(log), LoopRequested), WithStatus(Rows(log), LoopAccepted));
  }
}
