/** The trigger policy: sliding-window budgets and a cooldown over a persisted history of
    decisions.  Instants and durations are whole numbers of one small unit, a microsecond. */
module Triggers {
  import opened Options

  const MINUTE := 60 * 1000000
  const HOUR := 60 * MINUTE
  const DAY := 24 * HOUR

  datatype Policy = Policy(
    enabled: bool, off: bool, activeSelfRepair: bool, eligible: set<string>,
    cooldownMinutes: int, maxPerHour: int, maxPerDay: int)

  /** A failure signal, reduced to its class and its problem fingerprint. */
  datatype Signal = Signal(failureClass: string, problem: string)

  datatype Reason = Disabled | SelfRepairActive | NotEligible | HourlyBudget | DailyBudget | Cooldown

  datatype Verdict = Accepted | Skipped(reason: Reason)

  /** `at` is absent when the recorded timestamp does not parse. */
  datatype Decision = Decision(verdict: Verdict, problem: string, at: Option<int>)

  predicate Recent(d: Decision, now: int, window: int) {
    d.verdict.Accepted? && d.at.Some? && now - d.at.value <= window
  }

  /** `_recent_accepted`; note that an instant after `now` counts as recent. */
  function RecentAccepted(history: seq<Decision>, now: int, window: int): seq<Decision> {
    if history == [] then []
    else
      var d := history[|history| - 1];
      RecentAccepted(history[..|history| - 1], now, window) + if Recent(d, now, window) then [d] else []
  }

  predicate ClassAllowed(failureClass: string, eligible: set<string>) {
    "*" in eligible || failureClass in eligible
  }

  predicate CoolingDown(recent: seq<Decision>, problem: string, now: int, cooldown: int) {
    exists k :: 0 <= k < |recent| && Cools(recent[k], problem, now, cooldown)
  }

  predicate Cools(d: Decision, problem: string, now: int, cooldown: int) {
    d.problem == problem && d.at.Some? && now - d.at.value <= cooldown
  }

  /** `decide_trigger_for_signal`. */
  function Decide(s: Signal, p: Policy, history: seq<Decision>, now: int): Decision {
    var lastHour := RecentAccepted(history, now, HOUR);
    var verdict :=
      if !p.enabled || p.off then Skipped(Disabled)
      else if p.activeSelfRepair then Skipped(SelfRepairActive)
      else if !ClassAllowed(s.failureClass, p.eligible) then Skipped(NotEligible)
      else if |lastHour| >= p.maxPerHour then Skipped(HourlyBudget)
      else if |RecentAccepted(history, now, DAY)| >= p.maxPerDay then Skipped(DailyBudget)
      else if CoolingDown(lastHour, s.problem, now, p.cooldownMinutes * MINUTE) then Skipped(Cooldown)
      else Accepted;
    Decision(verdict, s.problem, Some(now))
  }

  /** `_recent_accepted` as the loop it is. */
  method FindRecentAccepted(history: seq<Decision>, now: int, window: int) returns (recent: seq<Decision>)
    ensures recent == RecentAccepted(history, now, window)
  {
    recent := [];
    for i := 0 to |history|
      invariant recent == RecentAccepted(history[..i], now, window)
    {
      assert history[..i + 1][..i] == history[..i];
      if Recent(history[i], now, window) {
        recent := recent + [history[i]];
      }
    }
    assert history[..|history|] == history;
  }

  /** `decide_trigger_for_signal` with its search loops. */
  method DecideTrigger(s: Signal, p: Policy, history: seq<Decision>, now: int) returns (d: Decision)
    ensures d == Decide(s, p, history, now)
  {
    if !p.enabled || p.off { return Decision(Skipped(Disabled), s.problem, Some(now)); }
    if p.activeSelfRepair { return Decision(Skipped(SelfRepairActive), s.problem, Some(now)); }
    if !ClassAllowed(s.failureClass, p.eligible) { return Decision(Skipped(NotEligible), s.problem, Some(now)); }
    var lastHour := FindRecentAccepted(history, now, HOUR);
    if |lastHour| >= p.maxPerHour { return Decision(Skipped(HourlyBudget), s.problem, Some(now)); }
    var lastDay := FindRecentAccepted(history, now, DAY);
    if |lastDay| >= p.maxPerDay { return Decision(Skipped(DailyBudget), s.problem, Some(now)); }
    for k := 0 to |lastHour|
      invariant forall j :: 0 <= j < k ==>
        !Cools(lastHour[j], s.problem, now, p.cooldownMinutes * MINUTE)
    {
      if Cools(lastHour[k], s.problem, now, p.cooldownMinutes * MINUTE) {
        return Decision(Skipped(Cooldown), s.problem, Some(now));
      }
    }
    d := Decision(Accepted, s.problem, Some(now));
  }

  /** One call of the policy inside a scan: the signal, the policy in force, the clock. */
  datatype Call = Call(signal: Signal, policy: Policy, now: int)

  /** The decisions of one scan: each sees the history and the earlier decisions. */
  function Scan(history: seq<Decision>, calls: seq<Call>): seq<Decision> {
    if calls == [] then []
    else
      var n := |calls| - 1;
      var earlier := Scan(history, calls[..n]);
      earlier + [Decide(calls[n].signal, calls[n].policy, history + earlier, calls[n].now)]
  }

  /** `scan_trigger_decisions` on the decisions read back from the file. */
  method ScanTriggerDecisions(persisted: seq<Decision>, calls: seq<Call>) returns (decisions: seq<Decision>)
    ensures decisions == Scan(persisted, calls)
  {
    var history := persisted;
    decisions := [];
    for i := 0 to |calls|
      invariant decisions == Scan(persisted, calls[..i]) && history == persisted + decisions
    {
      assert calls[..i + 1][..i] == calls[..i];
      var d := DecideTrigger(calls[i].signal, calls[i].policy, history, calls[i].now);
      decisions := decisions + [d];
      history := history + [d];
    }
    assert calls[..|calls|] == calls;
  }

  /** What a scan leaves in the file: the caller appends the decisions one by one, either
      all of them or the accepted ones only, and may die after any of them. */
  function Kept(decisions: seq<Decision>, acceptedOnly: bool): seq<Decision> {
    if decisions == [] then []
    else
      var d := decisions[|decisions| - 1];
      Kept(decisions[..|decisions| - 1], acceptedOnly) + if d.verdict.Accepted? || !acceptedOnly then [d] else []
  }

  datatype Round = Round(calls: seq<Call>, acceptedOnly: bool, written: nat)

  function Persist(file: seq<Decision>, r: Round): seq<Decision> {
    var kept := Kept(Scan(file, r.calls), r.acceptedOnly);
    file + kept[..if r.written < |kept| then r.written else |kept|]
  }

  function Rounds(file: seq<Decision>, rounds: seq<Round>): seq<Decision> {
    if rounds == [] then file
    else Persist(Rounds(file, rounds[..|rounds| - 1]), rounds[|rounds| - 1])
  }

  // ---------------------------------------------------------------------
  // Sliding windows
  // ---------------------------------------------------------------------

  predicate InWindow(d: Decision, from: int, length: int) {
    d.verdict.Accepted? && d.at.Some? && from <= d.at.value <= from + length
  }

  /** The number of accepted decisions inside the closed window [from, from + length]. */
  function CountIn(history: seq<Decision>, from: int, length: int): nat {
    if history == [] then 0
    else
      var n := |history| - 1;
      CountIn(history[..n], from, length) + if InWindow(history[n], from, length) then 1 else 0
  }

  /** No closed window of this length, wherever it starts, holds more than `limit`. */
  ghost predicate WithinBudget(history: seq<Decision>, length: int, limit: int) {
    forall from :: CountIn(history, from, length) <= if limit < 0 then 0 else limit
  }

  /** Every accepted decision in a window ending at or after `now` minus its length was
      seen by the budget check. */
  lemma {:induction false} WindowIsRecent(history: seq<Decision>, now: int, from: int, length: int)
    requires now <= from + length
    ensures CountIn(history, from, length) <= |RecentAccepted(history, now, length)|
  {
    if history != [] { WindowIsRecent(history[..|history| - 1], now, from, length); }
  }

  lemma CountSnoc(history: seq<Decision>, d: Decision, from: int, length: int)
    ensures CountIn(history + [d], from, length)
      == CountIn(history, from, length) + if InWindow(d, from, length) then 1 else 0
  {
    assert (history + [d])[..|history|] == history;
  }

  lemma DecideKeepsBudget(s: Signal, p: Policy, history: seq<Decision>, now: int, hourly: int, daily: int)
    requires p.maxPerHour <= hourly && p.maxPerDay <= daily
    requires WithinBudget(history, HOUR, hourly) && WithinBudget(history, DAY, daily)
    ensures var h := history + [Decide(s, p, history, now)];
      WithinBudget(h, HOUR, hourly) && WithinBudget(h, DAY, daily)
  {
    var d := Decide(s, p, history, now);
    forall from, length | length == HOUR || length == DAY
      ensures CountIn(history + [d], from, length) <=
        (var limit := if length == HOUR then hourly else daily; if limit < 0 then 0 else limit)
    {
      CountSnoc(history, d, from, length);
      if InWindow(d, from, length) { WindowIsRecent(history, now, from, length); }
    }
  }

  // ---------------------------------------------------------------------
  // Cooldown
  // ---------------------------------------------------------------------

  /** Each accepted decision comes more than `gap` after every earlier accepted decision on
      the same problem, as the recorded clock tells it. */
  ghost predicate Apart(history: seq<Decision>, gap: int) {
    forall i, j :: 0 <= i < j < |history| && history[i].verdict.Accepted? && history[j].verdict.Accepted?
                   && history[i].at.Some? && history[j].at.Some? && history[i].problem == history[j].problem
      ==> history[j].at.value - history[i].at.value > gap
  }

  /** The separation a policy really gives: its cooldown, but never more than an hour,
      because the check only looks at the decisions of the last hour. */
  function Gap(cooldownMinutes: int): int {
    if cooldownMinutes < 60 then cooldownMinutes * MINUTE else HOUR
  }

  lemma {:induction false} RecentHas(history: seq<Decision>, now: int, window: int, k: nat)
    requires k < |history| && Recent(history[k], now, window)
    ensures var recent := RecentAccepted(history, now, window);
      exists m :: 0 <= m < |recent| && recent[m] == history[k]
  {
    var n := |history| - 1;
    var earlier := RecentAccepted(history[..n], now, window);
    if k < n {
      RecentHas(history[..n], now, window, k);
      var m :| 0 <= m < |earlier| && earlier[m] == history[k];
      assert RecentAccepted(history, now, window)[m] == history[k];
    } else {
      assert RecentAccepted(history, now, window)[|earlier|] == history[k];
    }
  }

  lemma DecideKeepsApart(s: Signal, p: Policy, history: seq<Decision>, now: int, cooldown: int)
    requires cooldown <= p.cooldownMinutes && Apart(history, Gap(cooldown))
    ensures Apart(history + [Decide(s, p, history, now)], Gap(cooldown))
  {
    var d := Decide(s, p, history, now);
    forall i | 0 <= i < |history| && history[i].verdict.Accepted? && history[i].at.Some? && d.verdict.Accepted?
               && history[i].problem == s.problem
      ensures now - history[i].at.value > Gap(cooldown)
    {
      if now - history[i].at.value <= HOUR { RecentHas(history, now, HOUR, i); }
    }
  }

  // ---------------------------------------------------------------------
  // Whole histories of persisted scans
  // ---------------------------------------------------------------------

  ghost predicate Sound(history: seq<Decision>, hourly: int, daily: int, cooldown: int) {
    WithinBudget(history, HOUR, hourly) && WithinBudget(history, DAY, daily) && Apart(history, Gap(cooldown))
  }

  /** Every policy in force is at least as strict as the given limits. */
  predicate Within(calls: seq<Call>, hourly: int, daily: int, cooldown: int) {
    forall k :: 0 <= k < |calls| ==>
      && calls[k].policy.maxPerHour <= hourly && calls[k].policy.maxPerDay <= daily
      && cooldown <= calls[k].policy.cooldownMinutes
  }

  lemma {:induction false} ScanSound(file: seq<Decision>, calls: seq<Call>, hourly: int, daily: int, cooldown: int)
    requires Sound(file, hourly, daily, cooldown) && Within(calls, hourly, daily, cooldown)
    ensures Sound(file + Scan(file, calls), hourly, daily, cooldown)
  {
    if calls == [] {
      assert file + Scan(file, calls) == file;
    } else {
      var n := |calls| - 1;
      var c := calls[n];
      ScanSound(file, calls[..n], hourly, daily, cooldown);
      var history := file + Scan(file, calls[..n]);
      DecideKeepsBudget(c.signal, c.policy, history, c.now, hourly, daily);
      DecideKeepsApart(c.signal, c.policy, history, c.now, cooldown);
      assert file + Scan(file, calls) == history + [Decide(c.signal, c.policy, history, c.now)];
    }
  }

  lemma {:induction false} CountPrefix(a: seq<Decision>, b: seq<Decision>, from: int, length: int)
    ensures CountIn(a, from, length) <= CountIn(a + b, from, length)
  {
    if b == [] {
      assert a + b == a;
    } else {
      assert (a + b)[..|a + b| - 1] == a + b[..|b| - 1];
      CountPrefix(a, b[..|b| - 1], from, length);
    }
  }

  lemma SoundPrefix(a: seq<Decision>, b: seq<Decision>, hourly: int, daily: int, cooldown: int)
    requires Sound(a + b, hourly, daily, cooldown)
    ensures Sound(a, hourly, daily, cooldown)
  {
    forall from, length {
      CountPrefix(a, b, from, length);
    }
    assert forall i :: 0 <= i < |a| ==> a[i] == (a + b)[i];
  }

  /** Only accepted decisions count, and those are always kept. */
  lemma CountMaybe(kept: seq<Decision>, d: Decision, acceptedOnly: bool, from: int, length: int)
    ensures CountIn(kept + (if d.verdict.Accepted? || !acceptedOnly then [d] else []), from, length)
      == CountIn(kept + [d], from, length)
  {
    if !d.verdict.Accepted? {
      CountSnoc(kept, d, from, length);
      assert kept + [] == kept;
    }
  }

  lemma KeptSnoc(file: seq<Decision>, ds: seq<Decision>, d: Decision, acceptedOnly: bool)
    ensures file + Kept(ds + [d], acceptedOnly)
      == (file + Kept(ds, acceptedOnly)) + if d.verdict.Accepted? || !acceptedOnly then [d] else []
  {
    assert (ds + [d])[..|ds|] == ds;
  }

  lemma {:induction false} KeptCount(file: seq<Decision>, ds: seq<Decision>, acceptedOnly: bool, from: int, length: int)
    ensures CountIn(file + Kept(ds, acceptedOnly), from, length) == CountIn(file + ds, from, length)
  {
    if ds != [] {
      var n := |ds| - 1;
      var kept := file + Kept(ds[..n], acceptedOnly);
      KeptCount(file, ds[..n], acceptedOnly, from, length);
      assert ds == ds[..n] + [ds[n]] && file + ds == (file + ds[..n]) + [ds[n]];
      KeptSnoc(file, ds[..n], ds[n], acceptedOnly);
      CountMaybe(kept, ds[n], acceptedOnly, from, length);
      CountSnoc(file + ds[..n], ds[n], from, length);
      CountSnoc(kept, ds[n], from, length);
    }
  }

  lemma {:induction false} KeptApart(file: seq<Decision>, ds: seq<Decision>, acceptedOnly: bool, gap: int)
    requires Apart(file + ds, gap)
    ensures Apart(file + Kept(ds, acceptedOnly), gap)
    ensures forall d :: d in file + Kept(ds, acceptedOnly) ==> d in file + ds
  {
    if ds != [] {
      var n := |ds| - 1;
      assert file + ds == (file + ds[..n]) + [ds[n]];
      assert forall i :: 0 <= i < |file + ds[..n]| ==> (file + ds[..n])[i] == (file + ds)[i];
      KeptApart(file, ds[..n], acceptedOnly, gap);
      var kept := file + Kept(ds[..n], acceptedOnly);
      if ds[n].verdict.Accepted? || !acceptedOnly {
        assert file + Kept(ds, acceptedOnly) == kept + [ds[n]];
        forall i | 0 <= i < |kept| && kept[i].verdict.Accepted? && ds[n].verdict.Accepted?
                   && kept[i].at.Some? && ds[n].at.Some? && kept[i].problem == ds[n].problem
          ensures ds[n].at.value - kept[i].at.value > gap
        {
          assert kept[i] in file + ds[..n];
          var m :| 0 <= m < |file + ds[..n]| && (file + ds[..n])[m] == kept[i];
          assert (file + ds)[m] == kept[i] && (file + ds)[|file| + n] == ds[n];
        }
      } else {
        assert file + Kept(ds, acceptedOnly) == kept;
      }
    }
  }

  lemma PersistSound(file: seq<Decision>, r: Round, hourly: int, daily: int, cooldown: int)
    requires Sound(file, hourly, daily, cooldown) && Within(r.calls, hourly, daily, cooldown)
    ensures Sound(Persist(file, r), hourly, daily, cooldown)
  {
    ScanSound(file, r.calls, hourly, daily, cooldown);
    var ds := Scan(file, r.calls);
    var kept := Kept(ds, r.acceptedOnly);
    forall from, length {
      KeptCount(file, ds, r.acceptedOnly, from, length);
    }
    KeptApart(file, ds, r.acceptedOnly, Gap(cooldown));
    var n := if r.written < |kept| then r.written else |kept|;
    assert file + kept == (file + kept[..n]) + kept[n..];
    SoundPrefix(file + kept[..n], kept[n..], hourly, daily, cooldown);
  }

  /** Over any sequence of scans, persisted in full or only as far as the caller got, with
      any clock readings at all: every closed one-hour window holds at most `hourly`
      accepted decisions, every closed 24-hour window at most `daily`, and decisions on
      one problem are more than the cooldown, or an hour if that is less, apart. */
  lemma {:induction false} BudgetsHold(rounds: seq<Round>, hourly: int, daily: int, cooldown: int)
    requires forall k :: 0 <= k < |rounds| ==> Within(rounds[k].calls, hourly, daily, cooldown)
    ensures Sound(Rounds([], rounds), hourly, daily, cooldown)
  {
    if rounds != [] {
      var n := |rounds| - 1;
      BudgetsHold(rounds[..n], hourly, daily, cooldown);
      PersistSound(Rounds([], rounds[..n]), rounds[n], hourly, daily, cooldown);
    }
  }

  /** No recorded instant lies after `now`. */
  ghost predicate ClockMonotone(history: seq<Decision>, now: int) {
    forall k :: 0 <= k < |history| && history[k].at.Some? ==> history[k].at.value <= now
  }

  lemma {:induction false} RecentIsWindow(history: seq<Decision>, now: int, window: int)
    requires ClockMonotone(history, now)
    ensures |RecentAccepted(history, now, window)| == CountIn(history, now - window, window)
    ensures forall d :: d in RecentAccepted(history, now, window) ==> d in history && Recent(d, now, window)
  {
    if history != [] {
      var n := |history| - 1;
      assert history == history[..n] + [history[n]];
      RecentIsWindow(history[..n], now, window);
    }
  }

  /** While the clock does not run backwards, the policy accepts exactly the eligible
      signals that leave both windows ending now within budget and whose problem was not
      accepted within the cooldown, or within the last hour if that is shorter. */
  lemma AcceptsExactly(s: Signal, p: Policy, history: seq<Decision>, now: int)
    requires ClockMonotone(history, now)
    ensures Decide(s, p, history, now).verdict.Accepted? <==>
      && p.enabled && !p.off && !p.activeSelfRepair && ClassAllowed(s.failureClass, p.eligible)
      && CountIn(history, now - HOUR, HOUR) < p.maxPerHour
      && CountIn(history, now - DAY, DAY) < p.maxPerDay
      && !exists k :: 0 <= k < |history| && history[k].verdict.Accepted? && history[k].problem == s.problem
                      && history[k].at.Some? && now - history[k].at.value <= Gap(p.cooldownMinutes)
  {
    RecentIsWindow(history, now, HOUR);
    RecentIsWindow(history, now, DAY);
    var recent := RecentAccepted(history, now, HOUR);
    forall k | 0 <= k < |history| && history[k].verdict.Accepted? && history[k].problem == s.problem
               && history[k].at.Some? && now - history[k].at.value <= Gap(p.cooldownMinutes)
      ensures CoolingDown(recent, s.problem, now, p.cooldownMinutes * MINUTE)
    {
      RecentHas(history, now, HOUR, k);
    }
    if CoolingDown(recent, s.problem, now, p.cooldownMinutes * MINUTE) {
      var m :| 0 <= m < |recent| && Cools(recent[m], s.problem, now, p.cooldownMinutes * MINUTE);
      assert recent[m] in history;
      var k :| 0 <= k < |history| && history[k] == recent[m];
    }
  }

  /** The problem was accepted within the cooldown, or within the last hour if that is
      shorter. */
  ghost predicate Cooling(s: Signal, p: Policy, history: seq<Decision>, now: int) {
    exists k :: 0 <= k < |history| && history[k].verdict.Accepted? && history[k].problem == s.problem
                && history[k].at.Some? && now - history[k].at.value <= Gap(p.cooldownMinutes)
  }

  /** While the clock does not run backwards, each reason to skip means exactly what it says,
      the first that applies wins, and the decision records the problem and the clock. */
  lemma ReasonsExactly(s: Signal, p: Policy, history: seq<Decision>, now: int)
    requires ClockMonotone(history, now)
    ensures var d := Decide(s, p, history, now);
      var off := !p.enabled || p.off;
      var allowed := "*" in p.eligible || s.failureClass in p.eligible;
      var open := !off && !p.activeSelfRepair && allowed;
      var hourLeft := CountIn(history, now - HOUR, HOUR) < p.maxPerHour;
      var dayLeft := CountIn(history, now - DAY, DAY) < p.maxPerDay;
      && d.problem == s.problem && d.at == Some(now)
      && (d.verdict == Skipped(Disabled) <==> off)
      && (d.verdict == Skipped(SelfRepairActive) <==> !off && p.activeSelfRepair)
      && (d.verdict == Skipped(NotEligible) <==> !off && !p.activeSelfRepair && !allowed)
      && (d.verdict == Skipped(HourlyBudget) <==> open && !hourLeft)
      && (d.verdict == Skipped(DailyBudget) <==> open && hourLeft && !dayLeft)
      && (d.verdict == Skipped(Cooldown) <==> open && hourLeft && dayLeft && Cooling(s, p, history, now))
      && (d.verdict == Accepted <==> open && hourLeft && dayLeft && !Cooling(s, p, history, now))
  {
    AcceptsExactly(s, p, history, now);
    RecentIsWindow(history, now, HOUR);
    RecentIsWindow(history, now, DAY);
  }

  /** What a caller that persists accepted decisions only leaves out. */
  lemma {:induction false} KeptExactly(ds: seq<Decision>, acceptedOnly: bool)
    ensures forall d :: d in Kept(ds, acceptedOnly) <==> d in ds && (d.verdict.Accepted? || !acceptedOnly)
    ensures !acceptedOnly ==> Kept(ds, acceptedOnly) == ds
  {
    if ds != [] {
      var n := |ds| - 1;
      assert ds == ds[..n] + [ds[n]];
      KeptExactly(ds[..n], acceptedOnly);
    }
  }

  /** The policy can accept something. */
  predicate Acting(p: Policy) {
    && p.enabled && !p.off && !p.activeSelfRepair && p.eligible != {}
    && p.maxPerHour >= 1 && p.maxPerDay >= 1
  }

  /** The longest cooldown in minutes that the policy keeps: an hour, because the check only
      looks at the decisions of the last hour, or a day if the daily budget is one. */
  function KeptMinutes(p: Policy): int { if p.maxPerDay == 1 then 24 * 60 else 60 }

  /** The whole cooldown is kept on every scan. */
  ghost predicate KeepsCooldown(p: Policy) {
    forall calls: seq<Call> | (forall k :: 0 <= k < |calls| ==> calls[k].policy == p) ::
      Apart(Scan([], calls), p.cooldownMinutes * MINUTE)
  }

  lemma FirstAccepted(p: Policy, s: Signal, now: int)
    requires Acting(p) && ClassAllowed(s.failureClass, p.eligible)
    ensures Decide(s, p, [], now).verdict.Accepted?
  {
  }

  lemma SecondAccepted(p: Policy, s: Signal, first: Decision, now: int)
    requires Acting(p) && ClassAllowed(s.failureClass, p.eligible) && p.cooldownMinutes > KeptMinutes(p)
    requires first == Decision(Accepted, s.problem, Some(0)) && now == KeptMinutes(p) * MINUTE + 1
    ensures Decide(s, p, [first], now).verdict.Accepted?
  {
    assert [first][..0] == [] && RecentAccepted([], now, HOUR) == [] && RecentAccepted([], now, DAY) == [];
    assert RecentAccepted([first], now, HOUR) == [];
    assert RecentAccepted([first], now, DAY) == if p.maxPerDay == 1 then [] else [first];
  }

  lemma ScanTwo(a: Call, b: Call)
    ensures var first := Decide(a.signal, a.policy, [], a.now);
      Scan([], [a, b]) == [first, Decide(b.signal, b.policy, [first], b.now)]
  {
    var first := Decide(a.signal, a.policy, [], a.now);
    assert [a, b][..1] == [a] && [a][..0] == [];
    assert Scan([], []) == [] && [] + Scan([], []) == [];
    assert Scan([], [a]) == [first] && [] + [first] == [first];
  }

  /** Two triggers on one problem, a moment further apart than what is kept, are both
      accepted. */
  lemma LongCooldownBroken(p: Policy)
    requires Acting(p) && p.cooldownMinutes > KeptMinutes(p)
    ensures !KeepsCooldown(p)
  {
    var c :| c in p.eligible;
    var s, now := Signal(c, ""), KeptMinutes(p) * MINUTE + 1;
    var calls := [Call(s, p, 0), Call(s, p, now)];
    FirstAccepted(p, s, 0);
    ScanTwo(calls[0], calls[1]);
    var ds := Scan([], calls);
    SecondAccepted(p, s, ds[0], now);
    TooClose(ds[0], ds[1], p.cooldownMinutes * MINUTE);
    assert forall k :: 0 <= k < |calls| ==> calls[k].policy == p;
  }

  lemma TooClose(a: Decision, b: Decision, gap: int)
    requires a.verdict.Accepted? && b.verdict.Accepted? && a.at.Some? && b.at.Some? && a.problem == b.problem
    requires b.at.value - a.at.value <= gap
    ensures !Apart([a, b], gap)
  {
    var ds := [a, b];
    assert ds[0] == a && ds[1] == b;
  }

  lemma {:induction false} IdleScan(p: Policy, history: seq<Decision>, calls: seq<Call>)
    requires !Acting(p) && forall k :: 0 <= k < |calls| ==> calls[k].policy == p
    ensures forall k :: 0 <= k < |Scan(history, calls)| ==> !Scan(history, calls)[k].verdict.Accepted?
  {
    if calls != [] { IdleScan(p, history, calls[..|calls| - 1]); }
  }

  /** With a daily budget of one, an accepted decision is more than a day after every
      earlier one. */
  lemma {:induction false} DayApart(p: Policy, calls: seq<Call>)
    requires p.maxPerDay == 1 && forall k :: 0 <= k < |calls| ==> calls[k].policy == p
    ensures Apart(Scan([], calls), DAY)
  {
    if calls != [] {
      var n := |calls| - 1;
      DayApart(p, calls[..n]);
      var history := Scan([], calls[..n]);
      assert [] + history == history;
      var d := Decide(calls[n].signal, p, history, calls[n].now);
      assert Scan([], calls) == history + [d];
      DayLater(calls[n].signal, p, history, calls[n].now);
    }
  }

  lemma DayLater(s: Signal, p: Policy, history: seq<Decision>, now: int)
    requires p.maxPerDay == 1 && Apart(history, DAY)
    ensures Apart(history + [Decide(s, p, history, now)], DAY)
  {
    var d := Decide(s, p, history, now);
    forall i | 0 <= i < |history| && d.verdict.Accepted? && history[i].verdict.Accepted? && history[i].at.Some?
      ensures now - history[i].at.value > DAY
    {
      if Recent(history[i], now, DAY) { RecentHas(history, now, DAY, i); }
    }
    ApartSnoc(history, d, DAY);
  }

  lemma ApartSnoc(history: seq<Decision>, d: Decision, gap: int)
    requires Apart(history, gap)
    requires d.verdict.Accepted? && d.at.Some? ==>
      forall i :: 0 <= i < |history| && history[i].verdict.Accepted? && history[i].at.Some? ==>
        d.at.value - history[i].at.value > gap
    ensures Apart(history + [d], gap)
  {
  }

  lemma SoundEmpty(hourly: int, daily: int, cooldown: int)
    ensures Sound([], hourly, daily, cooldown)
  {
  }

  lemma HourApart(p: Policy, calls: seq<Call>)
    requires p.cooldownMinutes <= 60 && forall k :: 0 <= k < |calls| ==> calls[k].policy == p
    ensures Apart(Scan([], calls), p.cooldownMinutes * MINUTE)
  {
    SoundEmpty(p.maxPerHour, p.maxPerDay, p.cooldownMinutes);
    ScanSound([], calls, p.maxPerHour, p.maxPerDay, p.cooldownMinutes);
    SoundApart([] + Scan([], calls), p.maxPerHour, p.maxPerDay, p.cooldownMinutes);
    assert [] + Scan([], calls) == Scan([], calls);
  }

  lemma SoundApart(history: seq<Decision>, hourly: int, daily: int, cooldown: int)
    requires Sound(history, hourly, daily, cooldown) && cooldown <= 60
    ensures Apart(history, cooldown * MINUTE)
  {
    assert Gap(cooldown) == cooldown * MINUTE;
  }

  lemma ApartLess(history: seq<Decision>, gap: int, less: int)
    requires Apart(history, gap) && less <= gap
    ensures Apart(history, less)
  {
  }

  lemma ShortCooldownKept(p: Policy)
    requires p.cooldownMinutes <= KeptMinutes(p)
    ensures KeepsCooldown(p)
  {
    forall calls: seq<Call> | forall k :: 0 <= k < |calls| ==> calls[k].policy == p
      ensures Apart(Scan([], calls), p.cooldownMinutes * MINUTE)
    {
      if p.maxPerDay == 1 {
        DayApart(p, calls);
        ApartLess(Scan([], calls), DAY, p.cooldownMinutes * MINUTE);
      } else {
        HourApart(p, calls);
      }
    }
  }

  /** For every policy: it keeps its whole cooldown on every scan if and only if it never
      accepts anything, or the cooldown is at most 60 minutes, or at most a day with a daily
      budget of one. */
  lemma FullCooldownExactly(p: Policy)
    ensures KeepsCooldown(p) <==> !Acting(p) || p.cooldownMinutes <= KeptMinutes(p)
  {
    if !Acting(p) {
      forall calls: seq<Call> | forall k :: 0 <= k < |calls| ==> calls[k].policy == p
        ensures Apart(Scan([], calls), p.cooldownMinutes * MINUTE)
      {
        IdleScan(p, [], calls);
      }
    } else if p.cooldownMinutes <= KeptMinutes(p) {
      ShortCooldownKept(p);
    } else {
      LongCooldownBroken(p);
    }
  }
}
