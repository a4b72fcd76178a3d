/** The closed loop driver: a bounded iteration with two streak counters, a budget and a
    priority order of stop reasons, proved against a description of the trace alone. */
module LoopDriver {
  import opened Options

  datatype Status = Passed | PassedAfterRework | Fatal | OtherStatus

  predicate Success(s: Status) { s.Passed? || s.PassedAfterRework? }

  /** The metrics of one iteration that a delta is computed from. */
  datatype Snapshot = Snapshot(healthy: int, critical: int, backlog: int, completed: int)

  datatype Verdict = Improved | Regressed | Unchanged

  /** `_classify_delta_verdict`. */
  function Classify(completed: int, critical: int, backlog: int, healthy: int): Verdict {
    if completed > 0 then Improved
    else if critical < 0 then Improved
    else if critical > 0 then Regressed
    else if backlog > 0 && completed == 0 then Regressed
    else if healthy > 0 then Improved
    else Unchanged
  }

  /** `compute_eval_delta`. */
  function Delta(prev: Snapshot, curr: Snapshot): Verdict {
    Classify(curr.completed - prev.completed, curr.critical - prev.critical,
             curr.backlog - prev.backlog, curr.healthy - prev.healthy)
  }

  /** What the injected functions report for one iteration; `spent` is the cost reading
      minus the baseline, absent when the tracker fails. */
  datatype Observation = Observation(
    status: Status, tasksDone: int, expectedDone: int, snapshot: Snapshot, spent: Option<real>)

  datatype Config = Config(maxIterations: int, budget: real)

  datatype Final = Done | Converged | BudgetExhausted | NoProgress | MaxIterUnmet | Running

  /** `LoopState`: the counters the driver mutates. */
  class LoopState {
    var cost: real
    var consecutivePassed: nat
    var consecutiveRegressed: nat

    constructor ()
      ensures cost == 0.0 && consecutivePassed == 0 && consecutiveRegressed == 0
    {
      cost, consecutivePassed, consecutiveRegressed := 0.0, 0, 0;
    }

    /** Steps h and h2 of one iteration; delta is absent in the first one. */
    method Update(o: Observation, delta: Option<Verdict>)
      modifies this
      ensures consecutivePassed ==
        if Success(o.status) && (delta.None? || !delta.value.Regressed?) then old(consecutivePassed) + 1 else 0
      ensures consecutiveRegressed == if delta.Some? && delta.value.Regressed? then old(consecutiveRegressed) + 1 else 0
      ensures cost == if o.spent.None? then old(cost) else if o.spent.value < 0.0 then 0.0 else o.spent.value
    {
      if Success(o.status) && (delta.None? || delta.value.Improved? || delta.value.Unchanged?) {
        consecutivePassed := consecutivePassed + 1;
      } else {
        consecutivePassed := 0;
      }
      if delta.Some? && delta.value.Regressed? {
        consecutiveRegressed := consecutiveRegressed + 1;
      } else {
        consecutiveRegressed := 0;
      }
      if o.spent.Some? {
        cost := if o.spent.value < 0.0 then 0.0 else o.spent.value;
      }
    }

    /** `should_stop_loop`; `Running` means keep going. */
    function ShouldStop(i: nat, o: Observation, cfg: Config): Final
      reads this
    {
      if cost >= cfg.budget then BudgetExhausted
      else if i >= cfg.maxIterations then
        if Success(o.status) && o.tasksDone >= o.expectedDone then Done else MaxIterUnmet
      else if consecutiveRegressed >= 3 then NoProgress
      else if consecutivePassed >= 2 then Converged
      else Running
    }
  }

  // ---------------------------------------------------------------------
  // The trace alone
  // ---------------------------------------------------------------------

  /** What the outside world reports in iteration 1, 2, 3, ... */
  type World = nat -> Observation

  function VerdictAt(w: World, i: nat): Verdict
    requires i >= 2
  {
    Delta(w(i - 1).snapshot, w(i).snapshot)
  }

  /** Iteration i succeeded and did not regress against the one before. */
  predicate PassedAt(w: World, i: nat) {
    i >= 1 && Success(w(i).status) && (i == 1 || !VerdictAt(w, i).Regressed?)
  }

  predicate RegressedAt(w: World, i: nat) {
    i >= 2 && VerdictAt(w, i).Regressed?
  }

  /** The n iterations up to i passed, and the one before them did not. */
  ghost predicate PassedStreak(w: World, i: nat, n: nat) {
    n <= i && (forall j: nat :: i - n < j <= i ==> PassedAt(w, j)) && (n < i ==> !PassedAt(w, i - n))
  }

  ghost predicate RegressedStreak(w: World, i: nat, n: nat) {
    n <= i && (forall j: nat :: i - n < j <= i ==> RegressedAt(w, j)) && (n < i ==> !RegressedAt(w, i - n))
  }

  /** The cost known after iteration i: the last reading that succeeded, not below zero. */
  function CostAt(w: World, i: nat): real {
    if i == 0 then 0.0
    else if w(i).spent.None? then CostAt(w, i - 1)
    else if w(i).spent.value < 0.0 then 0.0
    else w(i).spent.value
  }

  /** Why the loop must end after iteration i, told from the trace. */
  function Reason(w: World, cfg: Config, i: nat): Final {
    if CostAt(w, i) >= cfg.budget then BudgetExhausted
    else if i >= cfg.maxIterations then
      if Success(w(i).status) && w(i).tasksDone >= w(i).expectedDone then Done else MaxIterUnmet
    else if i >= 3 && RegressedAt(w, i) && RegressedAt(w, i - 1) && RegressedAt(w, i - 2) then NoProgress
    else if i >= 2 && PassedAt(w, i) && PassedAt(w, i - 1) then Converged
    else Running
  }

  /** No iteration before i has a reason to end the loop. */
  ghost predicate Quiet(w: World, cfg: Config, i: nat) {
    forall j :: 1 <= j < i ==> Reason(w, cfg, j) == Running
  }

  lemma QuietNext(w: World, cfg: Config, i: nat)
    requires Quiet(w, cfg, i) && (i >= 1 ==> Reason(w, cfg, i) == Running)
    ensures Quiet(w, cfg, i + 1)
  {
  }

  lemma LimitHasReason(w: World, cfg: Config)
    requires cfg.maxIterations >= 1
    ensures !Quiet(w, cfg, cfg.maxIterations + 1)
  {
    assert Reason(w, cfg, cfg.maxIterations) != Running;
  }

  /** `run_loop`: the driver refines the trace description.  With at least one iteration
      allowed it ends at the first iteration that has a reason, and never later than the
      limit; with none allowed it reports an unmet limit. */
  method RunLoop(w: World, cfg: Config) returns (iterations: nat, final: Final)
    ensures cfg.maxIterations >= 1 ==>
      && 1 <= iterations <= cfg.maxIterations
      && final == Reason(w, cfg, iterations) && final != Running
      && Quiet(w, cfg, iterations)
    ensures cfg.maxIterations < 1 ==> iterations == 0 && final == MaxIterUnmet
  {
    var state := new LoopState();
    final := Running;
    iterations := 0;
    var prev: Option<Snapshot> := None;
    var i := 1;
    while i <= cfg.maxIterations
      invariant 1 <= i && (cfg.maxIterations >= 1 ==> i <= cfg.maxIterations + 1)
      invariant iterations == i - 1 && (cfg.maxIterations < 1 ==> i == 1)
      invariant prev == if i == 1 then None else Some(w(i - 1).snapshot)
      invariant Tracks(state, w, i - 1)
      invariant Quiet(w, cfg, i)
    {
      var decision := Iterate(state, w, cfg, i, prev);
      prev := Some(w(i).snapshot);
      iterations := i;
      if decision != Running {
        final := decision;
        return;
      }
      QuietNext(w, cfg, i);
      i := i + 1;
    }
    if cfg.maxIterations >= 1 {
      LimitHasReason(w, cfg);
      assert false;
    }
    final := MaxIterUnmet;
  }

  /** The counters equal the lengths of the matching suffixes of the trace. */
  ghost predicate Tracks(state: LoopState, w: World, i: nat)
    reads state
  {
    && PassedStreak(w, i, state.consecutivePassed)
    && RegressedStreak(w, i, state.consecutiveRegressed)
    && state.cost == CostAt(w, i)
  }

  /** Steps c, h and i of one iteration of `run_loop`. */
  method Iterate(state: LoopState, w: World, cfg: Config, i: nat, prev: Option<Snapshot>) returns (decision: Final)
    requires i >= 1 && Tracks(state, w, i - 1)
    requires prev == if i == 1 then None else Some(w(i - 1).snapshot)
    modifies state
    ensures Tracks(state, w, i) && decision == Reason(w, cfg, i)
  {
    var o := w(i);
    var delta := if prev.Some? then Some(Delta(prev.value, o.snapshot)) else None;
    state.Update(o, delta);
    StreaksDecide(w, i, state.consecutivePassed, state.consecutiveRegressed);
    decision := state.ShouldStop(i, o, cfg);
  }

  lemma StreaksDecide(w: World, i: nat, passed: nat, regressed: nat)
    requires PassedStreak(w, i, passed) && RegressedStreak(w, i, regressed)
    ensures regressed >= 3 <==> i >= 3 && RegressedAt(w, i) && RegressedAt(w, i - 1) && RegressedAt(w, i - 2)
    ensures passed >= 2 <==> i >= 2 && PassedAt(w, i) && PassedAt(w, i - 1)
  {
    if regressed < 3 && regressed < i { assert !RegressedAt(w, i - regressed); }
    if passed < 2 && passed < i { assert !PassedAt(w, i - passed); }
  }

  // ---------------------------------------------------------------------
  // What the counters and the stop reasons mean
  // ---------------------------------------------------------------------

  /** The two streaks exclude each other. */
  lemma NeverBothStreaks(w: World, i: nat, passed: nat, regressed: nat)
    requires PassedStreak(w, i, passed) && RegressedStreak(w, i, regressed)
    ensures passed == 0 || regressed == 0
  {
    assert passed > 0 ==> PassedAt(w, i);
    assert regressed > 0 ==> RegressedAt(w, i);
  }

  /** What each reason says about the trace, exactly, in the order in which they are asked. */
  lemma ReasonExactly(w: World, cfg: Config, i: nat)
    requires i >= 1
    ensures var r := Reason(w, cfg, i);
      var spent, last := CostAt(w, i) >= cfg.budget, i >= cfg.maxIterations;
      var good := w(i).status in {Passed, PassedAfterRework};
      var stuck := i >= 4 && forall j :: i - 2 <= j <= i ==> RegressedAt(w, j);
      var steady := i >= 2 && PassedAt(w, i) && PassedAt(w, i - 1);
      && (r == BudgetExhausted <==> spent)
      && (r == Done <==> !spent && last && good && w(i).tasksDone >= w(i).expectedDone)
      && (r == MaxIterUnmet <==> !spent && last && !(good && w(i).tasksDone >= w(i).expectedDone))
      && (r == NoProgress <==> !spent && !last && stuck)
      && (r == Converged <==> !spent && !last && !stuck && steady)
      && (r == Running <==> !spent && !last && !stuck && !steady)
  {
    assert RegressedAt(w, i) && i >= 1 ==> i >= 2;
  }

  /** How the verdict on two snapshots follows from them. */
  lemma VerdictExactly(prev: Snapshot, curr: Snapshot)
    ensures Delta(prev, curr).Regressed? <==>
      && curr.completed <= prev.completed && curr.critical >= prev.critical
      && (curr.critical > prev.critical || (curr.backlog > prev.backlog && curr.completed == prev.completed))
    ensures Delta(prev, curr).Improved? <==>
      || curr.completed > prev.completed || curr.critical < prev.critical
      || (curr.critical == prev.critical && curr.healthy > prev.healthy
          && (curr.backlog <= prev.backlog || curr.completed < prev.completed))
  {
  }

  /** What an iteration that passed or regressed looks like. */
  lemma IterationExactly(w: World, i: nat)
    requires i >= 1
    ensures RegressedAt(w, i) <==> i >= 2 && Delta(w(i - 1).snapshot, w(i).snapshot) == Regressed
    ensures PassedAt(w, i) <==> w(i).status in {Passed, PassedAfterRework} && !RegressedAt(w, i)
  {
  }

  /** The cost is the last reading, not below zero, or nothing before the first. */
  lemma {:induction false} CostExactly(w: World, i: nat)
    ensures (forall j :: 1 <= j <= i ==> w(j).spent.None?) ==> CostAt(w, i) == 0.0
    ensures forall k :: 1 <= k <= i && w(k).spent.Some? && (forall j :: k < j <= i ==> w(j).spent.None?) ==>
      CostAt(w, i) == (if w(k).spent.value < 0.0 then 0.0 else w(k).spent.value)
  {
    if i > 0 { CostExactly(w, i - 1); }
  }

  /** So no_progress needs four iterations and three deltas in which completed tasks did not
      rise; converged needs two successful iterations in a row, the second of which did not
      regress; done and an unmet limit come only at the limit. */
  lemma ReasonsMean(w: World, cfg: Config, i: nat)
    requires 1 <= i <= cfg.maxIterations
    ensures Reason(w, cfg, i).NoProgress? ==>
      && i >= 4 && i < cfg.maxIterations
      && w(i).snapshot.completed <= w(i - 1).snapshot.completed
      && w(i - 1).snapshot.completed <= w(i - 2).snapshot.completed <= w(i - 3).snapshot.completed
    ensures Reason(w, cfg, i).Converged? ==>
      && 2 <= i < cfg.maxIterations && Success(w(i).status) && Success(w(i - 1).status) && !RegressedAt(w, i)
    ensures Reason(w, cfg, i).Done? || Reason(w, cfg, i).MaxIterUnmet? ==> i == cfg.maxIterations
    ensures i == cfg.maxIterations ==> Reason(w, cfg, i) in {BudgetExhausted, Done, MaxIterUnmet}
  {
  }

  /** Regressed, unchanged, improved. */
  function Merit(v: Verdict): nat { if v.Regressed? then 0 else if v.Unchanged? then 1 else 2 }

  /** Fewer critical metrics, a smaller backlog or more healthy metrics never make a
      verdict worse.  More completed tasks do in exactly one case: losing tasks while the
      backlog grows is not a regression, but keeping their number is. */
  lemma VerdictMonotone(completed: int, completed': int, critical: int, critical': int,
                        backlog: int, backlog': int, healthy: int, healthy': int)
    requires critical' <= critical && backlog' <= backlog && healthy' >= healthy && completed' >= completed
    ensures Merit(Classify(completed, critical, backlog, healthy))
            <= Merit(Classify(completed, critical', backlog', healthy'))
    ensures Merit(Classify(completed, critical, backlog, healthy))
            <= Merit(Classify(completed', critical, backlog, healthy))
            <==> !(completed < 0 && completed' == 0 && critical == 0 && backlog > 0)
  {
  }
}
