/** Progress of the resident: how many ticks a backlog needs, and in which tick each
    planned action runs. */
module QueueDrain {
  import opened QueueModel
  import opened QueueLifecycle
  import opened QueueTheorems
  import QueueAnswers

  /** What an event log takes out of the pool, as (class, key) pairs. */
  function Gone(log: Log): set<(Class, string)> {
    (set e | e in log && e.kind.Resolves(Loop) :: (Loop, e.key)) +
    (set e | e in log && e.kind.Resolves(Evolution) :: (Evolution, e.key)) +
    (set e | e in log && e.kind.Resolves(Gate) :: (Gate, e.key))
  }

  function Without(plan: seq<Action>, gone: set<(Class, string)>): seq<Action> {
    if plan == [] then []
    else (if plan[0].Ident() in gone then [] else [plan[0]]) + Without(plan[1..], gone)
  }

  predicate NoRequests(log: Log) {
    forall e :: e in log ==> !e.kind.IsAnyRequest()
  }

  lemma {:induction false} WithoutConcat(a: seq<Action>, b: seq<Action>, gone: set<(Class, string)>)
    ensures Without(a + b, gone) == Without(a, gone) + Without(b, gone)
  {
    if a == [] {
      assert a + b == b;
    } else {
      assert (a + b)[1..] == a[1..] + b;
      WithoutConcat(a[1..], b, gone);
    }
  }

  lemma {:induction false} RequestsConcat(c: Class, a: Log, b: Log, gone: set<string>)
    requires NoRequests(b)
    ensures Requests(c, a + b, gone) == Requests(c, a, gone)
  {
    if b == [] {
      assert a + b == a;
    } else {
      var n := |b| - 1;
      assert (a + b)[..|a + b| - 1] == a + b[..n];
      RequestsConcat(c, a, b[..n], gone);
    }
  }

  lemma ActionsSnoc(c: Class, s: seq<Event>, t: seq<Event>)
    ensures Actions(c, s + t) == Actions(c, s) + Actions(c, t)
  {
  }

  lemma {:induction false} RequestsWithout(c: Class, log: Log, gone: set<string>, more: set<string>,
                                           pairs: set<(Class, string)>)
    requires forall key :: key in more <==> (c, key) in pairs
    ensures Actions(c, Requests(c, log, gone + more)) == Without(Actions(c, Requests(c, log, gone)), pairs)
  {
    if log != [] {
      var n := |log| - 1;
      var e := log[n];
      RequestsWithout(c, log[..n], gone, more, pairs);
      var head := Requests(c, log[..n], gone);
      var tail := if e.kind.IsRequest(c) && e.key !in gone then [e] else [];
      ActionsSnoc(c, head, tail);
      WithoutConcat(Actions(c, head), Actions(c, tail), pairs);
      var last := if e.kind.IsRequest(c) && e.key !in gone + more then [e] else [];
      ActionsSnoc(c, Requests(c, log[..n], gone + more), last);
      if tail != [] {
        assert Actions(c, tail) == [ActionOf(c, e)] && ActionOf(c, e).Ident() == (c, e.key);
        assert [ActionOf(c, e)][1..] == [];
      }
    }
  }

  lemma PendingAfter(c: Class, log: Log, more: Log)
    requires NoRequests(more)
    ensures Actions(c, Pending(c, log + more)) == Without(Actions(c, Pending(c, log)), Gone(more))
  {
    assert Resolved(c, log + more) == Resolved(c, log) + Resolved(c, more);
    RequestsConcat(c, log, more, Resolved(c, log + more));
    assert forall key :: key in Resolved(c, more) <==> (c, key) in Gone(more);
    RequestsWithout(c, log, Resolved(c, log), Resolved(c, more), Gone(more));
  }

  /** Appending anything but requests only takes resolved actions out of the plan, and
      keeps the order of the rest. */
  lemma PlanAfter(log: Log, more: Log)
    requires NoRequests(more)
    ensures Plan(log + more) == Without(Plan(log), Gone(more))
  {
    PendingAfter(Evolution, log, more);
    PendingAfter(Loop, log, more);
    PendingAfter(Gate, log, more);
    var e, l := Actions(Evolution, Pending(Evolution, log)), Actions(Loop, Pending(Loop, log));
    WithoutConcat(e, l, Gone(more));
    WithoutConcat(e + l, Actions(Gate, Pending(Gate, log)), Gone(more));
  }

  function Idents(plan: seq<Action>): set<(Class, string)> { set a | a in plan :: a.Ident() }

  lemma IdentsSnoc(plan: seq<Action>)
    requires plan != []
    ensures Idents(plan) == Idents(plan[..|plan| - 1]) + {plan[|plan| - 1].Ident()}
  {
    assert plan == plan[..|plan| - 1] + [plan[|plan| - 1]];
  }

  lemma AppendGone(a: Log, b: Log)
    requires NoRequests(a) && NoRequests(b)
    ensures NoRequests(a + b) && Gone(a + b) == Gone(a) + Gone(b)
  {
    GoneConcat(a, b);
  }

  lemma GoneConcat(a: Log, b: Log)
    ensures Gone(a + b) == Gone(a) + Gone(b)
  {
  }

  lemma ExecuteResolves(a: Action, out: Outcome, e: Event)
    requires e in Execute(a, out)
    ensures e.key == a.key && !e.kind.IsAnyRequest()
    ensures forall c: Class :: e.kind.Resolves(c) ==> c == a.class_
  {
    match a.class_ {
      case Loop =>
      case Evolution =>
      case Gate =>
    }
  }

  lemma ExecuteGone(a: Action, out: Outcome)
    ensures Gone(Execute(a, out)) == {a.Ident()}
    ensures NoRequests(Execute(a, out))
  {
    var es := Execute(a, out);
    forall e | e in es
      ensures e.key == a.key && !e.kind.IsAnyRequest()
      ensures forall c: Class :: e.kind.Resolves(c) ==> c == a.class_
    {
      ExecuteResolves(a, out, e);
    }
    var w := if a.class_.Evolution? then 1 else 0;
    assert es[w] in es && es[w].kind.Resolves(a.class_);
  }

  lemma {:induction false} ExecuteAllGone(plan: seq<Action>, outs: nat -> Outcome)
    ensures Gone(ExecuteAll(plan, outs)) == Idents(plan)
    ensures NoRequests(ExecuteAll(plan, outs))
  {
    if plan != [] {
      var n := |plan| - 1;
      ExecuteAllGone(plan[..n], outs);
      ExecuteGone(plan[n], outs(n));
      AppendGone(ExecuteAll(plan[..n], outs), Execute(plan[n], outs(n)));
      IdentsSnoc(plan);
    }
  }

  lemma AcksGone(plan: seq<Action>, accepted: set<string>)
    ensures Gone(Acks(plan, accepted)) == {} && NoRequests(Acks(plan, accepted))
  {
    AcksKeys(plan, accepted);
  }

  predicate DistinctPlan(plan: seq<Action>) {
    forall i, j :: 0 <= i < j < |plan| ==> plan[i].Ident() != plan[j].Ident()
  }

  /** In a reachable log only review gate requests could share an id. */
  lemma ReachablePlanDistinct(moves: seq<Move>)
    requires DistinctKeys(Pending(Gate, Run(moves).log))
    ensures DistinctPlan(Plan(Run(moves).log))
  {
    RunInv(moves);
    OrderlyPrefix(Run(moves).log, Run(moves).todo);
    PlanOnce(Run(moves).log);
  }

  lemma {:induction false} WithoutAll(plan: seq<Action>, gone: set<(Class, string)>)
    requires forall a :: a in plan ==> a.Ident() in gone
    ensures Without(plan, gone) == []
  {
    if plan != [] { WithoutAll(plan[1..], gone); }
  }

  lemma {:induction false} WithoutNone(plan: seq<Action>, gone: set<(Class, string)>)
    requires forall a :: a in plan ==> a.Ident() !in gone
    ensures Without(plan, gone) == plan
  {
    if plan != [] { WithoutNone(plan[1..], gone); }
  }

  lemma SuffixNotInPrefix(plan: seq<Action>, n: nat, a: Action)
    requires n <= |plan| && DistinctPlan(plan) && a in plan[n..]
    ensures a.Ident() !in Idents(plan[..n])
  {
    var j :| n <= j < |plan| && plan[j] == a;
    forall i | 0 <= i < n
      ensures plan[..n][i].Ident() != a.Ident()
    {
      assert plan[i].Ident() != plan[j].Ident();
    }
  }

  lemma WithoutSplit(prefix: seq<Action>, suffix: seq<Action>, gone: set<(Class, string)>)
    requires forall a :: a in prefix ==> a.Ident() in gone
    requires forall a :: a in suffix ==> a.Ident() !in gone
    ensures Without(prefix + suffix, gone) == suffix
  {
    WithoutAll(prefix, gone);
    WithoutNone(suffix, gone);
    WithoutConcat(prefix, suffix, gone);
  }

  lemma SuffixDisjoint(plan: seq<Action>, n: nat)
    requires n <= |plan| && DistinctPlan(plan)
    ensures forall a :: a in plan[n..] ==> a.Ident() !in Idents(plan[..n])
  {
    forall a | a in plan[n..]
      ensures a.Ident() !in Idents(plan[..n])
    {
      SuffixNotInPrefix(plan, n, a);
    }
  }

  lemma WithoutPrefix(plan: seq<Action>, n: nat)
    requires n <= |plan| && forall a :: a in plan[n..] ==> a.Ident() !in Idents(plan[..n])
    ensures Without(plan, Idents(plan[..n])) == plan[n..]
  {
    WithoutSplit(plan[..n], plan[n..], Idents(plan[..n]));
    assert plan == plan[..n] + plan[n..];
  }

  lemma TickGone(plan: seq<Action>, accepted: set<string>, n: nat, outs: nat -> Outcome)
    requires n <= |plan|
    ensures var more := Acks(plan, accepted) + ExecuteAll(plan[..n], outs);
      Gone(more) == Idents(plan[..n]) && NoRequests(more)
  {
    AcksGone(plan, accepted);
    ExecuteAllGone(plan[..n], outs);
    AppendGone(Acks(plan, accepted), ExecuteAll(plan[..n], outs));
  }

  /** A tick takes out of the plan whatever has the id of an action it serves. */
  lemma TickPlan(log: Log, cap: int, stop: nat, outs: nat -> Outcome)
    ensures var n := Served(|Plan(log)|, cap, stop);
      Plan(log + TickAppends(log, cap, stop, outs)) == Without(Plan(log), Idents(Plan(log)[..n]))
  {
    TickGone(Plan(log), Accepted(log), Served(|Plan(log)|, cap, stop), outs);
    PlanAfter(log, TickAppends(log, cap, stop, outs));
  }

  /** One undisturbed tick consumes exactly the actions it serves: the next plan is the
      rest of this one, in the same order. */
  lemma TickConsumesPrefix(log: Log, cap: int, stop: nat, outs: nat -> Outcome)
    requires DistinctPlan(Plan(log))
    ensures Plan(log + TickAppends(log, cap, stop, outs)) == Plan(log)[Served(|Plan(log)|, cap, stop)..]
  {
    var n := Served(|Plan(log)|, cap, stop);
    TickPlan(log, cap, stop, outs);
    SuffixDisjoint(Plan(log), n);
    WithoutPrefix(Plan(log), n);
  }

  // ---------------------------------------------------------------------
  // Draining a backlog
  // ---------------------------------------------------------------------

  /** One authorized tick under cap k that nobody stops. */
  ghost predicate FullTick(before: Log, after: Log, k: nat, outs: nat -> Outcome) {
    after == before + TickAppends(before, k, |Plan(before)|, outs)
  }

  /** The logs between consecutive ticks, with no arrivals, stops or crashes; outs(i)
      gives the outcomes of tick i. */
  ghost predicate Undisturbed(logs: seq<Log>, k: nat, outs: nat -> (nat -> Outcome)) {
    logs != [] && k >= 1 && forall i :: 0 <= i < |logs| - 1 ==> TickAt(logs, k, outs, i)
  }

  ghost predicate TickAt(logs: seq<Log>, k: nat, outs: nat -> (nat -> Outcome), i: nat) {
    i + 1 < |logs| && FullTick(logs[i], logs[i + 1], k, outs(i))
  }

  ghost predicate Draining(logs: seq<Log>, k: nat, outs: nat -> (nat -> Outcome)) {
    Undisturbed(logs, k, outs) && DistinctPlan(Plan(logs[0]))
  }

  /** s without its first n elements, or nothing if there are fewer. */
  function Drop<T>(s: seq<T>, n: nat): seq<T> { if n <= |s| then s[n..] else [] }

  lemma DropTwice<T>(s: seq<T>, m: nat, n: nat)
    ensures Drop(Drop(s, m), n) == Drop(s, m + n)
  {
  }

  lemma MulMonotone(a: nat, b: nat, k: nat)
    requires a <= b
    ensures a * k <= b * k
  {
    assert (b - a) * k >= 0;
  }

  predicate Drops(before: seq<Action>, after: seq<Action>, k: nat) {
    DistinctPlan(before) ==> after == Drop(before, k)
  }

  lemma DropNext(first: seq<Action>, before: seq<Action>, after: seq<Action>, m: nat, k: nat)
    requires DistinctPlan(first) && before == Drop(first, m) && Drops(before, after, k)
    ensures after == Drop(first, m + k)
  {
    DropTwice(first, m, k);
  }

  lemma NextDrops(logs: seq<Log>, k: nat, outs: nat -> (nat -> Outcome), i: nat)
    requires Undisturbed(logs, k, outs) && i + 1 < |logs|
    ensures Drops(Plan(logs[i]), Plan(logs[i + 1]), k)
  {
    assert TickAt(logs, k, outs, i);
    if DistinctPlan(Plan(logs[i])) { TickConsumesPrefix(logs[i], k, |Plan(logs[i])|, outs(i)); }
  }

  lemma {:induction false} DropRepeatedly(plans: seq<seq<Action>>, k: nat, t: nat)
    requires t < |plans| && DistinctPlan(plans[0])
    requires forall i :: 0 <= i < |plans| - 1 ==> Drops(plans[i], plans[i + 1], k)
    ensures plans[t] == Drop(plans[0], t * k)
  {
    if t > 0 {
      DropRepeatedly(plans, k, t - 1);
      assert Drops(plans[t - 1], plans[t - 1 + 1], k);
      DropNext(plans[0], plans[t - 1], plans[t], (t - 1) * k, k);
      assert t * k == (t - 1) * k + k;
    }
  }

  function Plans(logs: seq<Log>): seq<seq<Action>> {
    seq(|logs|, i requires 0 <= i < |logs| => Plan(logs[i]))
  }

  lemma PlansDrop(logs: seq<Log>, k: nat, outs: nat -> (nat -> Outcome))
    requires Undisturbed(logs, k, outs)
    ensures forall i :: 0 <= i < |logs| - 1 ==> Drops(Plans(logs)[i], Plans(logs)[i + 1], k)
  {
    forall i | 0 <= i < |logs| - 1
      ensures Drops(Plans(logs)[i], Plans(logs)[i + 1], k)
    {
      NextDrops(logs, k, outs, i);
    }
  }

  lemma PlanAfterTicks(logs: seq<Log>, k: nat, outs: nat -> (nat -> Outcome), t: nat)
    requires Draining(logs, k, outs) && t < |logs|
    ensures Plan(logs[t]) == Drop(Plan(logs[0]), t * k)
  {
    PlansDrop(logs, k, outs);
    DropRepeatedly(Plans(logs), k, t);
  }

  /** The actions a full tick serves. */
  function ServedBy(log: Log, k: nat): seq<Action> { Plan(log)[..Served(|Plan(log)|, k, |Plan(log)|)] }

  /** The action at position p of the backlog is served by tick p / k (counting from 0)
      and by no other. */
  lemma ServedInItsTick(logs: seq<Log>, k: nat, outs: nat -> (nat -> Outcome), t: nat, p: nat)
    requires Draining(logs, k, outs) && t < |logs| && p < |Plan(logs[0])|
    ensures Plan(logs[0])[p] in ServedBy(logs[t], k) <==> t == p / k
  {
    PlanAfterTicks(logs, k, outs, t);
    InSlice(Plan(logs[0]), t * k, k, p);
    TickOfPosition(p, k, t);
  }

  lemma InSlice(plan: seq<Action>, m: nat, k: nat, p: nat)
    requires k >= 1 && DistinctPlan(plan) && p < |plan|
    ensures var now := Drop(plan, m);
      plan[p] in now[..Served(|now|, k, |now|)] <==> m <= p < m + k
  {
    var now := Drop(plan, m);
    var n := Served(|now|, k, |now|);
    if m <= p < m + k {
      assert now[..n][p - m] == plan[p];
    } else {
      forall i | 0 <= i < n
        ensures now[i] != plan[p]
      {
        assert now[i] == plan[m + i];
      }
    }
  }

  lemma TickOfPosition(p: nat, k: nat, t: nat)
    requires k >= 1
    ensures t * k <= p < t * k + k <==> t == p / k
  {
    var q := p / k;
    assert q * k <= p < q * k + k;
    if t < q {
      MulMonotone(t + 1, q, k);
      assert (t + 1) * k == t * k + k;
    } else if q < t {
      MulMonotone(q + 1, t, k);
      assert (q + 1) * k == q * k + k;
    }
  }

  lemma {:induction false} WithoutShorter(plan: seq<Action>, gone: set<(Class, string)>)
    ensures |Without(plan, gone)| <= |plan|
  {
    if plan != [] { WithoutShorter(plan[1..], gone); }
  }

  lemma RestShorter(plan: seq<Action>, n: nat)
    requires n <= |plan|
    ensures |Without(plan, Idents(plan[..n]))| <= |plan| - n
  {
    WithoutConcat(plan[..n], plan[n..], Idents(plan[..n]));
    assert plan == plan[..n] + plan[n..];
    WithoutAll(plan[..n], Idents(plan[..n]));
    WithoutShorter(plan[n..], Idents(plan[..n]));
  }

  predicate Shrinks(before: int, after: int, amount: int) { after <= before - amount || after == 0 }

  /** A full tick takes at least k actions off the plan, or all of them. */
  lemma FullTickShortens(before: Log, after: Log, k: nat, outs: nat -> Outcome)
    requires k >= 1 && FullTick(before, after, k, outs)
    ensures Shrinks(|Plan(before)|, |Plan(after)|, k)
  {
    TickPlan(before, k, |Plan(before)|, outs);
    RestShorter(Plan(before), Served(|Plan(before)|, k, |Plan(before)|));
  }

  lemma {:induction false} ShrinkRepeatedly(sizes: seq<int>, k: nat, t: nat)
    requires t < |sizes| && forall i :: 0 <= i < |sizes| - 1 ==> Shrinks(sizes[i], sizes[i + 1], k)
    requires forall i :: 0 <= i < |sizes| ==> sizes[i] >= 0
    ensures Shrinks(sizes[0], sizes[t], t * k)
  {
    if t > 0 {
      ShrinkRepeatedly(sizes, k, t - 1);
      assert Shrinks(sizes[t - 1], sizes[t - 1 + 1], k);
      assert t * k == (t - 1) * k + k;
    }
  }

  lemma NextShrinks(logs: seq<Log>, k: nat, outs: nat -> (nat -> Outcome), i: nat)
    requires Undisturbed(logs, k, outs) && i + 1 < |logs|
    ensures Shrinks(|Plan(logs[i])|, |Plan(logs[i + 1])|, k)
  {
    assert TickAt(logs, k, outs, i);
    FullTickShortens(logs[i], logs[i + 1], k, outs(i));
  }

  lemma BacklogShrinks(logs: seq<Log>, k: nat, outs: nat -> (nat -> Outcome), t: nat)
    requires Undisturbed(logs, k, outs) && t < |logs|
    ensures Shrinks(|Plan(logs[0])|, |Plan(logs[t])|, t * k)
  {
    var sizes := seq(|logs|, i requires 0 <= i < |logs| => |Plan(logs[i])|);
    forall i | 0 <= i < |logs| - 1
      ensures Shrinks(sizes[i], sizes[i + 1], k)
    {
      NextShrinks(logs, k, outs, i);
    }
    ShrinkRepeatedly(sizes, k, t);
  }

  /** On any log, ids distinct or not, t undisturbed ticks take t * k actions off the plan,
      so a backlog of n is drained from tick ceil(n / k) on. */
  lemma DrainsInTime(logs: seq<Log>, k: nat, outs: nat -> (nat -> Outcome), t: nat)
    requires Undisturbed(logs, k, outs) && t < |logs|
    ensures Shrinks(|Plan(logs[0])|, |Plan(logs[t])|, t * k)
    ensures t >= (|Plan(logs[0])| + k - 1) / k ==> Plan(logs[t]) == []
  {
    BacklogShrinks(logs, k, outs, t);
    CeilDiv(|Plan(logs[0])|, k, t);
  }

  /** With distinct ids a backlog of n actions is drained after t ticks exactly when t * k >= n, that is
      from tick ceil(n / k) on. */
  lemma DrainBound(logs: seq<Log>, k: nat, outs: nat -> (nat -> Outcome), t: nat)
    requires Draining(logs, k, outs) && t < |logs|
    ensures Plan(logs[t]) == [] <==> t * k >= |Plan(logs[0])|
    ensures Plan(logs[t]) == [] <==> t >= (|Plan(logs[0])| + k - 1) / k
  {
    PlanAfterTicks(logs, k, outs, t);
    CeilDiv(|Plan(logs[0])|, k, t);
  }

  lemma TickReachable(moves: seq<Move>, log: Log, cap: int, stop: nat, outs: nat -> Outcome)
    returns (more: seq<Move>)
    requires Run(moves) == State(log, [])
    ensures Run(moves + more) == State(log + TickAppends(log, cap, stop, outs), [])
  {
    var all := TickAppends(log, cap, stop, outs);
    TickPrefixReachable(moves, cap, stop, outs, |all|);
    more := [Tick(cap, stop, outs)] + Appends(|all|);
    assert moves + more == moves + [Tick(cap, stop, outs)] + Appends(|all|) && all[..|all|] == all;
  }

  lemma Continue(moves: seq<Move>, prior: seq<Move>, before: Log, after: Log, k: nat, outs: nat -> Outcome)
    returns (more: seq<Move>)
    requires Run(moves + prior) == State(before, []) && FullTick(before, after, k, outs)
    ensures Run(moves + more) == State(after, [])
  {
    var next := TickReachable(moves + prior, before, k, |Plan(before)|, outs);
    more := prior + next;
    RunAssociative(moves, prior, next);
  }

  lemma RunAssociative(a: seq<Move>, b: seq<Move>, c: seq<Move>)
    ensures Run(a + (b + c)) == Run((a + b) + c)
  {
    assert a + (b + c) == (a + b) + c;
  }

  lemma {:induction false} TicksReachable(moves: seq<Move>, logs: seq<Log>, k: nat,
                                          outs: nat -> (nat -> Outcome), t: nat)
    returns (more: seq<Move>)
    requires Undisturbed(logs, k, outs) && t < |logs| && Run(moves) == State(logs[0], [])
    ensures Run(moves + more) == State(logs[t], [])
  {
    if t == 0 {
      more := [];
      assert moves + more == moves;
    } else {
      var prior := TicksReachable(moves, logs, k, outs, t - 1);
      assert TickAt(logs, k, outs, t - 1);
      more := Continue(moves, prior, logs[t - 1], logs[t], k, outs(t - 1));
    }
  }

  /** From every idle state of every run, whatever crashes came before: undisturbed ticks
      continue the run, and they drain its plan from tick ceil(n / k) on, if the pending
      review gates have distinct ids. */
  lemma ReachableDrains(moves: seq<Move>, logs: seq<Log>, k: nat, outs: nat -> (nat -> Outcome), t: nat)
    returns (more: seq<Move>)
    requires Undisturbed(logs, k, outs) && t < |logs| && Run(moves) == State(logs[0], [])
    requires DistinctKeys(Pending(Gate, logs[0]))
    ensures Run(moves + more) == State(logs[t], [])
    ensures Plan(logs[t]) == [] <==> t >= (|Plan(logs[0])| + k - 1) / k
  {
    ReachablePlanDistinct(moves);
    DrainBound(logs, k, outs, t);
    more := TicksReachable(moves, logs, k, outs, t);
  }

  lemma CeilDiv(n: nat, k: nat, t: nat)
    requires k >= 1
    ensures t * k >= n <==> t >= (n + k - 1) / k
  {
    var c := (n + k - 1) / k;
    assert c * k <= n + k - 1 < c * k + k;
    if t >= c {
      MulMonotone(c, t, k);
    } else {
      MulMonotone(t + 1, c, k);
      assert (t + 1) * k == t * k + k;
    }
  }

  // ---------------------------------------------------------------------
  // Acknowledgement
  // ---------------------------------------------------------------------

  /** The first authorized tick acknowledges every runnable loop and evolution request,
      also those beyond the cap or after a stop. */
  lemma FirstTickAcknowledgesAll(log: Log, cap: int, stop: nat, outs: nat -> Outcome, a: Action)
    requires a in Plan(log) && a.Acknowledged() && a.key != ""
    ensures a.key in Accepted(log + TickAppends(log, cap, stop, outs))
  {
    var acks := Acks(Plan(log), Accepted(log));
    QueueAnswers.AcksCover(Plan(log), Accepted(log), a);
    AcksKeys(Plan(log), Accepted(log));
    if a.key !in Accepted(log) {
      var e :| e in acks && e.key == a.key;
      assert e in log + TickAppends(log, cap, stop, outs);
    } else {
      var e :| e in log && (e.kind.LoopAccepted? || (e.kind.EvoAccepted? && e.key != "")) && e.key == a.key;
      assert e in log + TickAppends(log, cap, stop, outs);
    }
  }
}
