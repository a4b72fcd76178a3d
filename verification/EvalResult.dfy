/** Eval results: gate status, weighted score, comparison, and the round trip through a
    JSON document.  Scores and weights are real numbers; totals are whole hundredths. */
module EvalResult {
  import opened Text

  const DEFAULT_WEIGHTS: map<string, real> := map[
    "correctness" := 0.30, "regression" := 0.15, "stability" := 0.15, "harness_recovery" := 0.15,
    "context_safety" := 0.10, "coordination" := 0.05, "cost_efficiency" := 0.05, "learning_value" := 0.05]

  datatype Result = Result(gates: seq<string>, scores: map<string, real>, weights: map<string, real>)

  // ---------------------------------------------------------------------
  // Gates
  // ---------------------------------------------------------------------

  datatype GateStatus = GateFailed | GatePassed | GateUnknown

  predicate Blocking(status: string) { status == "failed" || status == "blocked" || status == "rejected" }

  predicate Passing(status: string) { status == "passed" || status == "skipped" || status == "not_applicable" }

  /** `gate_status`. */
  function Gate(gates: seq<string>): GateStatus {
    if exists k :: 0 <= k < |gates| && Blocking(gates[k]) then GateFailed
    else if exists k :: 0 <= k < |gates| && gates[k] == "passed" then GatePassed
    else if gates != [] && forall k :: 0 <= k < |gates| ==> Passing(gates[k]) then GatePassed
    else GateUnknown
  }

  /** What each status of a set of gates means. */
  lemma GateExactly(gates: seq<string>)
    ensures var blocked := exists k :: 0 <= k < |gates| && gates[k] in {"failed", "blocked", "rejected"};
      var green := forall k :: 0 <= k < |gates| ==> gates[k] in {"passed", "skipped", "not_applicable"};
      && (Gate(gates) == GateFailed <==> blocked)
      && (Gate(gates) == GatePassed <==> !blocked && ("passed" in gates || (gates != [] && green)))
  {
  }

  /** One blocking gate fails any set of gates it joins; an explicit pass counts unless a
      gate blocks, while skipped gates alone pass only if no other kind is among them. */
  lemma GatesCombine(a: seq<string>, b: seq<string>)
    ensures Gate(a + b).GateFailed? <==> Gate(a).GateFailed? || Gate(b).GateFailed?
    ensures "passed" in a && !Gate(a + b).GateFailed? ==> Gate(a + b).GatePassed?
    ensures Gate(a + b) == Gate(b + a)
  {
    assert forall k :: 0 <= k < |a| ==> (a + b)[k] == a[k] && (b + a)[|b| + k] == a[k];
    assert forall k :: 0 <= k < |b| ==> (a + b)[|a| + k] == b[k] && (b + a)[k] == b[k];
  }

  // ---------------------------------------------------------------------
  // The weighted total
  // ---------------------------------------------------------------------

  function Clamp(score: real): (r: real)
    ensures 0.0 <= r <= 100.0 && (score <= r ==> r == score || r == 0.0) && (score >= r ==> r == score || r == 100.0)
  {
    if score < 0.0 then 0.0 else if score > 100.0 then 100.0 else score
  }

  /** The dimensions that count, scored and with a positive weight: the weight and the
      clamped score of each. */
  function Active(r: Result): map<string, (real, real)> {
    map k | k in r.weights && k in r.scores && r.weights[k] > 0.0 :: (r.weights[k], Clamp(r.scores[k]))
  }

  /** The weight and the weighted score of each. */
  function Weigh(active: map<string, (real, real)>): map<string, (real, real)> {
    map k | k in active :: WeighOne(active[k])
  }

  function WeighOne(p: (real, real)): (real, real) { (p.0, p.1 * p.0) }

  ghost function Pick(active: map<string, (real, real)>): (k: string)
    requires active != map[]
    ensures k in active
  {
    var k :| k in active; k
  }

  function Add(a: (real, real), b: (real, real)): (real, real) { (a.0 + b.0, a.1 + b.1) }

  /** The sum of weights and the sum of weighted scores. */
  ghost function Sums(active: map<string, (real, real)>): (real, real)
    decreases |active|
  {
    if active == map[] then (0.0, 0.0)
    else
      var k := Pick(active);
      Add(Sums(active - {k}), active[k])
  }

  /** Rounding to the nearest integer, halves to even. */
  function Round(x: real): (n: int)
    ensures -0.5 <= n as real - x <= 0.5 && (n as real - x == 0.5 || n as real - x == -0.5 ==> n % 2 == 0)
  {
    var f := x.Floor;
    var rest := x - f as real;
    if rest < 0.5 || (rest == 0.5 && f % 2 == 0) then f else f + 1
  }

  /** `total_score`, in hundredths. */
  ghost function Total(r: Result): int {
    var (ws, total) := Sums(Weigh(Active(r)));
    if ws <= 0.0 then 0 else Round(total / ws * 100.0)
  }

  lemma RoundMonotone(x: real, y: real)
    requires x <= y
    ensures Round(x) <= Round(y)
  {
  }

  lemma MulLess(a: real, b: real, w: real)
    requires w > 0.0 && a < b
    ensures a * w < b * w
  {
    assert (b - a) * w > 0.0;
  }

  /** A weighted score between lo and hi times its weight. */
  predicate Between(lo: real, hi: real, p: (real, real)) {
    p.0 >= 0.0 && lo * p.0 <= p.1 <= hi * p.0
  }

  lemma BetweenAdd(lo: real, hi: real, a: (real, real), b: (real, real))
    requires Between(lo, hi, a) && Between(lo, hi, b)
    ensures Between(lo, hi, Add(a, b))
  {
    assert lo * (a.0 + b.0) == lo * a.0 + lo * b.0;
    assert hi * (a.0 + b.0) == hi * a.0 + hi * b.0;
  }

  lemma {:induction false} SumsBounded(active: map<string, (real, real)>, lo: real, hi: real)
    requires forall k :: k in active ==> active[k].0 > 0.0 && Between(lo, hi, active[k])
    ensures Between(lo, hi, Sums(active))
    ensures active != map[] ==> Sums(active).0 > 0.0
    decreases |active|
  {
    if active == map[] {
      assert Sums(active) == (0.0, 0.0);
    } else {
      var k := Pick(active);
      SumsBounded(active - {k}, lo, hi);
      BetweenAdd(lo, hi, Sums(active - {k}), active[k]);
    }
  }

  lemma MulAtMost(a: real, b: real, w: real)
    requires w > 0.0 && a <= b
    ensures a * w <= b * w
  {
    if a < b { MulLess(a, b, w); }
  }

  lemma DivCancel(x: real, w: real)
    requires w > 0.0
    ensures x / w * w == x
  {
  }

  lemma MulCancel(a: real, b: real, w: real)
    requires w > 0.0 && a * w <= b * w
    ensures a <= b
  {
    if b < a { MulLess(b, a, w); }
  }

  lemma QuotientBounded(lo: real, hi: real, p: (real, real))
    requires p.0 > 0.0 && Between(lo, hi, p)
    ensures lo <= p.1 / p.0 <= hi
  {
    DivCancel(p.1, p.0);
    MulCancel(lo, p.1 / p.0, p.0);
    MulCancel(p.1 / p.0, hi, p.0);
  }

  /** The total lies between the least and the greatest score that counts, up to rounding. */
  lemma TotalBounded(r: Result, lo: real, hi: real)
    requires Active(r) != map[]
    requires forall k :: k in Active(r) ==> lo <= Clamp(r.scores[k]) <= hi
    ensures Round(lo * 100.0) <= Total(r) <= Round(hi * 100.0)
  {
    var some :| some in Active(r);
    assert some in Weigh(Active(r));
    forall k | k in Weigh(Active(r))
      ensures Weigh(Active(r))[k].0 > 0.0 && Between(lo, hi, Weigh(Active(r))[k])
    {
      WeighBetween(Active(r), lo, hi, k);
    }
    SumsBounded(Weigh(Active(r)), lo, hi);
    var sums := Sums(Weigh(Active(r)));
    QuotientBounded(lo, hi, sums);
    RoundedBetween(lo, hi, sums.1 / sums.0);
  }

  lemma EntryBetween(lo: real, hi: real, w: real, s: real)
    requires w > 0.0 && lo <= s <= hi
    ensures Between(lo, hi, (w, s * w))
  {
    MulAtMost(lo, s, w);
    MulAtMost(s, hi, w);
  }

  lemma WeighBetween(active: map<string, (real, real)>, lo: real, hi: real, k: string)
    requires k in active && active[k].0 > 0.0 && lo <= active[k].1 <= hi
    ensures Weigh(active)[k].0 > 0.0 && Between(lo, hi, Weigh(active)[k])
  {
    var (w, s) := active[k];
    EntryBetween(lo, hi, w, s);
  }

  lemma RoundedBetween(lo: real, hi: real, x: real)
    requires lo <= x <= hi
    ensures Round(lo * 100.0) <= Round(x * 100.0) <= Round(hi * 100.0)
  {
    RoundMonotone(lo * 100.0, x * 100.0);
    RoundMonotone(x * 100.0, hi * 100.0);
  }

  /** A list of weights and scores. */
  type Dimensions = seq<(real, real)>

  function WeightSum(ds: Dimensions): real { if ds == [] then 0.0 else WeightSum(ds[1..]) + ds[0].0 }

  function ScoreSum(ds: Dimensions): real { if ds == [] then 0.0 else ScoreSum(ds[1..]) + ds[0].1 * ds[0].0 }

  /** The list names each key once and gives its weight and score. */
  ghost predicate Enumerates(keys: seq<string>, ds: Dimensions, active: map<string, (real, real)>) {
    && |ds| == |keys| && (forall k :: k in active <==> k in keys)
    && (forall i, j :: 0 <= i < j < |keys| ==> keys[i] != keys[j])
    && forall i :: 0 <= i < |keys| ==> Entry(active, keys[i], ds[i])
  }

  predicate Entry(active: map<string, (real, real)>, key: string, d: (real, real)) { key in active && active[key] == d }

  lemma {:induction false} SumsAny(active: map<string, (real, real)>, k: string)
    requires k in active
    ensures Sums(active) == Add(Sums(active - {k}), active[k])
    decreases |active|
  {
    var p := Pick(active);
    if p != k {
      SumsAny(active - {p}, k);
      SumsAny(active - {k}, p);
      assert active - {p} - {k} == active - {k} - {p};
    }
  }

  lemma RestEnumerated(active: map<string, (real, real)>, keys: seq<string>, ds: Dimensions)
    requires keys != [] && Enumerates(keys, ds, active)
    ensures Enumerates(keys[1..], ds[1..], active - {keys[0]})
  {
    var rest := keys[1..];
    forall i | 0 <= i < |rest|
      ensures rest[i] != keys[0] && Entry(active - {keys[0]}, rest[i], ds[1..][i])
    {
      assert Entry(active, keys[i + 1], ds[i + 1]);
    }
  }

  lemma WeighRest(active: map<string, (real, real)>, key: string)
    ensures Weigh(active) - {key} == Weigh(active - {key})
  {
    assert forall k :: k in active && k != key ==> (active - {key})[k] == active[k];
  }

  lemma SumsStep(active: map<string, (real, real)>, key: string, d: (real, real))
    requires Entry(active, key, d)
    ensures Sums(Weigh(active)) == Add(Sums(Weigh(active - {key})), WeighOne(d))
  {
    SumsAny(Weigh(active), key);
    WeighRest(active, key);
  }

  function ListSums(ds: Dimensions): (real, real) { (WeightSum(ds), ScoreSum(ds)) }

  lemma ListStep(ds: Dimensions)
    requires ds != []
    ensures ListSums(ds) == Add(ListSums(ds[1..]), WeighOne(ds[0]))
  {
  }

  lemma {:induction false} SumsListed(active: map<string, (real, real)>, keys: seq<string>, ds: Dimensions)
    requires Enumerates(keys, ds, active)
    ensures Sums(Weigh(active)) == ListSums(ds)
    decreases |keys|
  {
    if keys == [] {
      assert active == map[] && Weigh(active) == map[];
    } else {
      RestEnumerated(active, keys, ds);
      SumsListed(active - {keys[0]}, keys[1..], ds[1..]);
      SumsStep(active, keys[0], ds[0]);
      ListStep(ds);
    }
  }

  /** A dimension counts exactly if it is scored and its weight is positive, with that weight
      and the clamped score. */
  lemma ActiveExactly(r: Result, key: string)
    ensures key in Active(r) <==> key in r.scores && key in r.weights && r.weights[key] > 0.0
    ensures key in Active(r) ==> Active(r)[key] == (r.weights[key], Clamp(r.scores[key]))
  {
  }

  /** The total is the weighted mean of the scores that count, in hundredths, whatever order
      they are added up in; without one it is 0. */
  lemma TotalIsWeightedMean(r: Result, keys: seq<string>, ds: Dimensions)
    requires Enumerates(keys, ds, Active(r))
    ensures keys == [] ==> Total(r) == 0
    ensures keys != [] ==> WeightSum(ds) > 0.0 && Total(r) == Round(ScoreSum(ds) / WeightSum(ds) * 100.0)
  {
    SumsListed(Active(r), keys, ds);
    forall i | 0 <= i < |ds|
      ensures ds[i].0 > 0.0
    {
      assert Entry(Active(r), keys[i], ds[i]);
    }
    PositiveSum(ds);
  }

  lemma {:induction false} PositiveSum(ds: Dimensions)
    requires forall i :: 0 <= i < |ds| ==> ds[i].0 > 0.0
    ensures WeightSum(ds) >= 0.0 && (ds != [] ==> WeightSum(ds) > 0.0)
  {
    if ds != [] { PositiveSum(ds[1..]); }
  }

  /** The total is between 0 and 100. */
  lemma TotalInRange(r: Result)
    ensures 0 <= Total(r) <= 10000
  {
    if Active(r) == map[] {
      assert Weigh(Active(r)) == map[];
    } else {
      TotalBounded(r, 0.0, 100.0);
    }
  }

  // ---------------------------------------------------------------------
  // Comparison
  // ---------------------------------------------------------------------

  datatype Winner = Baseline | Candidate | Neither | Tie

  predicate GateOk(r: Result) { Gate(r.gates).GatePassed? }

  /** `compare_eval_results`; the threshold is in hundredths as well. */
  ghost function Compare(baseline: Result, candidate: Result, minDelta: real): Winner {
    var delta := (Total(candidate) - Total(baseline)) as real;
    if GateOk(baseline) && !GateOk(candidate) then Baseline
    else if GateOk(candidate) && !GateOk(baseline) then Candidate
    else if !GateOk(baseline) && !GateOk(candidate) then Neither
    else if delta > minDelta then Candidate
    else if delta < -minDelta then Baseline
    else Tie
  }

  /** Who wins, exactly: a result beats another if its gate passes and the other's does not,
      or both pass and its total is higher by more than the threshold; nobody wins if neither
      gate passes, and two passed results tie within the threshold. */
  lemma CompareExactly(a: Result, b: Result, minDelta: real)
    requires minDelta >= 0.0
    ensures var ahead := (Total(b) - Total(a)) as real;
      var okA, okB := Gate(a.gates) == GatePassed, Gate(b.gates) == GatePassed;
      && (Compare(a, b, minDelta) == Candidate <==> okB && (!okA || ahead > minDelta))
      && (Compare(a, b, minDelta) == Baseline <==> okA && (!okB || -ahead > minDelta))
      && (Compare(a, b, minDelta) == Neither <==> !okA && !okB)
      && (Compare(a, b, minDelta) == Tie <==> okA && okB && -minDelta <= ahead <= minDelta)
  {
  }

  function Swapped(w: Winner): Winner {
    match w
    case Baseline => Candidate
    case Candidate => Baseline
    case _ => w
  }

  const PLAIN := Result(["passed"], map[], map[])

  /** Swapping the arguments swaps the winner for all pairs exactly when the threshold is
      not negative. */
  lemma SwapSymmetricExactly(minDelta: real)
    ensures (forall a, b :: Compare(b, a, minDelta) == Swapped(Compare(a, b, minDelta))) <==> minDelta >= 0.0
  {
    if minDelta < 0.0 {
      assert PLAIN.gates[0] == "passed";
      assert Compare(PLAIN, PLAIN, minDelta) == Candidate;
    }
  }

  ghost predicate Beats(a: Result, b: Result, minDelta: real) { Compare(b, a, minDelta).Candidate? }

  /** Beating is a strict order for every non-negative threshold. */
  lemma BeatsStrictOrder(a: Result, b: Result, c: Result, minDelta: real)
    requires minDelta >= 0.0
    ensures !Beats(a, a, minDelta)
    ensures Beats(a, b, minDelta) && Beats(b, c, minDelta) ==> Beats(a, c, minDelta)
  {
  }

  // ---------------------------------------------------------------------
  // Serialization
  // ---------------------------------------------------------------------

  /** A JSON object of numbers: its members in order. */
  type Object = seq<(string, real)>

  datatype Document = Document(gates: seq<string>, dimensions: Object, weights: Object)

  /** The object holds exactly the entries of the map, each key once. */
  ghost predicate Lists(o: Object, m: map<string, real>) {
    && (forall k :: 0 <= k < |o| ==> o[k].0 in m && m[o[k].0] == o[k].1)
    && (forall j, k :: 0 <= j < k < |o| ==> o[j].0 != o[k].0)
    && (forall key :: key in m ==> exists k :: 0 <= k < |o| && o[k].0 == key)
  }

  /** `to_dict`, whatever order the dictionaries are written in. */
  ghost predicate Serializes(d: Document, r: Result) {
    d.gates == r.gates && Lists(d.dimensions, r.scores) && Lists(d.weights, r.weights)
  }

  function Lower(s: string): string {
    seq(|s|, i requires 0 <= i < |s| => if 'A' <= s[i] <= 'Z' then (s[i] as int + 32) as char else s[i])
  }

  function CleanStatus(s: string): string { if Lower(Strip(s)) != "" then Lower(Strip(s)) else "unknown" }

  function Fill(base: map<string, real>, o: Object, value: real -> real): map<string, real> {
    if o == [] then base
    else
      var n := |o| - 1;
      var filled := Fill(base, o[..n], value);
      if Strip(o[n].0) != "" then filled[Strip(o[n].0) := value(o[n].1)] else filled
  }

  function AtLeastZero(x: real): (r: real)
    ensures r >= 0.0 && r >= x && (r == x || r == 0.0)
  {
    if x < 0.0 then 0.0 else x
  }

  /** The loops over weights and dimensions. */
  method FillFrom(base: map<string, real>, o: Object, value: real -> real) returns (filled: map<string, real>)
    ensures filled == Fill(base, o, value)
  {
    filled := base;
    for i := 0 to |o|
      invariant filled == Fill(base, o[..i], value)
    {
      assert o[..i + 1][..i] == o[..i];
      var text := Strip(o[i].0);
      if text != "" { filled := filled[text := value(o[i].1)]; }
    }
    assert o[..|o|] == o;
  }

  /** `from_dict`: weights are laid over the defaults, scores are clamped, statuses cleaned. */
  method FromDict(d: Document) returns (r: Result)
    ensures LoadsAs(d, r)
  {
    var weights := FillFrom(DEFAULT_WEIGHTS, d.weights, AtLeastZero);
    var scores := FillFrom(map[], d.dimensions, Clamp);
    var gates := seq(|d.gates|, i requires 0 <= i < |d.gates| => CleanStatus(d.gates[i]));
    r := Result(gates, scores, weights);
  }

  /** A result as `from_dict` would read it back. */
  ghost predicate LoadsOver(defaults: map<string, real>, d: Document, r: Result) {
    && r.scores == Fill(map[], d.dimensions, Clamp)
    && r.weights == Fill(defaults, d.weights, AtLeastZero)
    && |r.gates| == |d.gates| && forall k :: 0 <= k < |d.gates| ==> r.gates[k] == CleanStatus(d.gates[k])
  }

  ghost predicate LoadsAs(d: Document, r: Result) { LoadsOver(DEFAULT_WEIGHTS, d, r) }

  predicate CleanKeys(m: map<string, real>) { forall key :: key in m ==> key != "" && Trimmed(key) }

  lemma {:induction false} FillMisses(base: map<string, real>, o: Object, value: real -> real, key: string)
    requires forall k :: 0 <= k < |o| ==> Trimmed(o[k].0) && o[k].0 != key
    ensures key in Fill(base, o, value) <==> key in base
    ensures key in base ==> Fill(base, o, value)[key] == base[key]
  {
    if o != [] {
      FillMisses(base, o[..|o| - 1], value, key);
      StripTrims(o[|o| - 1].0);
    }
  }

  lemma {:induction false} FillHits(base: map<string, real>, o: Object, value: real -> real, i: nat)
    requires forall k :: 0 <= k < |o| ==> o[k].0 != "" && Trimmed(o[k].0)
    requires i < |o| && forall k :: i < k < |o| ==> o[k].0 != o[i].0
    ensures o[i].0 in Fill(base, o, value) && Fill(base, o, value)[o[i].0] == value(o[i].1)
  {
    var n := |o| - 1;
    StripTrims(o[n].0);
    if i < n { FillHits(base, o[..n], value, i); }
  }

  /** Whatever the object: the last member whose key, stripped, is this one gives its value;
      without one the key is left as it was.  Blank keys are dropped. */
  lemma {:induction false} FillLast(base: map<string, real>, o: Object, value: real -> real, k: nat)
    requires k < |o| && Strip(o[k].0) != "" && forall m :: k < m < |o| ==> Strip(o[m].0) != Strip(o[k].0)
    ensures Holds(Fill(base, o, value), Strip(o[k].0), value(o[k].1))
  {
    var n := |o| - 1;
    if k < n { FillLast(base, o[..n], value, k); }
  }

  predicate Holds(m: map<string, real>, key: string, x: real) { key in m && m[key] == x }

  lemma {:induction false} FillOther(base: map<string, real>, o: Object, value: real -> real, key: string)
    requires key == "" || forall k :: 0 <= k < |o| ==> Strip(o[k].0) != key
    ensures key in Fill(base, o, value) <==> key in base
    ensures key in base ==> Fill(base, o, value)[key] == base[key]
  {
    if o != [] {
      var n := |o| - 1;
      assert key == "" || Strip(o[n].0) != key;
      FillOther(base, o[..n], value, key);
    }
  }

  /** Loading a listing of a map lays its values over the base. */
  lemma LoadedMap(base: map<string, real>, o: Object, m: map<string, real>, value: real -> real)
    requires Lists(o, m) && CleanKeys(m)
    ensures Fill(base, o, value).Keys == base.Keys + m.Keys
    ensures forall key :: key in m ==> Fill(base, o, value)[key] == value(m[key])
    ensures forall key :: key in base && key !in m ==> Fill(base, o, value)[key] == base[key]
  {
    forall key | key in m
      ensures key in Fill(base, o, value) && Fill(base, o, value)[key] == value(m[key])
    {
      var k :| 0 <= k < |o| && o[k].0 == key;
      FillHits(base, o, value, k);
    }
    forall key | key !in m
      ensures (key in Fill(base, o, value) <==> key in base) && (key in base ==> Fill(base, o, value)[key] == base[key])
    {
      FillMisses(base, o, value, key);
    }
  }

  /** The weights name every default dimension that is scored. */
  predicate CoversScored(defaults: map<string, real>, r: Result) {
    forall key :: key in defaults && key in r.scores ==> key in r.weights
  }

  lemma SameActive(defaults: map<string, real>, r: Result, loaded: Result)
    requires loaded.scores.Keys == r.scores.Keys && loaded.weights.Keys == defaults.Keys + r.weights.Keys
    requires forall key :: key in r.scores ==> loaded.scores[key] == Clamp(r.scores[key])
    requires forall key :: key in r.weights ==> loaded.weights[key] == AtLeastZero(r.weights[key])
    requires CoversScored(defaults, r)
    ensures Active(loaded) == Active(r)
  {
  }

  // ---------------------------------------------------------------------
  // Round trips
  // ---------------------------------------------------------------------

  /** A status as loading leaves it: not empty, trimmed and without capitals. */
  predicate Normal(status: string) {
    status != "" && Trimmed(status) && forall i :: 0 <= i < |status| ==> !('A' <= status[i] <= 'Z')
  }

  lemma LowerTrims(s: string)
    requires Trimmed(s)
    ensures Trimmed(Lower(s)) && forall i :: 0 <= i < |s| ==> !('A' <= Lower(s)[i] <= 'Z')
    ensures Lower(s) == s <==> forall i :: 0 <= i < |s| ==> !('A' <= s[i] <= 'Z')
  {
    if Lower(s) == s {
      assert forall i :: 0 <= i < |s| ==> Lower(s)[i] == s[i];
    }
  }

  /** Cleaning normalizes, and changes nothing exactly on normal statuses. */
  lemma CleanStatusNormal(s: string)
    ensures Normal(CleanStatus(s))
    ensures CleanStatus(s) == s <==> Normal(s)
  {
    StripTrims(s);
    LowerTrims(Strip(s));
    assert "unknown"[0] == 'u' && "unknown"[6] == 'n';
  }

  /** White space around a status and capitals in it do not matter; a blank one is unknown. */
  lemma CleanStatusPadded(a: string, t: string, b: string)
    requires Blank(a) && Blank(b) && Trimmed(t)
    ensures CleanStatus(a + t + b) == if t == "" then "unknown" else Lower(t)
  {
    StripPadded(a, t, b);
    assert |Lower(t)| == |t|;
  }

  /** Lowering changes the letters A to Z into a to z, in place. */
  lemma LowerExactly(s: string)
    ensures |Lower(s)| == |s|
    ensures forall i :: 0 <= i < |s| ==>
      Lower(s)[i] as int == s[i] as int + if 'A' <= s[i] <= 'Z' then 'a' as int - 'A' as int else 0
  {
  }

  lemma CleanStatusTwice(s: string)
    ensures CleanStatus(CleanStatus(s)) == CleanStatus(s)
  {
    CleanStatusNormal(s);
    CleanStatusNormal(CleanStatus(s));
  }

  lemma KnownStatusesNormal(status: string)
    requires Blocking(status) || Passing(status)
    ensures Normal(status)
  {
  }

  /** A status that reads as a blocking one only after cleaning. */
  predicate Hidden(status: string) { !Blocking(status) && Blocking(CleanStatus(status)) }

  /** Writing and loading a result keeps its statuses exactly if they are normal.  Whatever
      they are, a failed result stays failed, and a passed one stays passed exactly unless
      some status blocks only after cleaning. */
  lemma RoundTripGates(r: Result, d: Document, loaded: Result)
    requires Serializes(d, r) && LoadsAs(d, loaded)
    ensures loaded.gates == r.gates <==> forall k :: 0 <= k < |r.gates| ==> Normal(r.gates[k])
    ensures (forall k :: 0 <= k < |r.gates| ==> Normal(r.gates[k])) ==> Gate(loaded.gates) == Gate(r.gates)
    ensures Gate(r.gates).GateFailed? ==> Gate(loaded.gates).GateFailed?
    ensures Gate(r.gates).GatePassed? ==>
      (Gate(loaded.gates).GatePassed? <==> forall k :: 0 <= k < |r.gates| ==> !Hidden(r.gates[k]))
  {
    forall k | 0 <= k < |r.gates|
      ensures loaded.gates[k] == CleanStatus(r.gates[k])
      ensures loaded.gates[k] == r.gates[k] <==> Normal(r.gates[k])
      ensures Blocking(r.gates[k]) || Passing(r.gates[k]) ==> loaded.gates[k] == r.gates[k]
    {
      CleanStatusNormal(r.gates[k]);
      if Blocking(r.gates[k]) || Passing(r.gates[k]) { KnownStatusesNormal(r.gates[k]); }
    }
    GateOfCleaned(r.gates, loaded.gates);
  }

  lemma GateOfCleaned(gates: seq<string>, loaded: seq<string>)
    requires |loaded| == |gates| && forall k :: 0 <= k < |gates| ==> loaded[k] == CleanStatus(gates[k])
    requires forall k :: 0 <= k < |gates| && (Blocking(gates[k]) || Passing(gates[k])) ==> loaded[k] == gates[k]
    ensures Gate(gates).GateFailed? ==> Gate(loaded).GateFailed?
    ensures Gate(gates).GatePassed? ==>
      (Gate(loaded).GatePassed? <==> forall k :: 0 <= k < |gates| ==> !Hidden(gates[k]))
  {
  }

  lemma {:induction false} FillStable(base: map<string, real>, o: Object, value: real -> real)
    requires CleanKeys(base) && (forall x: real :: value(value(x)) == value(x))
    requires forall key :: key in base ==> value(base[key]) == base[key]
    ensures CleanKeys(Fill(base, o, value)) && base.Keys <= Fill(base, o, value).Keys
    ensures forall key :: key in Fill(base, o, value) ==> value(Fill(base, o, value)[key]) == Fill(base, o, value)[key]
  {
    if o != [] {
      var n := |o| - 1;
      FillStable(base, o[..n], value);
      StripTrims(o[n].0);
    }
  }

  /** Writing what was filled in and filling it in again changes nothing. */
  lemma FillAgain(base: map<string, real>, o: Object, again: Object, value: real -> real)
    requires CleanKeys(base) && (forall x: real :: value(value(x)) == value(x))
    requires forall key :: key in base ==> value(base[key]) == base[key]
    requires Lists(again, Fill(base, o, value))
    ensures Fill(base, again, value) == Fill(base, o, value)
  {
    FillStable(base, o, value);
    LoadedMap(base, again, Fill(base, o, value), value);
  }

  /** Loading is idempotent: whatever the document, writing a loaded result and loading it
      again returns the same result. */
  lemma LoadingIdempotent(d: Document, loaded: Result, written: Document, again: Result)
    requires LoadsAs(d, loaded) && Serializes(written, loaded) && LoadsAs(written, again)
    ensures again == loaded
  {
    FillAgain(map[], d.dimensions, written.dimensions, Clamp);
    DefaultWeightsClean();
    FillAgain(DEFAULT_WEIGHTS, d.weights, written.weights, AtLeastZero);
    forall k | 0 <= k < |d.gates|
      ensures again.gates[k] == loaded.gates[k]
    {
      CleanStatusTwice(d.gates[k]);
    }
  }

  /** Serializing and loading keeps the dimensions that count exactly if the weights cover
      every scored default dimension, and then it keeps the total. */
  lemma RoundTripTotal(defaults: map<string, real>, r: Result, d: Document, loaded: Result)
    requires CleanKeys(r.scores) && CleanKeys(r.weights) && forall key :: key in defaults ==> defaults[key] > 0.0
    requires Lists(d.dimensions, r.scores) && loaded.scores == Fill(map[], d.dimensions, Clamp)
    requires Lists(d.weights, r.weights) && loaded.weights == Fill(defaults, d.weights, AtLeastZero)
    ensures Active(loaded) == Active(r) <==> CoversScored(defaults, r)
    ensures CoversScored(defaults, r) ==> Total(loaded) == Total(r)
  {
    LoadedMap(map[], d.dimensions, r.scores, Clamp);
    LoadedMap(defaults, d.weights, r.weights, AtLeastZero);
    if CoversScored(defaults, r) {
      SameActive(defaults, r, loaded);
      TotalOfActive(loaded, r);
    } else {
      var key :| key in defaults && key in r.scores && key !in r.weights;
      ExtraActive(r, loaded, key);
    }
  }

  lemma ExtraActive(r: Result, loaded: Result, key: string)
    requires key in loaded.scores && key in loaded.weights && loaded.weights[key] > 0.0 && key !in r.weights
    ensures Active(loaded) != Active(r)
  {
    assert key in Active(loaded);
  }

  lemma TotalOfActive(a: Result, b: Result)
    requires Active(a) == Active(b)
    ensures Total(a) == Total(b)
  {
  }

  lemma OnlyDimension(r: Result, key: string, w: real)
    requires Active(r) == map[key := (w, 100.0)] && w > 0.0
    ensures Total(r) == 10000
  {
    var weighed := Weigh(Active(r));
    assert weighed == map[key := (w, 100.0 * w)];
    assert key in weighed && weighed.Keys == {key} && Pick(weighed) in weighed.Keys;
    assert weighed - {key} == map[];
    assert Sums(weighed) == (0.0 + w, 0.0 + 100.0 * w);
    QuotientBounded(100.0, 100.0, (w, 100.0 * w));
  }

  /** A default dimension that the weights leave out. */
  predicate Uncovered(defaults: map<string, real>, weights: map<string, real>, key: string) {
    key in defaults && key !in weights && defaults[key] > 0.0 && key != "" && Trimmed(key)
  }

  /** A result scored in one default dimension that its weights leave out: its total is 0
      before the round trip and 100 after it. */
  lemma UncoveredTotalChanges(defaults: map<string, real>, weights: map<string, real>, key: string,
                              d: Document, loaded: Result)
    requires CleanKeys(weights) && Uncovered(defaults, weights, key)
    requires Serializes(d, Result([], map[key := 100.0], weights)) && LoadsOver(defaults, d, loaded)
    ensures Total(Result([], map[key := 100.0], weights)) == 0 && Total(loaded) == 10000
  {
    var r := Result([], map[key := 100.0], weights);
    assert Active(r) == map[] && Weigh(Active(r)) == map[];
    LoadedMap(map[], d.dimensions, r.scores, Clamp);
    LoadedMap(defaults, d.weights, r.weights, AtLeastZero);
    assert loaded.scores == map[key := 100.0];
    assert Active(loaded) == map[key := (defaults[key], 100.0)];
    OnlyDimension(loaded, key, defaults[key]);
  }

  /** The total survives writing and loading, whatever was scored. */
  ghost predicate TotalSurvives(defaults: map<string, real>, weights: map<string, real>) {
    forall scores, d, loaded
      | CleanKeys(scores) && Serializes(d, Result([], scores, weights)) && LoadsOver(defaults, d, loaded) ::
      Total(loaded) == Total(Result([], scores, weights))
  }

  /** It does so for every way of scoring exactly when the weights name every default
      dimension. */
  lemma TotalSurvivesExactly(defaults: map<string, real>, weights: map<string, real>)
    requires CleanKeys(weights) && CleanKeys(defaults) && forall key :: key in defaults ==> defaults[key] > 0.0
    ensures TotalSurvives(defaults, weights) <==> defaults.Keys <= weights.Keys
  {
    if defaults.Keys <= weights.Keys {
      CoveredSurvives(defaults, weights);
    } else {
      var key :| key in defaults && key !in weights;
      UncoveredFails(defaults, weights, key);
    }
  }

  lemma CoveredSurvives(defaults: map<string, real>, weights: map<string, real>)
    requires CleanKeys(weights) && defaults.Keys <= weights.Keys
    requires forall key :: key in defaults ==> defaults[key] > 0.0
    ensures TotalSurvives(defaults, weights)
  {
    forall scores, d, loaded
      | CleanKeys(scores) && Serializes(d, Result([], scores, weights)) && LoadsOver(defaults, d, loaded)
      ensures Total(loaded) == Total(Result([], scores, weights))
    {
      RoundTripTotal(defaults, Result([], scores, weights), d, loaded);
    }
  }

  lemma ListingOfOne(key: string, x: real)
    ensures Lists([(key, x)], map[key := x])
  {
    assert [(key, x)][0].0 == key;
  }

  lemma UncoveredFails(defaults: map<string, real>, weights: map<string, real>, key: string)
    requires CleanKeys(weights) && Uncovered(defaults, weights, key)
    ensures !TotalSurvives(defaults, weights)
  {
    var r := Result([], map[key := 100.0], weights);
    var d := Document([], [(key, 100.0)], Listing(weights));
    ListingOfOne(key, 100.0);
    var loaded := Loaded(defaults, d);
    UncoveredTotalChanges(defaults, weights, key, d, loaded);
    TotalLost(defaults, r, d, loaded);
  }

  lemma TotalLost(defaults: map<string, real>, r: Result, d: Document, loaded: Result)
    requires r.gates == [] && CleanKeys(r.scores) && Serializes(d, r) && LoadsOver(defaults, d, loaded)
    ensures Total(loaded) != Total(r) ==> !TotalSurvives(defaults, r.weights)
  {
    assert r == Result([], r.scores, r.weights);
  }

  ghost function Loaded(defaults: map<string, real>, d: Document): (r: Result)
    requires d.gates == []
    ensures LoadsOver(defaults, d, r)
  {
    Result([], Fill(map[], d.dimensions, Clamp), Fill(defaults, d.weights, AtLeastZero))
  }

  predicate Word(s: string) { s != "" && 'a' <= s[0] <= 'z' && 'a' <= s[|s| - 1] <= 'z' }

  lemma DefaultWeightsWords(key: string)
    requires key in DEFAULT_WEIGHTS
    ensures Word(key) && DEFAULT_WEIGHTS[key] > 0.0
  {
  }

  lemma DefaultWeightsClean()
    ensures CleanKeys(DEFAULT_WEIGHTS) && forall key :: key in DEFAULT_WEIGHTS ==> DEFAULT_WEIGHTS[key] > 0.0
  {
    forall key | key in DEFAULT_WEIGHTS
      ensures key != "" && Trimmed(key) && DEFAULT_WEIGHTS[key] > 0.0
    {
      DefaultWeightsWords(key);
    }
  }

  /** With the defaults of the program: the weights must name all eight dimensions. */
  lemma DefaultTotalSurvivesExactly(weights: map<string, real>)
    requires CleanKeys(weights)
    ensures TotalSurvives(DEFAULT_WEIGHTS, weights) <==> DEFAULT_WEIGHTS.Keys <= weights.Keys
  {
    DefaultWeightsClean();
    TotalSurvivesExactly(DEFAULT_WEIGHTS, weights);
  }

  lemma ListSnoc(o: Object, m: map<string, real>, key: string)
    requires key in m && Lists(o, m - {key})
    ensures Lists(o + [(key, m[key])], m)
  {
    var longer := o + [(key, m[key])];
    forall other | other in m
      ensures exists k :: 0 <= k < |longer| && longer[k].0 == other
    {
      if other == key {
        assert longer[|o|].0 == key;
      } else {
        assert other in m - {key};
        var k :| 0 <= k < |o| && o[k].0 == other;
        assert longer[k].0 == other;
      }
    }
  }

  /** Some listing of a map. */
  ghost function Listing(m: map<string, real>): (o: Object)
    ensures Lists(o, m)
    decreases |m|
  {
    if m == map[] then []
    else
      var key :| key in m;
      ListSnoc(Listing(m - {key}), m, key);
      Listing(m - {key}) + [(key, m[key])]
  }
}
