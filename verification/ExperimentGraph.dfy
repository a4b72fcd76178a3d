/** The experiment graph: nodes merged from records, the best passed experiment, and the
    walk from it to the start of its line. */
module ExperimentGraph {
  import opened Options

  /** The node fields that selection and the walk read; scores are in hundredths. */
  datatype Node = Node(id: string, parent: string, gate: string, score: Option<int>, updatedAt: string)

  /** A record with its fields cleaned; "" stands for a missing or blank field, `score` is
      absent when the record has no score_total key. */
  datatype Record = Record(id: string, eventType: string, parent: string, gate: string,
                           score: Option<Option<int>>, updatedAt: string, at: string)

  type Nodes = map<string, Node>

  /** `_score` on a number of hundredths. */
  function Clamp(score: Option<int>): Option<int> {
    if score.None? then None
    else if score.value < 0 then Some(0)
    else if score.value > 10000 then Some(10000)
    else score
  }

  /** `ExperimentNode.merge`. */
  function Merge(n: Node, r: Record): Node {
    Node(n.id,
         if r.parent != "" then r.parent else n.parent,
         if r.gate != "" then r.gate else n.gate,
         if r.score.Some? then Clamp(r.score.value) else n.score,
         if r.updatedAt != "" then r.updatedAt else if r.eventType != "" && r.at != "" then r.at else n.updatedAt)
  }

  ghost predicate Valid(nodes: Nodes) {
    "" !in nodes && forall id :: id in nodes ==> nodes[id].id == id
  }

  predicate Passed(n: Node) { n.gate == "passed" && n.score.Some? }

  predicate IsRoot(nodes: Nodes, id: string)
    requires id in nodes
  {
    nodes[id].parent !in nodes
  }

  // ---------------------------------------------------------------------
  // The order of candidates
  // ---------------------------------------------------------------------

  /** Lexicographic order by code point. */
  predicate TextLess(a: string, b: string) {
    b != "" && (a == "" || a[0] < b[0] || (a[0] == b[0] && TextLess(a[1..], b[1..])))
  }

  predicate KeyLess(a: Node, b: Node)
    requires Passed(a) && Passed(b)
  {
    a.score.value < b.score.value
    || (a.score.value == b.score.value && TextLess(a.updatedAt, b.updatedAt))
    || (a.score.value == b.score.value && a.updatedAt == b.updatedAt && TextLess(a.id, b.id))
  }

  lemma {:induction false} TextTotal(a: string, b: string)
    ensures TextLess(a, b) || a == b || TextLess(b, a)
    decreases |a|
  {
    if a != "" && b != "" && a[0] == b[0] {
      TextTotal(a[1..], b[1..]);
      assert a == [a[0]] + a[1..] && b == [b[0]] + b[1..];
    }
  }

  lemma {:induction false} TextTransitive(a: string, b: string, c: string)
    requires TextLess(a, b) && TextLess(b, c)
    ensures TextLess(a, c)
    decreases |a|
  {
    if a != "" && a[0] == b[0] && b[0] == c[0] { TextTransitive(a[1..], b[1..], c[1..]); }
  }

  lemma KeyTransitive(a: Node, b: Node, c: Node)
    requires Passed(a) && Passed(b) && Passed(c) && KeyLess(a, b) && KeyLess(b, c)
    ensures KeyLess(a, c)
  {
    if TextLess(a.updatedAt, b.updatedAt) && TextLess(b.updatedAt, c.updatedAt) {
      TextTransitive(a.updatedAt, b.updatedAt, c.updatedAt);
    }
    if TextLess(a.id, b.id) && TextLess(b.id, c.id) { TextTransitive(a.id, b.id, c.id); }
  }

  lemma KeyTotal(a: Node, b: Node)
    requires Passed(a) && Passed(b) && a.id != b.id
    ensures KeyLess(a, b) || KeyLess(b, a)
  {
    TextTotal(a.updatedAt, b.updatedAt);
    TextTotal(a.id, b.id);
  }

  /** The passed node above all others, or none. */
  ghost predicate IsBest(nodes: Nodes, best: string) {
    if best == "" then forall id :: id in nodes ==> !Passed(nodes[id])
    else
      && best in nodes && Passed(nodes[best])
      && forall id :: id in nodes && Passed(nodes[id]) && id != best ==> KeyLess(nodes[id], nodes[best])
  }

  /** Both texts agree up to position k, and there the first ends or has the smaller
      character. */
  predicate SmallerAt(a: string, b: string, k: nat) {
    k <= |a| && k < |b| && a[..k] == b[..k] && (k < |a| ==> a[k] < b[k])
  }

  lemma SmallerNext(a: string, b: string, k: nat)
    requires a != "" && b != "" && a[0] == b[0]
    ensures SmallerAt(a, b, k + 1) <==> SmallerAt(a[1..], b[1..], k)
  {
    if k < |a| && k + 1 < |b| {
      assert a[..k + 1] == [a[0]] + a[1..][..k] && b[..k + 1] == [b[0]] + b[1..][..k];
      assert a[1..][..k] == a[..k + 1][1..] && b[1..][..k] == b[..k + 1][1..];
    }
  }

  /** Text order spelled out. */
  lemma {:induction false} TextLessExactly(a: string, b: string)
    ensures TextLess(a, b) <==> exists k: nat :: SmallerAt(a, b, k)
  {
    if a != "" && b != "" && a[0] == b[0] {
      TextLessExactly(a[1..], b[1..]);
      if k: nat :| SmallerAt(a[1..], b[1..], k) { SmallerNext(a, b, k); }
      if k: nat :| SmallerAt(a, b, k) { SmallerNext(a, b, k - 1); }
    } else if TextLess(a, b) {
      assert SmallerAt(a, b, 0);
    } else {
      forall k: nat
        ensures !SmallerAt(a, b, k)
      {
        if 0 < k <= |a| && k < |b| { assert a[..k][0] == a[0] && b[..k][0] == b[0]; }
      }
    }
  }

  /** The best experiment passed its gate with a score; none that did has a higher one, or the
      same with a later update, or the same of both with a later id.  There is none exactly
      if no experiment passed with a score. */
  lemma BestExactly(nodes: Nodes, best: string, id: string)
    requires Valid(nodes) && IsBest(nodes, best) && id in nodes && nodes[id].gate == "passed" && nodes[id].score.Some?
    ensures best in nodes && nodes[best].gate == "passed" && nodes[best].score.Some?
    ensures var b, n := nodes[best], nodes[id];
      && n.score.value <= b.score.value
      && (n.score.value == b.score.value ==> !TextLess(b.updatedAt, n.updatedAt))
      && (n.score.value == b.score.value && n.updatedAt == b.updatedAt ==> !TextLess(best, id))
  {
    var b, n := nodes[best], nodes[id];
    TextIrreflexive(b.updatedAt, n.updatedAt);
    TextIrreflexive(best, id);
  }

  lemma {:induction false} TextIrreflexive(a: string, b: string)
    ensures !TextLess(a, a) && !(TextLess(a, b) && TextLess(b, a))
    decreases |a|
  {
    if a != "" { TextIrreflexive(a[1..], if b != "" then b[1..] else ""); }
  }

  /** What a record changes in its node and what it keeps, field by field. */
  lemma MergeExactly(n: Node, r: Record)
    ensures var m := Merge(n, r);
      && m.id == n.id
      && (r.parent != "" ==> m.parent == r.parent) && (r.parent == "" ==> m.parent == n.parent)
      && (r.gate != "" ==> m.gate == r.gate) && (r.gate == "" ==> m.gate == n.gate)
      && (r.score.None? ==> m.score == n.score) && (r.score == Some(None) ==> m.score == None)
      && (r.updatedAt != "" ==> m.updatedAt == r.updatedAt)
      && (r.updatedAt == "" && r.eventType != "" && r.at != "" ==> m.updatedAt == r.at)
      && (r.updatedAt == "" && (r.eventType == "" || r.at == "") ==> m.updatedAt == n.updatedAt)
    ensures r.score.Some? && r.score.value.Some? ==>
      var x := r.score.value.value;
      && Merge(n, r).score.Some? && 0 <= Merge(n, r).score.value <= 10000
      && (0 <= x <= 10000 ==> Merge(n, r).score.value == x)
      && (x < 0 ==> Merge(n, r).score.value == 0) && (x > 10000 ==> Merge(n, r).score.value == 10000)
  {
  }

  /** The walk from an experiment: k parent steps, as long as they stay in the graph. */
  function Ancestor(nodes: Nodes, id: string, k: nat): Option<string> {
    if k == 0 then if id in nodes then Some(id) else None
    else
      var below := Ancestor(nodes, id, k - 1);
      if below.None? || below.value !in nodes || nodes[below.value].parent !in nodes then None
      else Some(nodes[below.value].parent)
  }

  /** A line of experiments, oldest first: each names the one before as its parent. */
  ghost predicate IsLine(nodes: Nodes, path: seq<string>) {
    && (forall i :: 0 <= i < |path| ==> path[i] in nodes)
    && (forall i, j :: 0 <= i < j < |path| ==> path[i] != path[j])
    && (forall i :: 0 <= i < |path| - 1 ==> nodes[path[i + 1]].parent == path[i])
  }

  class Graph {
    var nodes: Nodes

    constructor ()
      ensures nodes == map[] && Valid(nodes)
    {
      nodes := map[];
    }

    /** `add_record`: a record without an id changes nothing; any other creates its node if
        need be and merges into it. */
    method AddRecord(r: Record)
      requires Valid(nodes)
      modifies this
      ensures Valid(nodes)
      ensures r.id == "" ==> nodes == old(nodes)
      ensures r.id != "" ==> nodes.Keys == old(nodes).Keys + {r.id}
      ensures r.id != "" ==> forall id :: id in old(nodes) && id != r.id ==> nodes[id] == old(nodes)[id]
      ensures r.id != "" ==>
        nodes[r.id] == Merge(if r.id in old(nodes) then old(nodes)[r.id] else Node(r.id, "", "unknown", None, ""), r)
    {
      if r.id == "" {
        return;
      }
      var node := if r.id in nodes then nodes[r.id] else Node(r.id, "", "unknown", None, "");
      nodes := nodes[r.id := Merge(node, r)];
    }

    /** `best_experiment_id`. */
    method BestExperimentId() returns (best: string)
      requires Valid(nodes)
      ensures IsBest(nodes, best)
    {
      best := "";
      var left := nodes.Keys;
      while left != {}
        invariant left <= nodes.Keys
        invariant best == "" ==> forall id :: id in nodes.Keys - left ==> !Passed(nodes[id])
        invariant best != "" ==> best in nodes.Keys - left && Passed(nodes[best])
        invariant best != "" ==>
          forall id :: id in nodes.Keys - left && Passed(nodes[id]) && id != best ==> KeyLess(nodes[id], nodes[best])
        decreases left
      {
        var id :| id in left;
        if Passed(nodes[id]) {
          if best == "" {
            best := id;
          } else {
            KeyTotal(nodes[best], nodes[id]);
            if KeyLess(nodes[best], nodes[id]) {
              forall other | other in nodes.Keys - left && Passed(nodes[other]) && other != best
                ensures KeyLess(nodes[other], nodes[id])
              {
                KeyTransitive(nodes[other], nodes[best], nodes[id]);
              }
              best := id;
            }
          }
        }
        left := left - {id};
      }
    }

    /** `best_path`: for any records, parent cycles included, the walk ends with a
        duplicate-free line that leads to the best experiment and starts at a root or
        where its parent is already on the line. */
    method BestPath() returns (path: seq<string>)
      requires Valid(nodes)
      ensures IsLine(nodes, path)
      ensures path == [] ==> IsBest(nodes, "")
      ensures path != [] ==> path[|path| - 1] != "" && IsBest(nodes, path[|path| - 1])
      ensures path != [] ==> IsRoot(nodes, path[0]) || nodes[path[0]].parent in path
    {
      var best := BestExperimentId();
      if best == "" {
        return [];
      }
      path := [];
      var seen: set<string> := {};
      var current := Some(best);
      while current.Some? && current.value !in seen
        invariant seen == set id | id in path
        invariant IsLine(nodes, path) && seen <= nodes.Keys
        invariant current.Some? ==> current.value in nodes
        invariant path == [] ==> current == Some(best)
        invariant path != [] ==> path[|path| - 1] == best
        invariant path != [] ==> current == if nodes[path[0]].parent in nodes then Some(nodes[path[0]].parent) else None
        decreases nodes.Keys - seen
      {
        var id := current.value;
        seen := seen + {id};
        path := [id] + path;
        current := if nodes[id].parent in nodes then Some(nodes[id].parent) else None;
      }
    }
  }

  // ---------------------------------------------------------------------
  // When the line starts at a root
  // ---------------------------------------------------------------------

  lemma {:induction false} LineIsAncestors(nodes: Nodes, path: seq<string>, k: nat)
    requires IsLine(nodes, path) && k < |path|
    ensures Ancestor(nodes, path[|path| - 1], k) == Some(path[|path| - 1 - k])
  {
    if k > 0 {
      LineIsAncestors(nodes, path, k - 1);
      assert nodes[path[|path| - 1 - k + 1]].parent == path[|path| - 1 - k];
    }
  }

  lemma {:induction false} CycleNeverEnds(nodes: Nodes, path: seq<string>, k: nat)
    requires IsLine(nodes, path) && path != [] && nodes[path[0]].parent in path
    ensures Ancestor(nodes, path[|path| - 1], k).Some? && Ancestor(nodes, path[|path| - 1], k).value in path
  {
    if k > 0 {
      CycleNeverEnds(nodes, path, k - 1);
      var below := Ancestor(nodes, path[|path| - 1], k - 1).value;
      var i :| 0 <= i < |path| && path[i] == below;
      if i > 0 { assert nodes[path[i - 1 + 1]].parent == path[i - 1]; }
    }
  }

  predicate ReachesRoot(nodes: Nodes, id: string, k: nat) {
    var a := Ancestor(nodes, id, k);
    a.Some? && a.value in nodes && IsRoot(nodes, a.value)
  }

  ghost predicate EventuallyRoot(nodes: Nodes, id: string) { exists k: nat :: ReachesRoot(nodes, id, k) }

  /** The line of `best_path` starts at a root exactly when following parents from the best
      experiment ever reaches a root. */
  lemma StartsAtRootExactly(nodes: Nodes, path: seq<string>)
    requires IsLine(nodes, path) && path != []
    requires IsRoot(nodes, path[0]) || nodes[path[0]].parent in path
    ensures IsRoot(nodes, path[0]) <==> EventuallyRoot(nodes, path[|path| - 1])
  {
    var best := path[|path| - 1];
    if IsRoot(nodes, path[0]) {
      LineIsAncestors(nodes, path, |path| - 1);
      assert ReachesRoot(nodes, best, |path| - 1);
    } else {
      forall k: nat
        ensures !ReachesRoot(nodes, best, k)
      {
        CycleNeverEnds(nodes, path, k);
        CycleNeverEnds(nodes, path, k + 1);
      }
    }
  }

  /** With an acyclic parent relation, witnessed by a rank that drops towards the parent,
      the line always starts at a root. */
  lemma AcyclicStartsAtRoot(nodes: Nodes, path: seq<string>, rank: string -> nat)
    requires IsLine(nodes, path) && path != []
    requires IsRoot(nodes, path[0]) || nodes[path[0]].parent in path
    requires forall id :: id in nodes && nodes[id].parent in nodes ==> rank(nodes[id].parent) < rank(id)
    ensures IsRoot(nodes, path[0])
  {
    if nodes[path[0]].parent in path {
      var m :| 0 <= m < |path| && path[m] == nodes[path[0]].parent;
      RankRises(nodes, path, rank, m);
    }
  }

  lemma {:induction false} RankRises(nodes: Nodes, path: seq<string>, rank: string -> nat, m: nat)
    requires IsLine(nodes, path) && m < |path|
    requires forall id :: id in nodes && nodes[id].parent in nodes ==> rank(nodes[id].parent) < rank(id)
    ensures rank(path[0]) <= rank(path[m])
  {
    if m > 0 {
      RankRises(nodes, path, rank, m - 1);
      assert nodes[path[m - 1 + 1]].parent == path[m - 1];
    }
  }
}
