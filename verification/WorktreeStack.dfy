/** Nested preparations: levels stacked on one worktree, each possibly crashed, then
    cleaned up newest first. */
module WorktreeStack {
  import opened Options
  import opened WorktreeModel
  import opened WorktreeRecovery

  /** One preparation of a stack: its inputs and the number of steps it got to. */
  datatype Level = Level(inputs: Inputs, steps: nat)

  predicate Valid(l: Level) { Sane(l.inputs) && l.steps <= Steps(l.inputs.flow) }

  predicate ValidStack(levels: seq<Level>) { forall k :: 0 <= k < |levels| ==> Valid(levels[k]) }

  function Reached(l: Level, t: Tree): State
    requires Valid(l)
  {
    Prepare(l.inputs, l.steps, Start(t))
  }

  /** The worktree before level k, that is after the k levels below it. */
  function TreeAt(levels: seq<Level>, t: Tree, k: nat): Tree
    requires ValidStack(levels) && k <= |levels|
  {
    if k == 0 then t else TreeAt(levels[1..], Reached(levels[0], t).tree, k - 1)
  }

  /** Prepare every level on top of the previous one, each in its own run directory, then
      clean up newest first. */
  function Unwind(levels: seq<Level>, t: Tree): Tree
    requires ValidStack(levels)
  {
    if levels == [] then t
    else
      var s := Reached(levels[0], t);
      Clean(levels[0].inputs.git, Unwind(levels[1..], s.tree), s.run)
  }

  // ---------------------------------------------------------------------
  // What the cleanup of one level does to whatever the levels above it left
  // ---------------------------------------------------------------------

  /** The level made a baseline commit. */
  predicate Commits(l: Level) { l.inputs.flow && l.inputs.git && l.inputs.staged && l.steps >= 14 }

  /** The journal of the level names a checkpoint. */
  predicate Records(l: Level) { l.inputs.flow && l.inputs.git && l.steps >= 15 }

  /** The journal of the level names a generated seed file. */
  predicate RecordsSeed(l: Level) { l.steps > SeedPhase(l.inputs.flow) }

  /** The level found no dependencies, and its journal claims these. */
  predicate Claims(l: Level, web: NodeModules) {
    var linked := l.inputs.sourceTsc && web == Link(l.inputs.sourceModules);
    if 9 <= l.steps <= 11 then linked || web.Dir?
    else l.steps >= 12 && l.inputs.hasPackage && (linked || (web.Dir? && !l.inputs.sourceTsc))
  }

  lemma CleanHead(l: Level, t: Tree, u: Tree)
    requires Valid(l)
    ensures var s := Reached(l, t);
      Clean(l.inputs.git, u, s.run).head
      == if Records(l) && u.head == s.tree.head && u.head.Child? then u.head.parent else u.head
    ensures Reached(l, t).tree.head == if Commits(l) then Child(l.inputs.commitId, t.head) else t.head
  {
    PrepareAt(l.inputs, t, l.steps);
  }

  lemma CleanSeed(l: Level, t: Tree, u: Tree)
    requires Valid(l)
    ensures Clean(l.inputs.git, u, Reached(l, t).run).seed
      == if RecordsSeed(l) && u.seed == Some(l.inputs.seedText) then t.seed else u.seed
  {
    PrepareAt(l.inputs, t, l.steps);
  }

  lemma CleanWebAt(l: Level, t: Tree, u: Tree)
    requires Valid(l)
    ensures Clean(l.inputs.git, u, Reached(l, t).run).web
      == if t.web.Absent? && Claims(l, u.web) then Absent else u.web
  {
    PrepareAt(l.inputs, t, l.steps);
  }

  // ---------------------------------------------------------------------
  // HEAD
  // ---------------------------------------------------------------------

  /** The commit of level k is recorded by its own level or by a later one before the next
      commit. */
  predicate CommitRecorded(levels: seq<Level>, k: nat)
    requires k < |levels|
  {
    exists j :: k <= j < |levels| && Records(levels[j]) && forall m :: k < m <= j ==> !Commits(levels[m])
  }

  predicate AllRecorded(levels: seq<Level>) {
    forall k :: 0 <= k < |levels| && Commits(levels[k]) ==> CommitRecorded(levels, k)
  }

  /** A level before the first commit records the HEAD it found. */
  predicate RecordsOldHead(levels: seq<Level>) {
    exists j :: 0 <= j < |levels| && Records(levels[j]) && forall m :: 0 <= m <= j ==> !Commits(levels[m])
  }

  lemma UnrollOldHead(levels: seq<Level>)
    requires levels != []
    ensures RecordsOldHead(levels) <==> !Commits(levels[0]) && (Records(levels[0]) || RecordsOldHead(levels[1..]))
  {
  }

  lemma UnrollFirstCommit(levels: seq<Level>)
    requires levels != []
    ensures CommitRecorded(levels, 0) <==> Records(levels[0]) || RecordsOldHead(levels[1..])
  {
    var rest := levels[1..];
    if j :| 0 <= j < |rest| && Records(rest[j]) && forall m :: 0 <= m <= j ==> !Commits(rest[m]) {
      forall m | 0 < m <= j + 1
        ensures !Commits(levels[m])
      {
        assert rest[m - 1] == levels[m];
      }
      assert Records(levels[j + 1]);
    }
  }

  lemma UnrollLaterCommit(levels: seq<Level>, k: nat)
    requires k + 1 < |levels|
    ensures CommitRecorded(levels, k + 1) <==> CommitRecorded(levels[1..], k)
  {
  }

  lemma UnrollRecorded(levels: seq<Level>)
    requires levels != []
    ensures AllRecorded(levels) <==>
      AllRecorded(levels[1..]) && (Commits(levels[0]) ==> Records(levels[0]) || RecordsOldHead(levels[1..]))
  {
    UnrollFirstCommit(levels);
    forall k | 0 <= k < |levels| - 1
      ensures levels[1..][k] == levels[k + 1] && (CommitRecorded(levels, k + 1) <==> CommitRecorded(levels[1..], k))
    {
      UnrollLaterCommit(levels, k);
    }
    if AllRecorded(levels[1..]) && (Commits(levels[0]) ==> CommitRecorded(levels, 0)) {
      forall k | 0 <= k < |levels| && Commits(levels[k])
        ensures CommitRecorded(levels, k)
      {
        if k > 0 { assert levels[1..][k - 1] == levels[k] && CommitRecorded(levels, k - 1 + 1); }
      }
    }
  }

  function Depth(c: Commit): nat { if c.Root? then 0 else 1 + Depth(c.parent) }

  /** Where HEAD ends up: too deep if a commit is not recorded, one commit too far back if
      the old HEAD is, and where it was otherwise. */
  lemma {:induction false} HeadAfterUnwind(levels: seq<Level>, t: Tree)
    requires ValidStack(levels)
    ensures AllRecorded(levels) ==>
      Unwind(levels, t).head == if RecordsOldHead(levels) && t.head.Child? then t.head.parent else t.head
    ensures !AllRecorded(levels) ==> Depth(Unwind(levels, t).head) > Depth(t.head)
  {
    if levels != [] {
      var s := Reached(levels[0], t);
      HeadAfterUnwind(levels[1..], s.tree);
      UnrollRecorded(levels);
      UnrollOldHead(levels);
      CleanHead(levels[0], t, Unwind(levels[1..], s.tree));
    }
  }

  /** HEAD comes back exactly if every commit is recorded before the next one, and no level
      before the first commit records a HEAD that has a parent. */
  lemma HeadUnwinds(levels: seq<Level>, t: Tree)
    requires ValidStack(levels)
    ensures Unwind(levels, t).head == t.head <==> AllRecorded(levels) && (t.head.Root? || !RecordsOldHead(levels))
  {
    HeadAfterUnwind(levels, t);
  }

  // ---------------------------------------------------------------------
  // Web dependencies
  // ---------------------------------------------------------------------

  /** Some level that found no dependencies claims what the last one left. */
  predicate Claimed(levels: seq<Level>, t: Tree, web: NodeModules)
    requires ValidStack(levels)
  {
    exists k :: 0 <= k < |levels| && TreeAt(levels, t, k).web.Absent? && Claims(levels[k], web)
  }

  lemma UnrollClaimed(levels: seq<Level>, t: Tree, web: NodeModules)
    requires levels != [] && ValidStack(levels)
    ensures Claimed(levels, t, web) <==>
      (t.web.Absent? && Claims(levels[0], web)) || Claimed(levels[1..], Reached(levels[0], t).tree, web)
  {
  }

  /** Unwinding takes away what the last level left if some level claims it, and leaves it
      otherwise: nothing in between ever comes back. */
  lemma {:induction false} WebAfterUnwind(levels: seq<Level>, t: Tree)
    requires ValidStack(levels)
    ensures var last := TreeAt(levels, t, |levels|).web;
      Unwind(levels, t).web == if Claimed(levels, t, last) then Absent else last
  {
    if levels != [] {
      var s := Reached(levels[0], t);
      var last := TreeAt(levels, t, |levels|).web;
      assert last == TreeAt(levels[1..], s.tree, |levels| - 1).web;
      WebAfterUnwind(levels[1..], s.tree);
      UnrollClaimed(levels, t, last);
      CleanWebAt(levels[0], t, Unwind(levels[1..], s.tree));
    }
  }

  /** What the last preparation leaves decides about the dependencies. */
  predicate WebReturns(levels: seq<Level>, t: Tree)
    requires ValidStack(levels)
  {
    var last := TreeAt(levels, t, |levels|).web;
    if t.web.Absent? then last.Absent? || Claimed(levels, t, last) else last == t.web && !Claimed(levels, t, last)
  }

  lemma WebUnwinds(levels: seq<Level>, t: Tree)
    requires ValidStack(levels)
    ensures Unwind(levels, t).web == t.web <==> WebReturns(levels, t)
  {
    WebAfterUnwind(levels, t);
  }

  // ---------------------------------------------------------------------
  // The seed file
  // ---------------------------------------------------------------------

  predicate SeedExposedAt(levels: seq<Level>, t: Tree, k: nat)
    requires ValidStack(levels) && k < |levels|
  {
    SeedExposed(levels[k].inputs, TreeAt(levels, t, k), levels[k].steps)
  }

  /** The content was not there before level j, nor does level j record it as its own. */
  predicate Foreign(levels: seq<Level>, t: Tree, j: nat, seed: File)
    requires ValidStack(levels) && j < |levels|
  {
    seed != TreeAt(levels, t, j).seed && !(RecordsSeed(levels[j]) && seed == Some(levels[j].inputs.seedText))
  }

  /** The overlay of level k changed the seed file in an exposed window, the levels above
      bring its version back, and no level up to it knows that version. */
  predicate Leaks(levels: seq<Level>, t: Tree, k: nat)
    requires ValidStack(levels) && k < |levels|
    decreases |levels|, 0
  {
    && SeedExposedAt(levels, t, k)
    && SeedReturns(levels[k + 1..], TreeAt(levels, t, k + 1))
    && var seed := TreeAt(levels, t, k + 1).seed;
       forall j :: 0 <= j <= k ==> Foreign(levels, t, j, seed)
  }

  predicate SeedReturns(levels: seq<Level>, t: Tree)
    requires ValidStack(levels)
    decreases |levels|, 1
  {
    forall k :: 0 <= k < |levels| ==> !Leaks(levels, t, k)
  }

  lemma UnrollLeaks(levels: seq<Level>, t: Tree, k: nat)
    requires ValidStack(levels) && k + 1 < |levels|
    ensures Leaks(levels, t, k + 1) <==>
      Leaks(levels[1..], Reached(levels[0], t).tree, k) && Foreign(levels, t, 0, TreeAt(levels, t, k + 2).seed)
  {
    var rest, next := levels[1..], Reached(levels[0], t).tree;
    var seed := TreeAt(levels, t, k + 2).seed;
    assert TreeAt(rest, next, k + 1).seed == seed && rest[k + 1..] == levels[k + 2..];
    assert forall j :: 0 <= j <= k ==> (Foreign(rest, next, j, seed) <==> Foreign(levels, t, j + 1, seed));
    if Leaks(rest, next, k) && Foreign(levels, t, 0, seed) {
      forall j | 0 <= j <= k + 1
        ensures Foreign(levels, t, j, seed)
      {
        if j > 0 { assert Foreign(rest, next, j - 1, seed) <==> Foreign(levels, t, j - 1 + 1, seed); }
      }
    }
  }

  /** Levels that do not record a version leave it. */
  lemma {:induction false} LeftBelow(levels: seq<Level>, t: Tree, k: nat)
    requires ValidStack(levels) && k <= |levels|
    requires var seed := TreeAt(levels, t, k).seed;
      && Unwind(levels[k..], TreeAt(levels, t, k)).seed == seed
      && forall j :: 0 <= j < k ==> !(RecordsSeed(levels[j]) && seed == Some(levels[j].inputs.seedText))
    ensures Unwind(levels, t).seed == TreeAt(levels, t, k).seed
    decreases k
  {
    if k == 0 {
      assert levels[0..] == levels;
    } else {
      var rest, next := levels[1..], Reached(levels[0], t).tree;
      assert rest[k - 1..] == levels[k..];
      LeftBelow(rest, next, k - 1);
      CleanSeed(levels[0], t, Unwind(rest, next));
    }
  }

  /** The version of a leaking level is what unwinding ends with. */
  lemma LeakStays(levels: seq<Level>, t: Tree, k: nat)
    requires ValidStack(levels) && k < |levels| && Leaks(levels, t, k)
    requires Unwind(levels[k + 1..], TreeAt(levels, t, k + 1)).seed == TreeAt(levels, t, k + 1).seed
    ensures Unwind(levels, t).seed == TreeAt(levels, t, k + 1).seed != t.seed
  {
    var seed := TreeAt(levels, t, k + 1).seed;
    assert Foreign(levels, t, 0, seed);
    forall j | 0 <= j < k + 1
      ensures !(RecordsSeed(levels[j]) && seed == Some(levels[j].inputs.seedText))
    {
      assert Foreign(levels, t, j, seed);
    }
    LeftBelow(levels, t, k + 1);
  }

  /** If the levels above bring the seed file back, it is lost here exactly if the first
      level leaks. */
  lemma FirstLeaks(levels: seq<Level>, t: Tree)
    requires levels != [] && ValidStack(levels)
    requires var next := Reached(levels[0], t).tree;
      Unwind(levels[1..], next).seed == next.seed && SeedReturns(levels[1..], next)
    requires Unwind(levels, t).seed != t.seed
    ensures Leaks(levels, t, 0)
  {
    var l, next := levels[0], Reached(levels[0], t).tree;
    var u := Unwind(levels[1..], next);
    CleanSeed(l, t, u);
    PrepareAt(l.inputs, t, l.steps);
    assert TreeAt(levels, t, 1) == TreeAt(levels[1..], next, 0) == next;
    assert Foreign(levels, t, 0, next.seed);
  }

  /** The seed file comes back exactly if no level leaks. */
  lemma {:induction false} SeedUnwinds(levels: seq<Level>, t: Tree)
    requires ValidStack(levels)
    ensures Unwind(levels, t).seed == t.seed <==> SeedReturns(levels, t)
    decreases |levels|, 1
  {
    if k :| 0 <= k < |levels| && Leaks(levels, t, k) {
      SeedUnwinds(levels[k + 1..], TreeAt(levels, t, k + 1));
      LeakStays(levels, t, k);
    } else if levels != [] && Unwind(levels, t).seed != t.seed {
      SeedUnwinds(levels[1..], Reached(levels[0], t).tree);
      LeakExists(levels, t);
    }
  }

  lemma LeakExists(levels: seq<Level>, t: Tree)
    requires levels != [] && ValidStack(levels) && Unwind(levels, t).seed != t.seed
    requires var next := Reached(levels[0], t).tree;
      Unwind(levels[1..], next).seed == next.seed <==> SeedReturns(levels[1..], next)
    ensures !SeedReturns(levels, t)
    decreases |levels|, 0
  {
    var rest, next := levels[1..], Reached(levels[0], t).tree;
    if SeedReturns(rest, next) {
      FirstLeaks(levels, t);
    } else {
      var k :| 0 <= k < |rest| && Leaks(rest, next, k);
      assert rest[k + 1..] == levels[k + 2..];
      SeedUnwinds(rest[k + 1..], TreeAt(rest, next, k + 1));
      LeakStays(rest, next, k);
      CleanSeed(levels[0], t, Unwind(rest, next));
      assert Foreign(levels, t, 0, TreeAt(levels, t, k + 2).seed);
      UnrollLeaks(levels, t, k);
    }
  }

  // ---------------------------------------------------------------------
  // The whole tree
  // ---------------------------------------------------------------------

  /** zf.yaml comes back from every stack. */
  lemma {:induction false} ZfUnwinds(levels: seq<Level>, t: Tree)
    requires ValidStack(levels)
    ensures Unwind(levels, t).zf == t.zf
  {
    if levels != [] {
      var l, s := levels[0], Reached(levels[0], t);
      ZfUnwinds(levels[1..], s.tree);
      PrepareAt(l.inputs, t, l.steps);
      RecoverZf(l.inputs, t, l.steps, s.(tree := Unwind(levels[1..], s.tree)));
    }
  }

  /** Stacked preparations of any depth and with any crash points, unwound newest first,
      restore the whole worktree exactly if HEAD, dependencies and seed file each meet
      their own condition; zf.yaml needs none. */
  lemma StackUnwinds(levels: seq<Level>, t: Tree)
    requires ValidStack(levels)
    ensures Unwind(levels, t) == t <==>
      && AllRecorded(levels) && (t.head.Root? || !RecordsOldHead(levels))
      && WebReturns(levels, t)
      && SeedReturns(levels, t)
  {
    ZfUnwinds(levels, t);
    SeedUnwinds(levels, t);
    WebUnwinds(levels, t);
    HeadUnwinds(levels, t);
  }

  predicate Exposed(l: Level, t: Tree) {
    SeedExposed(l.inputs, t, l.steps) || WebReplaced(l.inputs, t, l.steps) || HeadExposed(l.inputs, t, l.steps)
  }

  /** Levels that could each be cleaned up on their own can be stacked. */
  lemma {:induction false} CoveredUnwinds(levels: seq<Level>, t: Tree)
    requires ValidStack(levels) && forall k :: 0 <= k < |levels| ==> !Exposed(levels[k], TreeAt(levels, t, k))
    ensures Unwind(levels, t) == t
  {
    if levels != [] {
      var l, rest, s := levels[0], levels[1..], Reached(levels[0], t);
      assert !Exposed(l, TreeAt(levels, t, 0));
      forall k | 0 <= k < |rest|
        ensures !Exposed(rest[k], TreeAt(rest, s.tree, k))
      {
        assert !Exposed(levels[k + 1], TreeAt(levels, t, k + 1));
      }
      CoveredUnwinds(rest, s.tree);
      CrashRecovery(l.inputs, t, l.steps);
    }
  }
}
