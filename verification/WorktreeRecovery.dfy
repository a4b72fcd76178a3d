/** Crash recovery of worktree preparation: whatever step a preparation dies at, what
    does cleanup give back? */
module WorktreeRecovery {
  import opened Options
  import opened WorktreeModel

  // ---------------------------------------------------------------------
  // The state after n steps, component by component
  // ---------------------------------------------------------------------

  /** The number of steps before the seed phase. */
  function SeedPhase(flow: bool): nat { if flow then 15 else 12 }

  /** The seed file after the checkout overlay. */
  function Synced(i: Inputs, seed: File): File { if i.syncedSeed.Some? then i.syncedSeed.value else seed }

  ghost predicate ZfAt(i: Inputs, t: Tree, n: nat, s: State) {
    && s.tree.zf == (if n >= 7 then Some(i.renderedZf) else t.zf)
    && s.run.zfBackup == (if n >= 1 then t.zf else None)
    && (s.mem.zfExisted <==> n >= 1 && t.zf.Some?)
    && s.mem.generatedZf == (if n >= 6 then Sha256(i.renderedZf) else NoDigest)
  }

  /** From the first journal write on, every step leaves the journal equal to the
      in-memory manifest. */
  ghost predicate JournalAt(n: nat, s: State) {
    s.run.journal == (if n >= 3 then Some(s.mem) else None)
  }

  ghost predicate SeedFileAt(i: Inputs, t: Tree, n: nat, s: State) {
    var b := SeedPhase(i.flow);
    s.tree.seed == (if n >= b + 2 then Some(i.seedText) else if n >= 4 then Synced(i, t.seed) else t.seed)
  }

  ghost predicate SeedRecordAt(i: Inputs, t: Tree, n: nat, s: State) {
    var b := SeedPhase(i.flow);
    && (n < 2 ==> s.tree.seed == t.seed)
    && s.run.seedBackup == (if n >= 2 then t.seed else None)
    && (s.mem.seedExisted <==> n >= 2 && t.seed.Some?)
    && s.mem.generatedSeed == (if n >= b + 1 then Sha256(i.seedText) else NoDigest)
  }

  ghost predicate SeedAt(i: Inputs, t: Tree, n: nat, s: State) {
    SeedFileAt(i, t, n, s) && SeedRecordAt(i, t, n, s)
  }

  ghost predicate WebTreeAt(i: Inputs, t: Tree, n: nat, s: State) {
    && s.tree.web == (if n >= 11 then Ensure(i, t.web).1 else if n == 10 then Unlink(i, t.web) else t.web)
    && (n >= 11 ==> s.returned == Ensure(i, t.web).0)
  }

  ghost predicate WebPreexistingAt(t: Tree, n: nat, s: State) {
    s.mem.webPreexisting <==> n >= 3 && !t.web.Absent?
  }

  ghost predicate WebModeAt(i: Inputs, t: Tree, n: nat, s: State) {
    s.mem.webMode == (if n >= 12 then Ensure(i, t.web).0 else if n >= 9 then Preparing else Pending)
  }

  ghost predicate WebTargetAt(i: Inputs, n: nat, s: State) {
    && (n >= 12 ==> s.mem.webTarget == ReadLink(s.tree.web))
    && (9 <= n <= 11 ==> s.mem.webTarget == if i.sourceTsc then i.sourceModules else "")
  }

  ghost predicate WebAt(i: Inputs, t: Tree, n: nat, s: State) {
    WebTreeAt(i, t, n, s) && WebPreexistingAt(t, n, s) && WebModeAt(i, t, n, s) && WebTargetAt(i, n, s)
  }

  ghost predicate HeadAt(i: Inputs, t: Tree, n: nat, s: State) {
    && s.tree.head == (if i.flow && n >= 14 && i.git && i.staged then Child(i.commitId, t.head) else t.head)
    && s.mem.checkpoint == (if i.flow && n >= 15 && i.git then Some(s.tree.head) else None)
  }

  ghost predicate At(i: Inputs, t: Tree, n: nat, s: State) {
    JournalAt(n, s) && ZfAt(i, t, n, s) && SeedAt(i, t, n, s) && WebAt(i, t, n, s) && HeadAt(i, t, n, s)
  }

  lemma StepJournal(i: Inputs, n: nat, s: State)
    requires n < Steps(i.flow) && JournalAt(n, s)
    ensures JournalAt(n + 1, Apply(StepAt(i.flow, n), i, s))
  {
  }

  lemma StepZf(i: Inputs, t: Tree, n: nat, s: State)
    requires n < Steps(i.flow) && ZfAt(i, t, n, s)
    ensures ZfAt(i, t, n + 1, Apply(StepAt(i.flow, n), i, s))
  {
  }

  lemma StepSeedFile(i: Inputs, t: Tree, n: nat, s: State)
    requires n < Steps(i.flow) && SeedFileAt(i, t, n, s)
    ensures SeedFileAt(i, t, n + 1, Apply(StepAt(i.flow, n), i, s))
  {
  }

  lemma StepSeedRecord(i: Inputs, t: Tree, n: nat, s: State)
    requires n < Steps(i.flow) && SeedRecordAt(i, t, n, s)
    ensures SeedRecordAt(i, t, n + 1, Apply(StepAt(i.flow, n), i, s))
  {
  }

  lemma StepSeed(i: Inputs, t: Tree, n: nat, s: State)
    requires n < Steps(i.flow) && SeedAt(i, t, n, s)
    ensures SeedAt(i, t, n + 1, Apply(StepAt(i.flow, n), i, s))
  {
    StepSeedFile(i, t, n, s);
    StepSeedRecord(i, t, n, s);
  }

  lemma StepWebTree(i: Inputs, t: Tree, n: nat, s: State)
    requires n < Steps(i.flow) && WebTreeAt(i, t, n, s)
    ensures WebTreeAt(i, t, n + 1, Apply(StepAt(i.flow, n), i, s))
  {
  }

  lemma StepWebPreexisting(i: Inputs, t: Tree, n: nat, s: State)
    requires n < Steps(i.flow) && WebTreeAt(i, t, n, s) && WebPreexistingAt(t, n, s)
    ensures WebPreexistingAt(t, n + 1, Apply(StepAt(i.flow, n), i, s))
  {
  }

  lemma StepWebMode(i: Inputs, t: Tree, n: nat, s: State)
    requires n < Steps(i.flow) && WebTreeAt(i, t, n, s) && WebModeAt(i, t, n, s)
    ensures WebModeAt(i, t, n + 1, Apply(StepAt(i.flow, n), i, s))
  {
  }

  lemma StepWebTarget(i: Inputs, n: nat, s: State)
    requires n < Steps(i.flow) && WebTargetAt(i, n, s)
    ensures WebTargetAt(i, n + 1, Apply(StepAt(i.flow, n), i, s))
  {
  }

  lemma StepWeb(i: Inputs, t: Tree, n: nat, s: State)
    requires n < Steps(i.flow) && WebAt(i, t, n, s)
    ensures WebAt(i, t, n + 1, Apply(StepAt(i.flow, n), i, s))
  {
    StepWebTree(i, t, n, s);
    StepWebPreexisting(i, t, n, s);
    StepWebMode(i, t, n, s);
    StepWebTarget(i, n, s);
  }

  lemma StepHead(i: Inputs, t: Tree, n: nat, s: State)
    requires n < Steps(i.flow) && HeadAt(i, t, n, s)
    ensures HeadAt(i, t, n + 1, Apply(StepAt(i.flow, n), i, s))
  {
  }

  lemma StartAt(i: Inputs, t: Tree)
    ensures At(i, t, 0, Start(t))
  {
  }

  lemma NextAt(i: Inputs, t: Tree, n: nat, s: State)
    requires n < Steps(i.flow) && At(i, t, n, s)
    ensures At(i, t, n + 1, Apply(StepAt(i.flow, n), i, s))
  {
    StepJournal(i, n, s);
    StepZf(i, t, n, s);
    StepSeed(i, t, n, s);
    StepWeb(i, t, n, s);
    StepHead(i, t, n, s);
  }

  lemma {:induction false} PrepareAt(i: Inputs, t: Tree, n: nat)
    requires n <= Steps(i.flow)
    ensures At(i, t, n, Prepare(i, n, Start(t)))
  {
    if n == 0 {
      StartAt(i, t);
    } else {
      PrepareAt(i, t, n - 1);
      NextAt(i, t, n - 1, Prepare(i, n - 1, Start(t)));
    }
  }

  // ---------------------------------------------------------------------
  // Crash recovery
  // ---------------------------------------------------------------------

  /** The overlay changed the seed file and preparation died before it had journaled and
      written its own: no record of the change exists yet. */
  predicate SeedExposed(i: Inputs, t: Tree, n: nat) {
    var b := SeedPhase(i.flow);
    4 <= n <= b + 1 && Synced(i, t.seed) != t.seed && !(n == b + 1 && Synced(i, t.seed) == Some(i.seedText))
  }

  /** Dependencies that existed before are replaced: a link without a compiler behind it is
      unlinked, for good unless the same link is made again, or npm ci changes what was
      there. */
  predicate WebReplaced(i: Inputs, t: Tree, n: nat) {
    && !t.web.Absent? && i.hasPackage && !HasTsc(i, t.web) && n >= 10
    && if i.sourceTsc && t.web.Link? then n == 10 || t.web.target != i.sourceModules
       else n >= 11 && match i.npm
                       case Untouched => false
                       case Removes => true
                       case Installs(files) => t.web != Dir(files)
  }

  /** Either the baseline commit was made but not yet journaled, or nothing was staged and
      the journal names the pre-existing HEAD as the checkpoint. */
  predicate HeadExposed(i: Inputs, t: Tree, n: nat) {
    i.flow && i.git && if i.staged then n == 14 else n >= 15 && t.head.Child?
  }

  /** The tree that cleanup leaves after a preparation that stopped after n steps. */
  function Recovered(i: Inputs, t: Tree, n: nat): Tree
    requires n <= Steps(i.flow)
  {
    var s := Prepare(i, n, Start(t));
    Clean(i.git, s.tree, s.run)
  }

  /** For every prefix of the preparation: zf.yaml is always as before; the seed file, the
      web dependencies and HEAD are as before exactly outside the listed windows; and
      dependencies that did not exist are gone again. */
  lemma CrashRecovery(i: Inputs, t: Tree, n: nat)
    requires Sane(i) && n <= Steps(i.flow)
    ensures Recovered(i, t, n).zf == t.zf
    ensures Recovered(i, t, n).seed == t.seed <==> !SeedExposed(i, t, n)
    ensures Recovered(i, t, n).web == t.web <==> !WebReplaced(i, t, n)
    ensures t.web.Absent? ==> Recovered(i, t, n).web.Absent?
    ensures Recovered(i, t, n).head == t.head <==> !HeadExposed(i, t, n)
  {
    PrepareAt(i, t, n);
    var s := Prepare(i, n, Start(t));
    RecoverZf(i, t, n, s);
    RecoverSeed(i, t, n, s);
    RecoverWeb(i, t, n, s);
    RecoverHead(i, t, n, s);
  }

  lemma RecoverZf(i: Inputs, t: Tree, n: nat, s: State)
    requires JournalAt(n, s) && ZfAt(i, t, n, s)
    ensures Clean(i.git, s.tree, s.run).zf == t.zf
  {
  }

  lemma RecoverSeed(i: Inputs, t: Tree, n: nat, s: State)
    requires JournalAt(n, s) && SeedAt(i, t, n, s)
    ensures Clean(i.git, s.tree, s.run).seed == t.seed <==> !SeedExposed(i, t, n)
  {
  }

  lemma RecoverWeb(i: Inputs, t: Tree, n: nat, s: State)
    requires Sane(i) && JournalAt(n, s) && WebAt(i, t, n, s)
    ensures Clean(i.git, s.tree, s.run).web == t.web <==> !WebReplaced(i, t, n)
    ensures t.web.Absent? ==> Clean(i.git, s.tree, s.run).web.Absent?
  {
  }

  lemma RecoverHead(i: Inputs, t: Tree, n: nat, s: State)
    requires JournalAt(n, s) && HeadAt(i, t, n, s)
    ensures Clean(i.git, s.tree, s.run).head == t.head <==> !HeadExposed(i, t, n)
  {
  }

  /** Cleanup in this state gives back what `CrashRecovery` promises after n steps. */
  predicate Recovers(i: Inputs, t: Tree, n: nat, s: State) {
    var r := Clean(i.git, s.tree, s.run);
    && r.zf == t.zf
    && (r.seed == t.seed <==> !SeedExposed(i, t, n))
    && (r.web == t.web <==> !WebReplaced(i, t, n))
    && (t.web.Absent? ==> r.web.Absent?)
    && (r.head == t.head <==> !HeadExposed(i, t, n))
  }

  /** The same for an exception inside the journaled part: the handler journals what it
      finds and cleans up at once. */
  lemma FailureRecovery(i: Inputs, t: Tree, n: nat)
    requires Sane(i) && 3 <= n <= Steps(i.flow)
    ensures Recovers(i, t, n, RecordFailure(Prepare(i, n, Start(t))))
  {
    PrepareAt(i, t, n);
    var s := Prepare(i, n, Start(t));
    var f := RecordFailure(s);
    FailureKeeps(i, t, n, s);
    RecoverZf(i, t, n, f);
    RecoverSeed(i, t, n, f);
    FailureWeb(i, t, n, s);
    RecoverHead(i, t, n, f);
  }

  /** And for an exception inside a journal write: the field is already set in memory, the
      handler journals it, and the outcome is that of the completed write.  So an exception
      after the baseline commit is harmless from the assignment on. */
  lemma FailureWhileJournaling(i: Inputs, t: Tree, n: nat)
    requires Sane(i) && 3 <= n < Steps(i.flow) && Journals(StepAt(i.flow, n))
    ensures Recovers(i, t, n + 1, RecordFailure(Remember(StepAt(i.flow, n), i, Prepare(i, n, Start(t)))))
  {
    JournalLast(StepAt(i.flow, n), i, Prepare(i, n, Start(t)));
    NextStep(i, t, n);
    FailureRecovery(i, t, n + 1);
  }

  lemma NextStep(i: Inputs, t: Tree, n: nat)
    requires n < Steps(i.flow)
    ensures Prepare(i, n + 1, Start(t)) == Apply(StepAt(i.flow, n), i, Prepare(i, n, Start(t)))
  {
  }

  lemma JournalLast(step: Step, i: Inputs, s: State)
    requires Journals(step)
    ensures RecordFailure(Apply(step, i, s)) == RecordFailure(Remember(step, i, s))
  {
  }

  lemma FailureKeeps(i: Inputs, t: Tree, n: nat, s: State)
    requires n >= 3 && JournalAt(n, s) && ZfAt(i, t, n, s) && SeedAt(i, t, n, s) && HeadAt(i, t, n, s)
    ensures var f := RecordFailure(s);
      JournalAt(n, f) && ZfAt(i, t, n, f) && SeedAt(i, t, n, f) && HeadAt(i, t, n, f)
  {
  }

  lemma FailureWeb(i: Inputs, t: Tree, n: nat, s: State)
    requires Sane(i) && n >= 3 && WebAt(i, t, n, s)
    ensures var f := RecordFailure(s);
      var web := Clean(i.git, f.tree, f.run).web;
      (web == t.web <==> !WebReplaced(i, t, n)) && (t.web.Absent? ==> web.Absent?)
  {
  }

  /** The handler makes sure of dependencies that were not there before: on any state it
      records what is at web/node_modules, so that cleanup removes it, whatever the failed
      preparation had recorded. */
  lemma FailureRemovesWeb(git: bool, s: State)
    requires !s.mem.webPreexisting
    ensures var f := RecordFailure(s);
      && f.tree == s.tree && f.run.journal == Some(f.mem)
      && (Clean(git, f.tree, f.run).web.Absent? <==> s.tree.web != Link(""))
      && (s.tree.web.Absent? ==> f.mem == s.mem)
  {
  }

  // ---------------------------------------------------------------------
  // Dependencies
  // ---------------------------------------------------------------------

  /** There is a compiler behind node_modules: it was there before, it is the one of the
      repository, or the directory has one. */
  predicate Compiles(i: Inputs, before: NodeModules, web: NodeModules) {
    match web
    case Absent => false
    case Link(target) => (web == before && i.linkTsc) || (target == i.sourceModules && i.sourceTsc)
    case Dir(files) => TSC in files
  }

  /** A worktree with a web package is left with a compiler exactly if it had one, or the
      repository has one and nothing but a link is in the way, or npm installed one. */
  lemma EnsureCompiles(i: Inputs, web: NodeModules)
    ensures i.hasPackage ==>
      (Compiles(i, web, Ensure(i, web).1) <==>
        HasTsc(i, web) || (i.sourceTsc && !web.Dir?) || (i.npm.Installs? && TSC in i.npm.files))
    ensures !i.hasPackage ==> Ensure(i, web) == (NoPackage, web)
  {
  }

  /** What the returned mode means. */
  lemma EnsureModes(i: Inputs, web: NodeModules)
    ensures var (mode, after) := Ensure(i, web);
      && (mode.Present? <==> i.hasPackage && HasTsc(i, web)) && (mode.Present? ==> after == web)
      && (mode.Linked? <==> i.hasPackage && !HasTsc(i, web) && i.sourceTsc && !web.Dir?)
      && (mode.Linked? ==> after == Link(i.sourceModules))
      && (mode.Installed? <==> i.hasPackage && !HasTsc(i, web) && (!i.sourceTsc || web.Dir?))
      && (mode.Installed? ==> match i.npm
                              case Untouched => after == web
                              case Removes => after.Absent?
                              case Installs(files) => after == Dir(files))
    ensures Ensure(i, Unlink(i, web)) == Ensure(i, web)
  {
  }

  // ---------------------------------------------------------------------
  // Ownership
  // ---------------------------------------------------------------------

  /** Cleanup of any manifest on any tree acts only on what the manifest proves to be the
      framework's: recorded content, recorded link, recorded installation, recorded HEAD.
      HEAD moves by at most one commit, so a commit on top of the checkpoint blocks it. */
  lemma CleanupOwnsOnly(git: bool, t: Tree, run: RunDir)
    ensures run.journal.None? ==> Clean(git, t, run) == t
    ensures run.journal.Some? ==>
      var r, m := Clean(git, t, run), run.journal.value;
      && (r.zf != t.zf ==> t.zf.Some? && m.generatedZf == Sha256(t.zf.value))
      && (r.seed != t.seed ==> t.seed.Some? && m.generatedSeed == Sha256(t.seed.value))
      && (r.web != t.web ==> && !m.webPreexisting && r.web.Absent?
                             && (t.web.Link? ==> t.web.target == m.webTarget)
                             && (t.web.Dir? ==> m.webMode.Installed? || m.webMode.Preparing?))
      && (r.head != t.head ==>
            git && m.checkpoint == Some(t.head) && t.head.Child? && r.head == t.head.parent)
  {
  }

  /** After a full preparation that really committed, any commit on top keeps HEAD, any
      edit of a generated file keeps the edit. */
  lemma LaterWorkSurvives(i: Inputs, t: Tree, id: string, zf: File, seed: File)
    requires Sane(i) && zf != Some(i.renderedZf) && seed != Some(i.seedText)
    ensures var s := Prepare(i, Steps(i.flow), Start(t));
      var edited := s.tree.(head := Child(id, s.tree.head), zf := zf, seed := seed);
      var r := Clean(i.git, edited, s.run);
      r.head == edited.head && r.zf == zf && r.seed == seed
  {
    PrepareAt(i, t, Steps(i.flow));
  }

  // ---------------------------------------------------------------------
  // Re-entrance
  // ---------------------------------------------------------------------

  /** A cleanup cut off after k of its four parts; if it dies inside the third, while a
      directory is being removed, `left` is what remains of it. */
  datatype Cut = Cut(k: nat, left: set<string>)

  function CleanCut(git: bool, t: Tree, run: RunDir, cut: Cut): Tree {
    match run.journal
    case None => t
    case Some(m) =>
      var t := if cut.k >= 1 then t.(zf := Restore(t.zf, m.generatedZf, m.zfExisted, run.zfBackup)) else t;
      var t := if cut.k >= 2 then t.(seed := Restore(t.seed, m.generatedSeed, m.seedExisted, run.seedBackup)) else t;
      var t := if cut.k >= 3 then t.(web := CleanWeb(t.web, m))
               else if cut.k == 2 && t.web.Dir? && CleanWeb(t.web, m).Absent? then t.(web := Dir(cut.left)) else t;
      if cut.k >= 4 then t.(head := Rewind(t.head, git, m)) else t
  }

  function CleanCuts(git: bool, t: Tree, run: RunDir, cuts: seq<Cut>): Tree {
    if cuts == [] then t else CleanCut(git, CleanCuts(git, t, run, cuts[..|cuts| - 1]), run, cuts[|cuts| - 1])
  }

  lemma RestoreTwice(f: File, generated: Digest, existed: bool, backup: File)
    ensures var once := Restore(f, generated, existed, backup); Restore(once, generated, existed, backup) == once
  {
  }

  /** A cleanup cut off after k parts has done exactly the first k, and one that is not cut
      off is cleanup. */
  lemma CutParts(git: bool, t: Tree, run: RunDir, cut: Cut)
    ensures var c, r := CleanCut(git, t, run, cut), Clean(git, t, run);
      && c.zf == (if cut.k >= 1 then r.zf else t.zf) && c.seed == (if cut.k >= 2 then r.seed else t.seed)
      && (cut.k >= 3 ==> c.web == r.web) && (cut.k < 2 ==> c.web == t.web)
      && (cut.k == 2 && c.web != t.web ==> t.web.Dir? && r.web.Absent? && c.web == Dir(cut.left))
      && c.head == (if cut.k >= 4 then r.head else t.head)
  {
  }

  lemma CutThenClean(git: bool, t: Tree, run: RunDir, cut: Cut)
    ensures Clean(git, CleanCut(git, t, run, cut), run) == Clean(git, t, run)
  {
    if run.journal.Some? {
      var m := run.journal.value;
      RestoreTwice(t.zf, m.generatedZf, m.zfExisted, run.zfBackup);
      RestoreTwice(t.seed, m.generatedSeed, m.seedExisted, run.seedBackup);
    }
  }

  /** Any number of cleanups cut off anywhere, then one that completes, reach what a
      single undisturbed cleanup reaches. */
  lemma {:induction false} CleanupReentrant(git: bool, t: Tree, run: RunDir, cuts: seq<Cut>)
    ensures Clean(git, CleanCuts(git, t, run, cuts), run) == Clean(git, t, run)
  {
    if cuts != [] {
      var n := |cuts| - 1;
      CleanupReentrant(git, t, run, cuts[..n]);
      CutThenClean(git, CleanCuts(git, t, run, cuts[..n]), run, cuts[n]);
    }
  }

  /** The guarded entry point `cleanup_interrupted_prepared_worktree` agrees with cleanup
      exactly when its pending test fires or HEAD is not left at the checkpoint: the test
      looks at files only, never at HEAD. */
  lemma InterruptedCleanupAgrees(git: bool, t: Tree, run: RunDir)
    ensures CleanInterrupted(git, t, run) == Clean(git, t, run) <==>
      run.journal.None? || CleanupPending(t, run.journal.value) || Rewind(t.head, git, run.journal.value) == t.head
  {
  }

  /** The guarded entry point does for files and dependencies exactly what cleanup does; it
      can only differ in HEAD. */
  lemma InterruptedCleanupRestoresFiles(git: bool, t: Tree, run: RunDir)
    ensures CleanInterrupted(git, t, run).(head := t.head) == Clean(git, t, run).(head := t.head)
  {
  }

  /** A cleanup that dies just before the rewind leaves HEAD on the baseline commit, and
      the guarded entry point moves it back exactly if a file restored by that cleanup
      happens to have the generated content. */
  lemma InterruptedCleanupKeepsHead(i: Inputs, t: Tree)
    requires Sane(i) && i.flow && i.git && i.staged
    ensures var s := Prepare(i, Steps(i.flow), Start(t));
      var cut := CleanCut(i.git, s.tree, s.run, Cut(3, {}));
      && cut.head == Child(i.commitId, t.head) && Clean(i.git, cut, s.run).head == t.head
      && (CleanInterrupted(i.git, cut, s.run).head == t.head
          <==> t.zf == Some(i.renderedZf) || t.seed == Some(i.seedText))
  {
    PrepareAt(i, t, Steps(i.flow));
  }
}
