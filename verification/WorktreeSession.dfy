/** Worktree preparation and cleanup in their own imperative form. */
module WorktreeSession {
  import opened Options
  import opened WorktreeModel
  import opened WorktreeRecovery

  /** A list entry of the cleanup outcome. */
  datatype Item = ZfYaml | SeedFile | WebModules

  datatype Outcome = Outcome(
    prepared: bool, restored: seq<Item>, removed: seq<Item>, retained: seq<Item>, rewound: bool)

  const NOTHING_YET := Outcome(true, [], [], [], false)

  /** `outcome["status"] == "cleaned"`. */
  predicate Cleaned(o: Outcome) { o.prepared && o.retained == [] }

  /** Which of the three lists an item ends up in, if any. */
  datatype Verdict = Restored | Removed | Retained | Nothing

  function Record(o: Outcome, item: Item, v: Verdict): Outcome {
    match v
    case Restored => o.(restored := o.restored + [item])
    case Removed => o.(removed := o.removed + [item])
    case Retained => o.(retained := o.retained + [item])
    case Nothing => o
  }

  /** Read off the effect of cleanup on a file: it was ours and is back, it was ours and is
      gone, it is somebody else's, or there is nothing. */
  function FileVerdict(f: File, generated: Digest, existed: bool, backup: File): Verdict {
    if f.None? then Nothing
    else if PathSha256(f) != generated then Retained
    else if Restore(f, generated, existed, backup).Some? then Restored else Removed
  }

  function WebVerdict(web: NodeModules, m: Manifest): Verdict {
    if CleanWeb(web, m) != web then Removed
    else if m.webPreexisting || web.Absent? || m.webMode in {Pending, Present, NoPackage} then Nothing
    else Retained
  }

  function CleanOutcome(git: bool, t: Tree, run: RunDir): Outcome {
    match run.journal
    case None => Outcome(false, [], [], [], false)
    case Some(m) =>
      var o := Record(NOTHING_YET, ZfYaml, FileVerdict(t.zf, m.generatedZf, m.zfExisted, run.zfBackup));
      var o := Record(o, SeedFile, FileVerdict(t.seed, m.generatedSeed, m.seedExisted, run.seedBackup));
      Record(o, WebModules, WebVerdict(t.web, m)).(rewound := Rewind(t.head, git, m) != t.head)
  }

  /** The worktree on disk, one run directory, and the locals of a preparation. */
  class Session {
    var tree: Tree
    var run: RunDir
    var mem: Manifest
    var returned: Mode
    const git: bool

    constructor (t: Tree, git: bool)
      ensures Snapshot() == Start(t) && this.git == git
    {
      tree := t;
      run := RunDir(None, None, None);
      mem := BLANK;
      returned := Pending;
      this.git := git;
    }

    ghost function Snapshot(): State
      reads this
    {
      State(tree, run, mem, returned)
    }

    /** `write_preparation_journal`. */
    method WriteJournal()
      modifies this`run
      ensures run == old(run).(journal := Some(mem))
    {
      run := run.(journal := Some(mem));
    }

    /** `ensure_web_dependencies`. */
    method EnsureWebDependencies(i: Inputs) returns (mode: Mode)
      modifies this`tree
      ensures (mode, tree.web) == Ensure(i, old(tree).web) && tree == old(tree).(web := tree.web)
    {
      if !i.hasPackage {
        return NoPackage;
      }
      if HasTsc(i, tree.web) {
        return Present;
      }
      if i.sourceTsc {
        if tree.web.Link? {
          tree := tree.(web := Absent);
        }
        if tree.web.Absent? {
          tree := tree.(web := Link(i.sourceModules));
          return Linked;
        }
      }
      tree := tree.(web := RunNpm(i.npm, tree.web));
      return Installed;
    }

    /** One step of `prepare_worktree`. */
    method Perform(step: Step, i: Inputs)
      requires i.git == git
      modifies this
      ensures Snapshot() == Apply(step, i, old(Snapshot()))
    {
      match step {
        case BackupZf =>
          mem := mem.(zfExisted := tree.zf.Some?);
          if mem.zfExisted { run := run.(zfBackup := tree.zf); }
        case BackupSeed =>
          mem := mem.(seedExisted := tree.seed.Some?);
          if mem.seedExisted { run := run.(seedBackup := tree.seed); }
        case JournalInit =>
          mem := mem.(webPreexisting := !tree.web.Absent?);
          WriteJournal();
        case Sync =>
          if i.syncedSeed.Some? { tree := tree.(seed := i.syncedSeed.value); }
        case JournalZfPending =>
          mem := mem.(generatedZf := Sha256(i.renderedZf));
          WriteJournal();
        case WriteZf =>
          tree := tree.(zf := Some(i.renderedZf));
        case JournalWebPreparing =>
          mem := mem.(webMode := Preparing, webTarget := if i.sourceTsc then i.sourceModules else "");
          WriteJournal();
        case UnlinkWeb =>
          tree := tree.(web := Unlink(i, tree.web));
        case ProvideWeb =>
          returned := EnsureWebDependencies(i);
        case JournalWebPrepared =>
          mem := mem.(webMode := returned, webTarget := ReadLink(tree.web));
          WriteJournal();
        case Checkpoint =>
          if i.git && i.staged { tree := tree.(head := Child(i.commitId, tree.head)); }
        case JournalCheckpointed =>
          mem := mem.(checkpoint := if i.git then Some(tree.head) else None);
          WriteJournal();
        case JournalSeedPending =>
          mem := mem.(generatedSeed := Sha256(i.seedText));
          WriteJournal();
        case WriteSeed =>
          tree := tree.(seed := Some(i.seedText));
        case _ =>
          WriteJournal();
      }
    }

    /** `prepare_worktree`, cut off after n steps. */
    method PrepareWorktree(i: Inputs, n: nat)
      requires i.git == git && n <= Steps(i.flow)
      modifies this
      ensures Snapshot() == Prepare(i, n, old(Snapshot()))
    {
      for k := 0 to n
        invariant Snapshot() == Prepare(i, k, old(Snapshot()))
      {
        Perform(StepAt(i.flow, k), i);
      }
    }

    /** `_cleanup_web_dependencies`. */
    method CleanupWebDependencies(m: Manifest, o: Outcome) returns (out: Outcome)
      modifies this`tree
      ensures tree == old(tree).(web := CleanWeb(old(tree).web, m))
      ensures out == Record(o, WebModules, WebVerdict(old(tree).web, m))
    {
      out := o;
      if m.webPreexisting || tree.web.Absent? {
        return;
      }
      if m.webMode.Linked? || (m.webMode.Preparing? && tree.web.Link?) {
        if m.webTarget != "" && ReadLink(tree.web) == m.webTarget {
          tree := tree.(web := Absent);
          out := out.(removed := out.removed + [WebModules]);
        } else {
          out := out.(retained := out.retained + [WebModules]);
        }
        return;
      }
      if m.webMode.Installed? || m.webMode.Preparing? {
        if !tree.web.Dir? {
          out := out.(retained := out.retained + [WebModules]);
          return;
        }
        tree := tree.(web := Absent);
        out := out.(removed := out.removed + [WebModules]);
      }
    }

    /** The block of `cleanup_prepared_worktree` for one generated file. */
    method CleanupFile(item: Item, f: File, generated: Digest, existed: bool, backup: File, o: Outcome)
      returns (file: File, out: Outcome)
      ensures file == Restore(f, generated, existed, backup)
      ensures out == Record(o, item, FileVerdict(f, generated, existed, backup))
    {
      file, out := f, o;
      if generated != NoDigest && PathSha256(f) == generated {
        if existed && backup.Some? {
          file := backup;
          out := out.(restored := out.restored + [item]);
        } else {
          file := None;
          out := out.(removed := out.removed + [item]);
        }
      } else if f.Some? {
        out := out.(retained := out.retained + [item]);
      }
    }

    /** `cleanup_prepared_worktree`: it changes the tree alone and reports what it did. */
    method CleanupPreparedWorktree() returns (o: Outcome)
      modifies this`tree
      ensures tree == Clean(git, old(tree), run)
      ensures o == CleanOutcome(git, old(tree), run)
    {
      o := Outcome(false, [], [], [], false);
      if run.journal.None? {
        return;
      }
      var m := run.journal.value;
      o := o.(prepared := true);
      var zf, seed;
      zf, o := CleanupFile(ZfYaml, tree.zf, m.generatedZf, m.zfExisted, run.zfBackup, o);
      tree := tree.(zf := zf);
      seed, o := CleanupFile(SeedFile, tree.seed, m.generatedSeed, m.seedExisted, run.seedBackup, o);
      tree := tree.(seed := seed);
      o := CleanupWebDependencies(m, o);
      if m.checkpoint.Some? && git && tree.head == m.checkpoint.value && tree.head.Child? {
        tree := tree.(head := tree.head.parent);
        o := o.(rewound := true);
      }
    }

    /** A preparation that dies after n steps, and the cleanup that follows it. */
    method CrashAndCleanup(i: Inputs, n: nat) returns (o: Outcome)
      requires Sane(i) && i.git == git && n <= Steps(i.flow) && Snapshot() == Start(tree)
      modifies this
      ensures tree.zf == old(tree).zf
      ensures tree.seed == old(tree).seed <==> !SeedExposed(i, old(tree), n)
      ensures tree.web == old(tree).web <==> !WebReplaced(i, old(tree), n)
      ensures old(tree).web.Absent? ==> tree.web.Absent?
      ensures tree.head == old(tree).head <==> !HeadExposed(i, old(tree), n)
      ensures o.prepared <==> n >= 3
      ensures ZfYaml in o.restored <==> n >= 6 && (n >= 7 || old(tree).zf == Some(i.renderedZf)) && old(tree).zf.Some?
      ensures o.rewound <==> i.flow && i.git && n >= 15 && (i.staged || old(tree).head.Child?)
    {
      PrepareWorktree(i, n);
      CrashRecovery(i, old(tree), n);
      CrashReport(i, old(tree), n);
      o := CleanupPreparedWorktree();
    }
  }

  /** What the report says after a crash. */
  lemma CrashReport(i: Inputs, t: Tree, n: nat)
    requires n <= Steps(i.flow)
    ensures var s := Prepare(i, n, Start(t));
      var o := CleanOutcome(i.git, s.tree, s.run);
      && (o.prepared <==> n >= 3)
      && (ZfYaml in o.restored <==> n >= 6 && (n >= 7 || t.zf == Some(i.renderedZf)) && t.zf.Some?)
      && (o.rewound <==> i.flow && i.git && n >= 15 && (i.staged || t.head.Child?))
  {
    PrepareAt(i, t, n);
    var s := Prepare(i, n, Start(t));
    CrashRewinds(i, t, n, s);
    if n >= 3 {
      var m := s.mem;
      CrashZf(i, t, n, s);
      OutcomeLists(FileVerdict(s.tree.zf, m.generatedZf, m.zfExisted, s.run.zfBackup),
                   FileVerdict(s.tree.seed, m.generatedSeed, m.seedExisted, s.run.seedBackup),
                   WebVerdict(s.tree.web, m));
    }
  }

  lemma CrashZf(i: Inputs, t: Tree, n: nat, s: State)
    requires ZfAt(i, t, n, s)
    ensures FileVerdict(s.tree.zf, s.mem.generatedZf, s.mem.zfExisted, s.run.zfBackup).Restored?
      <==> n >= 6 && (n >= 7 || t.zf == Some(i.renderedZf)) && t.zf.Some?
  {
  }

  lemma CrashRewinds(i: Inputs, t: Tree, n: nat, s: State)
    requires JournalAt(n, s) && HeadAt(i, t, n, s)
    ensures CleanOutcome(i.git, s.tree, s.run).rewound <==> i.flow && i.git && n >= 15 && (i.staged || t.head.Child?)
  {
  }

  /** After a complete preparation nothing is retained: cleanup reports "cleaned", with
      each generated file restored if it existed before and removed otherwise. */
  lemma FullPreparationCleans(i: Inputs, t: Tree)
    requires Sane(i)
    ensures var s := Prepare(i, Steps(i.flow), Start(t));
      var o := CleanOutcome(i.git, s.tree, s.run);
      && Cleaned(o)
      && (ZfYaml in o.restored <==> t.zf.Some?) && (ZfYaml in o.removed <==> t.zf.None?)
      && (SeedFile in o.restored <==> t.seed.Some?) && (SeedFile in o.removed <==> t.seed.None?)
      && (WebModules in o.removed <==> t.web.Absent? && !s.tree.web.Absent?)
  {
    FullVerdicts(i, t);
    var s := Prepare(i, Steps(i.flow), Start(t));
    var m := s.run.journal.value;
    OutcomeLists(FileVerdict(s.tree.zf, m.generatedZf, m.zfExisted, s.run.zfBackup),
                 FileVerdict(s.tree.seed, m.generatedSeed, m.seedExisted, s.run.seedBackup), WebVerdict(s.tree.web, m));
  }

  lemma FullVerdicts(i: Inputs, t: Tree)
    requires Sane(i)
    ensures var s := Prepare(i, Steps(i.flow), Start(t));
      && s.run.journal.Some?
      && var m := s.run.journal.value;
      && FileVerdict(s.tree.zf, m.generatedZf, m.zfExisted, s.run.zfBackup)
         == (if t.zf.Some? then Restored else Removed)
      && FileVerdict(s.tree.seed, m.generatedSeed, m.seedExisted, s.run.seedBackup)
         == (if t.seed.Some? then Restored else Removed)
      && WebVerdict(s.tree.web, m) == (if t.web.Absent? && !s.tree.web.Absent? then Removed else Nothing)
  {
    PrepareAt(i, t, Steps(i.flow));
  }

  lemma OutcomeLists(zf: Verdict, seed: Verdict, web: Verdict)
    ensures var o := Record(Record(Record(NOTHING_YET, ZfYaml, zf), SeedFile, seed), WebModules, web);
      && Listed(o, ZfYaml, zf) && Listed(o, SeedFile, seed) && Listed(o, WebModules, web)
      && (o.retained == [] <==> !zf.Retained? && !seed.Retained? && !web.Retained?)
  {
  }

  /** The item is in the list of its verdict and in no other. */
  predicate Listed(o: Outcome, item: Item, v: Verdict) {
    && (item in o.restored <==> v.Restored?) && (item in o.removed <==> v.Removed?)
    && (item in o.retained <==> v.Retained?)
  }

  // ---------------------------------------------------------------------
  // The report, for any tree and any journal
  // ---------------------------------------------------------------------

  /** Where a file ends up in the report, read off the file and the journal. */
  ghost predicate FileReported(o: Outcome, item: Item, f: File, generated: Digest, existed: bool, backup: File) {
    var ours := f.Some? && generated == Sha256(f.value);
    && (item in o.retained <==> f.Some? && !ours)
    && (item in o.restored <==> ours && existed && backup.Some?)
    && (item in o.removed <==> ours && !(existed && backup.Some?))
  }

  /** Cleanup reports a file as retained exactly if it is there and not the recorded one, as
      restored or removed exactly if it is the recorded one; dependencies as removed exactly
      if they are the recorded link or a recorded installation, and as retained exactly if
      they are something else in their place; and HEAD as rewound exactly if it was at the
      recorded checkpoint.  The status is "cleaned" exactly if nothing is retained. */
  lemma ReportExactly(git: bool, t: Tree, run: RunDir)
    requires run.journal.Some?
    ensures var o, m := CleanOutcome(git, t, run), run.journal.value;
      && o.prepared
      && FileReported(o, ZfYaml, t.zf, m.generatedZf, m.zfExisted, run.zfBackup)
      && FileReported(o, SeedFile, t.seed, m.generatedSeed, m.seedExisted, run.seedBackup)
      && (WebModules in o.removed <==> !m.webPreexisting && WebOurs(t.web, m))
      && (WebModules in o.retained <==>
            !m.webPreexisting && !t.web.Absent? && m.webMode in {Linked, Installed, Preparing} && !WebOurs(t.web, m))
      && WebModules !in o.restored
      && (o.rewound <==> git && m.checkpoint == Some(t.head) && t.head.Child?)
      && (Cleaned(o) <==> ZfYaml !in o.retained && SeedFile !in o.retained && WebModules !in o.retained)
  {
    var o, m := CleanOutcome(git, t, run), run.journal.value;
    var zf := FileVerdict(t.zf, m.generatedZf, m.zfExisted, run.zfBackup);
    var seed := FileVerdict(t.seed, m.generatedSeed, m.seedExisted, run.seedBackup);
    OutcomeLists(zf, seed, WebVerdict(t.web, m));
    ReportFile(o, ZfYaml, t.zf, m.generatedZf, m.zfExisted, run.zfBackup);
    ReportFile(o, SeedFile, t.seed, m.generatedSeed, m.seedExisted, run.seedBackup);
    WebReported(t.web, m);
    RewoundExactly(git, t, run);
  }

  lemma ReportFile(o: Outcome, item: Item, f: File, generated: Digest, existed: bool, backup: File)
    requires Listed(o, item, FileVerdict(f, generated, existed, backup))
    ensures FileReported(o, item, f, generated, existed, backup)
  {
  }

  lemma RewoundExactly(git: bool, t: Tree, run: RunDir)
    requires run.journal.Some?
    ensures CleanOutcome(git, t, run).rewound <==>
      git && run.journal.value.checkpoint == Some(t.head) && t.head.Child?
  {
    if t.head.Child? { assert t.head.parent != t.head; }
  }

  /** The recorded link, or a directory where an installation is recorded. */
  predicate WebOurs(web: NodeModules, m: Manifest) {
    match web
    case Absent => false
    case Link(target) => m.webMode in {Linked, Preparing} && target != "" && target == m.webTarget
    case Dir(_) => m.webMode in {Installed, Preparing}
  }

  /** The report tells what happened: a restored file has its backup, a removed one is gone,
      a retained one is untouched, and the same for dependencies and HEAD. */
  lemma ReportTrue(git: bool, t: Tree, run: RunDir)
    ensures var o, r := CleanOutcome(git, t, run), Clean(git, t, run);
      && (!o.prepared <==> run.journal.None?) && (!o.prepared ==> r == t)
      && r.zf == (if ZfYaml in o.restored then run.zfBackup else if ZfYaml in o.removed then None else t.zf)
      && r.seed == (if SeedFile in o.restored then run.seedBackup else if SeedFile in o.removed then None else t.seed)
      && r.web == (if WebModules in o.removed then Absent else t.web)
      && (o.rewound ==> t.head.Child? && r.head == t.head.parent) && (!o.rewound ==> r.head == t.head)
  {
    if run.journal.Some? { ReportExactly(git, t, run); }
  }

  /** After a full preparation, edits of the generated files and a commit on top survive
      cleanup, and the report retains the edited files instead of calling it clean. */
  lemma LaterWorkReported(i: Inputs, t: Tree, id: string, zf: File, seed: File)
    requires Sane(i) && zf != Some(i.renderedZf) && seed != Some(i.seedText)
    ensures var s := Prepare(i, Steps(i.flow), Start(t));
      var edited := s.tree.(head := Child(id, s.tree.head), zf := zf, seed := seed);
      var o := CleanOutcome(i.git, edited, s.run);
      && (ZfYaml in o.retained <==> zf.Some?) && (SeedFile in o.retained <==> seed.Some?) && !o.rewound
      && (Cleaned(o) <==> zf.None? && seed.None?)
  {
    var s := Prepare(i, Steps(i.flow), Start(t));
    var edited := s.tree.(head := Child(id, s.tree.head), zf := zf, seed := seed);
    PrepareAt(i, t, Steps(i.flow));
    LaterCommit(i, t, id);
    ReportExactly(i.git, edited, s.run);
    FullVerdicts(i, t);
    WebReported(s.tree.web, s.run.journal.value);
  }

  lemma LaterCommit(i: Inputs, t: Tree, id: string)
    ensures var s := Prepare(i, Steps(i.flow), Start(t)); s.mem.checkpoint != Some(Child(id, s.tree.head))
  {
    var s := Prepare(i, Steps(i.flow), Start(t));
    PrepareAt(i, t, Steps(i.flow));
    assert s.tree.head != Child(id, s.tree.head);
  }

  lemma WebReported(web: NodeModules, m: Manifest)
    ensures WebVerdict(web, m).Removed? <==> !m.webPreexisting && WebOurs(web, m)
    ensures !WebVerdict(web, m).Restored?
    ensures WebVerdict(web, m).Retained? <==>
      !m.webPreexisting && !web.Absent? && m.webMode in {Linked, Installed, Preparing} && !WebOurs(web, m)
  {
  }
}
