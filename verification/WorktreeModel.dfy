/** Worktree preparation as a write-ahead protocol: what each preparation step does to
    the worktree and to the run directory, and what cleanup makes of it. */
module WorktreeModel {
  import opened Options

  type Content = string

  /** SHA-256 taken as injective; `NoDigest` is the empty string, which stands for "not
      recorded" in a manifest and for "unreadable" as the digest of a missing file. */
  datatype Digest = NoDigest | Sha256(content: Content)

  type File = Option<Content>

  function PathSha256(f: File): Digest {
    if f.None? then NoDigest else Sha256(f.value)
  }

  /** `web/node_modules`: nothing, a symbolic link, or a real directory. */
  datatype NodeModules = Absent | Link(target: string) | Dir(files: set<string>)

  const TSC := ".bin/tsc"

  datatype Commit = Root(id: string) | Child(id: string, parent: Commit)

  datatype Mode = Pending | Preparing | Linked | Installed | Present | NoPackage

  /** The part of the journal that cleanup reads. */
  datatype Manifest = Manifest(
    zfExisted: bool, generatedZf: Digest,
    seedExisted: bool, generatedSeed: Digest,
    checkpoint: Option<Commit>,
    webMode: Mode, webPreexisting: bool, webTarget: string)

  datatype Tree = Tree(zf: File, seed: File, web: NodeModules, head: Commit)

  /** One run directory: the journal and the backups. */
  datatype RunDir = RunDir(journal: Option<Manifest>, zfBackup: File, seedBackup: File)

  /** Worktree, run directory, the in-memory `preparation` dictionary, and the mode that
      `ensure_web_dependencies` returned. */
  datatype State = State(tree: Tree, run: RunDir, mem: Manifest, returned: Mode)

  const BLANK := Manifest(false, NoDigest, false, NoDigest, None, Pending, false, "")

  /** A preparation starts in a fresh run directory. */
  function Start(t: Tree): State { State(t, RunDir(None, None, None), BLANK, Pending) }

  /** A run of npm ci leaves things as they were, removes them, or leaves a directory. */
  datatype Npm = Untouched | Removes | Installs(files: set<string>)

  /** Everything preparation does not decide itself. */
  datatype Inputs = Inputs(
    renderedZf: Content,
    seedText: Content,
    syncedSeed: Option<File>,    // what the checkout overlay makes of the seed file, if it touches it
    hasPackage: bool,            // web/package.json and its lock exist
    linkTsc: bool,               // a pre-existing link leads to a tree with .bin/tsc
    sourceModules: string,       // the repository's own node_modules
    sourceTsc: bool,
    npm: Npm,                    // what a run of npm ci does, finished or not
    flow: bool,                  // a flow kind is configured
    git: bool,                   // the worktree has a .git entry
    staged: bool,                // the baseline has something to commit
    commitId: string)

  /** The file system contract on the inputs: a path is not empty. */
  predicate Sane(i: Inputs) { i.sourceModules != "" }

  datatype Step =
    | BackupZf | BackupSeed | JournalInit | Sync | JournalSynced
    | JournalZfPending | WriteZf | JournalZfWritten
    | JournalWebPreparing | UnlinkWeb | ProvideWeb | JournalWebPrepared
    | JournalBaselinePending | Checkpoint | JournalCheckpointed
    | JournalSeedPending | WriteSeed | JournalPrepared

  /** The step sequence of `prepare_worktree` with a flow kind, by position. */
  function Nth(n: nat): Step {
    match n
    case 0 => BackupZf
    case 1 => BackupSeed
    case 2 => JournalInit
    case 3 => Sync
    case 4 => JournalSynced
    case 5 => JournalZfPending
    case 6 => WriteZf
    case 7 => JournalZfWritten
    case 8 => JournalWebPreparing
    case 9 => UnlinkWeb
    case 10 => ProvideWeb
    case 11 => JournalWebPrepared
    case 12 => JournalBaselinePending
    case 13 => Checkpoint
    case 14 => JournalCheckpointed
    case 15 => JournalSeedPending
    case 16 => WriteSeed
    case _ => JournalPrepared
  }

  /** Without a flow kind the three baseline steps are left out. */
  function StepAt(flow: bool, n: nat): Step { Nth(if !flow && n >= 12 then n + 3 else n) }

  function Steps(flow: bool): nat { if flow then 18 else 15 }

  /** `target_tsc.exists()`. */
  predicate HasTsc(i: Inputs, web: NodeModules) {
    match web
    case Absent => false
    case Link(_) => i.linkTsc
    case Dir(files) => TSC in files
  }

  /** `ensure_web_dependencies` first unlinks a link that leads to no compiler, if it has a
      better one to offer. */
  function Unlink(i: Inputs, web: NodeModules): NodeModules {
    if i.hasPackage && !HasTsc(i, web) && i.sourceTsc && web.Link? then Absent else web
  }

  function RunNpm(npm: Npm, web: NodeModules): NodeModules {
    match npm
    case Untouched => web
    case Removes => Absent
    case Installs(files) => Dir(files)
  }

  /** `ensure_web_dependencies`: the returned mode and the new node_modules. */
  function Ensure(i: Inputs, web: NodeModules): (Mode, NodeModules) {
    if !i.hasPackage then (NoPackage, web)
    else if HasTsc(i, web) then (Present, web)
    else if i.sourceTsc && !web.Dir? then (Linked, Link(i.sourceModules))
    else (Installed, RunNpm(i.npm, web))
  }

  function ReadLink(web: NodeModules): string { if web.Link? then web.target else "" }

  function Journal(s: State): State { s.(run := s.run.(journal := Some(s.mem))) }

  /** The steps that end in a journal write. */
  predicate Journals(step: Step) {
    match step
    case BackupZf | BackupSeed | Sync | WriteZf | UnlinkWeb | ProvideWeb | Checkpoint | WriteSeed => false
    case _ => true
  }

  /** What a journaling step changes in memory before it writes. */
  function Remember(step: Step, i: Inputs, s: State): State {
    match step
    case JournalInit => s.(mem := s.mem.(webPreexisting := !s.tree.web.Absent?))
    case JournalZfPending => s.(mem := s.mem.(generatedZf := Sha256(i.renderedZf)))
    case JournalWebPreparing =>
      s.(mem := s.mem.(webMode := Preparing, webTarget := if i.sourceTsc then i.sourceModules else ""))
    case JournalWebPrepared => s.(mem := s.mem.(webMode := s.returned, webTarget := ReadLink(s.tree.web)))
    case JournalCheckpointed => s.(mem := s.mem.(checkpoint := if i.git then Some(s.tree.head) else None))
    case JournalSeedPending => s.(mem := s.mem.(generatedSeed := Sha256(i.seedText)))
    case _ => s
  }

  function Apply(step: Step, i: Inputs, s: State): State {
    match step
    case BackupZf =>
      var s := s.(mem := s.mem.(zfExisted := s.tree.zf.Some?));
      if s.tree.zf.Some? then s.(run := s.run.(zfBackup := s.tree.zf)) else s
    case BackupSeed =>
      var s := s.(mem := s.mem.(seedExisted := s.tree.seed.Some?));
      if s.tree.seed.Some? then s.(run := s.run.(seedBackup := s.tree.seed)) else s
    case Sync => if i.syncedSeed.Some? then s.(tree := s.tree.(seed := i.syncedSeed.value)) else s
    case WriteZf => s.(tree := s.tree.(zf := Some(i.renderedZf)))
    case UnlinkWeb => s.(tree := s.tree.(web := Unlink(i, s.tree.web)))
    case ProvideWeb =>
      var (mode, web) := Ensure(i, s.tree.web);
      s.(tree := s.tree.(web := web), returned := mode)
    case Checkpoint =>
      if i.git && i.staged then s.(tree := s.tree.(head := Child(i.commitId, s.tree.head))) else s
    case WriteSeed => s.(tree := s.tree.(seed := Some(i.seedText)))
    case _ => Journal(Remember(step, i, s))
  }

  /** The state after the first n steps of a preparation. */
  function Prepare(i: Inputs, n: nat, s: State): State
    requires n <= Steps(i.flow)
  {
    if n == 0 then s else Apply(StepAt(i.flow, n - 1), i, Prepare(i, n - 1, s))
  }

  /** The exception handler of `prepare_worktree` up to its cleanup call: it records what
      is really at web/node_modules and journals the in-memory manifest. */
  function RecordFailure(s: State): State {
    if s.mem.webPreexisting then Journal(s)
    else
      match s.tree.web
      case Absent => Journal(s)
      case Link(target) => Journal(s.(mem := s.mem.(webMode := Linked, webTarget := target)))
      case Dir(_) => Journal(s.(mem := s.mem.(webMode := Installed)))
  }

  // ---------------------------------------------------------------------
  // Cleanup
  // ---------------------------------------------------------------------

  /** The rule for zf.yaml and for the seed file: act only on the recorded content. */
  function Restore(current: File, generated: Digest, existed: bool, backup: File): File {
    if generated != NoDigest && PathSha256(current) == generated then
      if existed && backup.Some? then backup else None
    else current
  }

  /** `_cleanup_web_dependencies`. */
  function CleanWeb(web: NodeModules, m: Manifest): NodeModules {
    if m.webPreexisting || web.Absent? then web
    else if m.webMode.Linked? || (m.webMode.Preparing? && web.Link?) then
      if web.Link? && m.webTarget != "" && web.target == m.webTarget then Absent else web
    else if m.webMode.Installed? || m.webMode.Preparing? then
      if web.Dir? then Absent else web
    else web
  }

  /** `_rewind_owned_baseline_checkpoint`. */
  function Rewind(head: Commit, git: bool, m: Manifest): Commit {
    if m.checkpoint.None? || !git || head != m.checkpoint.value || head.Root? then head else head.parent
  }

  function Clean(git: bool, t: Tree, run: RunDir): Tree {
    match run.journal
    case None => t
    case Some(m) =>
      Tree(Restore(t.zf, m.generatedZf, m.zfExisted, run.zfBackup),
           Restore(t.seed, m.generatedSeed, m.seedExisted, run.seedBackup),
           CleanWeb(t.web, m),
           Rewind(t.head, git, m))
  }

  /** `_cleanup_pending`: the test `cleanup_interrupted_prepared_worktree` makes first. */
  predicate CleanupPending(t: Tree, m: Manifest) {
    || (m.generatedZf != NoDigest && PathSha256(t.zf) == m.generatedZf)
    || (m.generatedSeed != NoDigest && PathSha256(t.seed) == m.generatedSeed)
    || (!m.webPreexisting && (m.webMode.Linked? || m.webMode.Installed? || m.webMode.Preparing?) && !t.web.Absent?)
  }

  /** `cleanup_interrupted_prepared_worktree` on the newest manifest. */
  function CleanInterrupted(git: bool, t: Tree, run: RunDir): Tree {
    if run.journal.Some? && CleanupPending(t, run.journal.value) then Clean(git, t, run) else t
  }
}
