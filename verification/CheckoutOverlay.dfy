/** The dirty-checkout overlay: parse the NUL-separated name-status stream of `git diff` and
    replay it on a fresh worktree. */
module CheckoutOverlay {

  const NUL: char := '\0'
  const ZF_YAML := "zf.yaml"

  type Path = string
  type Content = string
  type Tree = map<Path, Content>

  /** One record of the stream: A, M, T and D name one path, R and C two.  The status is
      kept whole because renames and copies carry a similarity score. */
  datatype Record =
    | Plain(status: string, path: Path)
    | Pair(status: string, old_: Path, new_: Path)

  predicate TwoPaths(status: string) { "R" <= status || "C" <= status }

  // ---------------------------------------------------------------------
  // Printing and parsing
  // ---------------------------------------------------------------------

  function Tokens(rs: seq<Record>): seq<string> {
    if rs == [] then []
    else
      (match rs[0]
       case Plain(status, path) => [status, path]
       case Pair(status, o, n) => [status, o, n])
      + Tokens(rs[1..])
  }

  /** `git diff -z` ends every field with NUL. */
  function Print(tokens: seq<string>): string {
    if tokens == [] then "" else tokens[0] + [NUL] + Print(tokens[1..])
  }

  /** `text.split("\0")`. */
  function Split(s: string): (fields: seq<string>)
    ensures fields != []
  {
    if s == [] then [""]
    else if s[0] == NUL then [""] + Split(s[1..])
    else
      var rest := Split(s[1..]);
      [[s[0]] + rest[0]] + rest[1..]
  }

  function NonEmpty(fields: seq<string>): seq<string> {
    if fields == [] then [] else (if fields[0] == "" then [] else [fields[0]]) + NonEmpty(fields[1..])
  }

  /** The records the token loop sees from position i on; a truncated record ends it. */
  function Parse(tokens: seq<string>, i: nat): seq<Record>
    decreases |tokens| - i
  {
    if i >= |tokens| then []
    else if TwoPaths(tokens[i]) then
      if i + 2 >= |tokens| then [] else [Pair(tokens[i], tokens[i + 1], tokens[i + 2])] + Parse(tokens, i + 3)
    else
      if i + 1 >= |tokens| then [] else [Plain(tokens[i], tokens[i + 1])] + Parse(tokens, i + 2)
  }

  predicate Field(s: string) { s != "" && NUL !in s }

  predicate WellFormed(r: Record) {
    match r
    case Plain(status, path) => Field(status) && status[0] !in {'R', 'C'} && Field(path)
    case Pair(status, o, n) => Field(status) && status[0] in {'R', 'C'} && Field(o) && Field(n)
  }

  lemma {:induction false} SplitField(t: string, rest: string)
    requires NUL !in t
    ensures Split(t + [NUL] + rest) == [t] + Split(rest)
  {
    if t == "" {
      assert (t + [NUL] + rest)[1..] == rest;
    } else {
      assert (t + [NUL] + rest)[1..] == t[1..] + [NUL] + rest;
      SplitField(t[1..], rest);
      var tail := [t[1..]] + Split(rest);
      assert [t[0]] + tail[0] == t && tail[1..] == Split(rest);
    }
  }

  lemma {:induction false} SplitPrinted(tokens: seq<string>)
    requires forall k :: 0 <= k < |tokens| ==> Field(tokens[k])
    ensures NonEmpty(Split(Print(tokens))) == tokens
  {
    if tokens == [] {
      assert NonEmpty([""]) == [] + NonEmpty([""][1..]);
    } else {
      SplitField(tokens[0], Print(tokens[1..]));
      SplitPrinted(tokens[1..]);
      assert ([tokens[0]] + Split(Print(tokens[1..])))[1..] == Split(Print(tokens[1..]));
    }
  }

  lemma {:induction false} TokensAreFields(rs: seq<Record>)
    requires forall k :: 0 <= k < |rs| ==> WellFormed(rs[k])
    ensures forall k :: 0 <= k < |Tokens(rs)| ==> Field(Tokens(rs)[k])
  {
    if rs != [] {
      assert WellFormed(rs[0]);
      TokensAreFields(rs[1..]);
    }
  }

  lemma {:induction false} ParseTokens(before: seq<string>, rs: seq<Record>)
    requires forall k :: 0 <= k < |rs| ==> WellFormed(rs[k])
    ensures Parse(before + Tokens(rs), |before|) == rs
    decreases rs
  {
    if rs != [] {
      assert WellFormed(rs[0]);
      var head := if rs[0].Plain? then [rs[0].status, rs[0].path] else [rs[0].status, rs[0].old_, rs[0].new_];
      assert before + Tokens(rs) == (before + head) + Tokens(rs[1..]);
      ParseTokens(before + head, rs[1..]);
    }
  }

  /** Parsing inverts printing, for every list of records with non-empty NUL-free fields. */
  lemma ParseInvertsPrint(rs: seq<Record>)
    requires forall k :: 0 <= k < |rs| ==> WellFormed(rs[k])
    ensures Parse(NonEmpty(Split(Print(Tokens(rs)))), 0) == rs
  {
    TokensAreFields(rs);
    SplitPrinted(Tokens(rs));
    ParseTokens([], rs);
    assert [] + Tokens(rs) == Tokens(rs);
  }

  /** A stream that breaks off inside a record loses that record alone. */
  lemma {:induction false} TruncatedRecordIgnored(before: seq<string>, rs: seq<Record>, tail: seq<string>)
    requires forall k :: 0 <= k < |rs| ==> WellFormed(rs[k])
    requires |tail| <= 1 || (|tail| == 2 && TwoPaths(tail[0]))
    ensures Parse(before + Tokens(rs) + tail, |before|) == rs
    decreases rs
  {
    if rs != [] {
      assert WellFormed(rs[0]);
      var head := if rs[0].Plain? then [rs[0].status, rs[0].path] else [rs[0].status, rs[0].old_, rs[0].new_];
      assert before + Tokens(rs) + tail == (before + head) + Tokens(rs[1..]) + tail;
      TruncatedRecordIgnored(before + head, rs[1..], tail);
    }
  }

  // ---------------------------------------------------------------------
  // Replaying
  // ---------------------------------------------------------------------

  predicate NamesConfig(r: Record) {
    match r
    case Plain(_, path) => path == ZF_YAML
    case Pair(_, o, n) => o == ZF_YAML || n == ZF_YAML
  }

  function CopyFrom(checkout: Tree, path: Path, tree: Tree): Tree {
    if path in checkout then tree[path := checkout[path]] else tree
  }

  function Apply(r: Record, checkout: Tree, tree: Tree): Tree {
    if NamesConfig(r) then tree
    else
      match r
      case Plain(status, path) => if "D" <= status then tree - {path} else CopyFrom(checkout, path, tree)
      case Pair(_, o, n) => CopyFrom(checkout, n, tree - {o})
  }

  function Replay(rs: seq<Record>, checkout: Tree, tree: Tree): Tree {
    if rs == [] then tree else Replay(rs[1..], checkout, Apply(rs[0], checkout, tree))
  }

  datatype Summary = Summary(added: seq<Path>, modified: seq<Path>, deleted: seq<Path>, renamed: seq<(Path, Path)>)

  function Note(r: Record, checkout: Tree, s: Summary): Summary {
    if NamesConfig(r) then s
    else
      match r
      case Plain(status, path) =>
        if "D" <= status then s.(deleted := s.deleted + [path])
        else if path !in checkout then s
        else if "A" <= status then s.(added := s.added + [path])
        else s.(modified := s.modified + [path])
      case Pair(_, o, n) => s.(renamed := s.renamed + [(o, n)])
  }

  function Notes(rs: seq<Record>, checkout: Tree, s: Summary): Summary {
    if rs == [] then s else Notes(rs[1..], checkout, Note(rs[0], checkout, s))
  }

  const EMPTY := Summary([], [], [], [])

  /** The token loop of `sync_tracked_checkout_changes`. */
  method SyncTracked(stream: string, checkout: Tree, worktree: Tree) returns (tree: Tree, summary: Summary)
    ensures var rs := Parse(NonEmpty(Split(stream)), 0);
      tree == Replay(rs, checkout, worktree) && summary == Notes(rs, checkout, EMPTY)
  {
    var tokens := NonEmpty(Split(stream));
    ghost var all := Parse(tokens, 0);
    tree, summary := worktree, EMPTY;
    var i := 0;
    while i < |tokens|
      invariant 0 <= i
      invariant Replay(all, checkout, worktree) == Replay(Parse(tokens, i), checkout, tree)
      invariant Notes(all, checkout, EMPTY) == Notes(Parse(tokens, i), checkout, summary)
    {
      var status := tokens[i];
      i := i + 1;
      if TwoPaths(status) {
        if i + 1 >= |tokens| {
          break;
        }
        var o, n := tokens[i], tokens[i + 1];
        i := i + 2;
        if o == ZF_YAML || n == ZF_YAML {
          continue;
        }
        tree := tree - {o};
        if n in checkout {
          tree := tree[n := checkout[n]];
        }
        summary := summary.(renamed := summary.renamed + [(o, n)]);
        continue;
      }
      if i >= |tokens| {
        break;
      }
      var path := tokens[i];
      i := i + 1;
      if path == ZF_YAML {
        continue;
      }
      if "D" <= status {
        tree := tree - {path};
        summary := summary.(deleted := summary.deleted + [path]);
        continue;
      }
      if path !in checkout {
        continue;
      }
      tree := tree[path := checkout[path]];
      if "A" <= status {
        summary := summary.(added := summary.added + [path]);
      } else {
        summary := summary.(modified := summary.modified + [path]);
      }
    }
  }

  // ---------------------------------------------------------------------
  // What a replay means
  // ---------------------------------------------------------------------

  function Get(tree: Tree, p: Path): seq<Content> { if p in tree then [tree[p]] else [] }

  function Paths(r: Record): set<Path> {
    match r
    case Plain(_, path) => {path}
    case Pair(_, o, n) => {o, n}
  }

  /** What git means by a record about HEAD and the current checkout.  The source of a
      copy may be modified, renamed away, deleted or untouched. */
  predicate Describes(r: Record, head: Tree, checkout: Tree) {
    match r
    case Plain(status, path) =>
      if "D" <= status then path in head && path !in checkout
      else path in checkout && (path in head <==> !("A" <= status))
    case Pair(status, o, n) =>
      && o != n && o in head && n in checkout && n !in head
      && ("C" <= status || o !in checkout)
  }

  ghost predicate AllDescribe(rs: seq<Record>, head: Tree, checkout: Tree) {
    forall k :: 0 <= k < |rs| ==> Describes(rs[k], head, checkout)
  }

  /** A diff of HEAD against the checkout: every record is true, and every path that
      differs is named.  One path may be named by several records: git reports a copy
      beside the record of the copied file itself. */
  ghost predicate DiffOf(rs: seq<Record>, head: Tree, checkout: Tree) {
    && AllDescribe(rs, head, checkout)
    && (forall p :: Get(head, p) != Get(checkout, p) ==> exists k :: 0 <= k < |rs| && p in Paths(rs[k]))
  }

  /** The overlay does not skip the record, and it names p. */
  predicate Acts(r: Record, p: Path) { !NamesConfig(r) && p in Paths(r) }

  predicate CopiesFrom(r: Record, p: Path) { r.Pair? && "C" <= r.status && r.old_ == p && r.new_ != ZF_YAML }

  /** A record that brings p over from the checkout. */
  predicate Rewrites(r: Record, p: Path) { r.Plain? && r.path == p && !("D" <= r.status) }

  /** Every copy of a path that is still in the checkout is followed by a record that brings
      the path back. */
  ghost predicate CopiesHealed(rs: seq<Record>, checkout: Tree, p: Path) {
    p in checkout ==>
      forall k :: 0 <= k < |rs| && CopiesFrom(rs[k], p) ==> exists j :: k < j < |rs| && Rewrites(rs[j], p)
  }

  lemma ApplyElsewhere(r: Record, checkout: Tree, tree: Tree, p: Path)
    requires !Acts(r, p)
    ensures Get(Apply(r, checkout, tree), p) == Get(tree, p)
  {
  }

  /** A record decides its paths whatever was there before: only a copy gets its source
      wrong, by unlinking it. */
  lemma ApplyDecides(r: Record, head: Tree, checkout: Tree, tree: Tree, p: Path)
    requires Describes(r, head, checkout) && Acts(r, p)
    ensures Get(Apply(r, checkout, tree), p) == if CopiesFrom(r, p) then [] else Get(checkout, p)
  {
  }

  lemma {:induction false} ReplayElsewhere(rs: seq<Record>, checkout: Tree, tree: Tree, p: Path)
    requires forall k :: 0 <= k < |rs| ==> !Acts(rs[k], p)
    ensures Get(Replay(rs, checkout, tree), p) == Get(tree, p)
    decreases rs
  {
    if rs != [] {
      ApplyElsewhere(rs[0], checkout, tree, p);
      ReplayElsewhere(rs[1..], checkout, Apply(rs[0], checkout, tree), p);
    }
  }

  /** The last record that acts on a path decides it. */
  lemma {:induction false} ReplayLast(rs: seq<Record>, head: Tree, checkout: Tree, tree: Tree, p: Path, last: nat)
    requires AllDescribe(rs, head, checkout)
    requires last < |rs| && Acts(rs[last], p) && forall j :: last < j < |rs| ==> !Acts(rs[j], p)
    ensures Get(Replay(rs, checkout, tree), p) == if CopiesFrom(rs[last], p) then [] else Get(checkout, p)
    decreases rs
  {
    var next := Apply(rs[0], checkout, tree);
    if last == 0 {
      ApplyDecides(rs[0], head, checkout, tree, p);
      ReplayElsewhere(rs[1..], checkout, next, p);
    } else {
      ReplayLast(rs[1..], head, checkout, next, p, last - 1);
    }
  }

  lemma {:induction false} LastActing(rs: seq<Record>, p: Path) returns (last: nat)
    requires exists k :: 0 <= k < |rs| && Acts(rs[k], p)
    ensures last < |rs| && Acts(rs[last], p) && forall j :: last < j < |rs| ==> !Acts(rs[j], p)
  {
    var n := |rs| - 1;
    if Acts(rs[n], p) { return n; }
    last := LastActing(rs[..n], p);
  }

  /** In a true diff the copies of p are healed exactly if the last record acting on p is
      not one of them. */
  lemma HealedByLast(rs: seq<Record>, head: Tree, checkout: Tree, p: Path, last: nat)
    requires AllDescribe(rs, head, checkout) && p in checkout
    requires last < |rs| && Acts(rs[last], p) && forall j :: last < j < |rs| ==> !Acts(rs[j], p)
    ensures CopiesHealed(rs, checkout, p) <==> !CopiesFrom(rs[last], p)
  {
  }

  /** Path by path, protected ones included: a path no record acts on keeps its HEAD content;
      any other is reproduced exactly if its copies are healed. */
  lemma OverlayAt(rs: seq<Record>, head: Tree, checkout: Tree, p: Path)
    requires AllDescribe(rs, head, checkout)
    ensures Get(Replay(rs, checkout, head), p) == Get(checkout, p) <==>
      if exists k :: 0 <= k < |rs| && Acts(rs[k], p) then CopiesHealed(rs, checkout, p)
      else Get(head, p) == Get(checkout, p)
  {
    if exists k :: 0 <= k < |rs| && Acts(rs[k], p) {
      var last := LastActing(rs, p);
      ReplayLast(rs, head, checkout, head, p, last);
      if p in checkout { HealedByLast(rs, head, checkout, p, last); }
    } else {
      ReplayElsewhere(rs, checkout, head, p);
    }
  }

  /** A path is protected if a record that names zf.yaml names it too. */
  predicate Protected(rs: seq<Record>, p: Path) {
    exists k :: 0 <= k < |rs| && NamesConfig(rs[k]) && p in Paths(rs[k])
  }

  /** Replaying a diff on the HEAD tree reproduces the checkout on every path that is not
      protected, if and only if every copy of such a path that is still in the checkout is
      followed by a record of the path itself: the code unlinks the source of a copy as if
      it were a rename, and only a later record brings it back. */
  lemma OverlayReproducesCheckout(rs: seq<Record>, head: Tree, checkout: Tree)
    requires DiffOf(rs, head, checkout)
    ensures (forall p :: !Protected(rs, p) ==> Get(Replay(rs, checkout, head), p) == Get(checkout, p))
            <==> (forall p :: !Protected(rs, p) ==> CopiesHealed(rs, checkout, p))
  {
    forall p | !Protected(rs, p)
      ensures Get(Replay(rs, checkout, head), p) == Get(checkout, p) <==> CopiesHealed(rs, checkout, p)
    {
      OverlayAt(rs, head, checkout, p);
      if forall k :: 0 <= k < |rs| ==> !Acts(rs[k], p) {
        assert forall k :: 0 <= k < |rs| ==> p !in Paths(rs[k]);
      }
    }
  }

  /** What git prints for a modified file m and a copy of it depends on the name of the copy:
      after m in path order the overlay loses m, before m it keeps it. */
  lemma CopyOrderMatters(m: Path, z: Path, before: Content, now: Content)
    requires m != z && m != ZF_YAML && z != ZF_YAML && before != now
    ensures var head: Tree, checkout: Tree := map[m := before], map[m := now, z := before];
      var late, early := [Plain("M", m), Pair("C100", m, z)], [Pair("C100", m, z), Plain("M", m)];
      && DiffOf(late, head, checkout) && m !in Replay(late, checkout, head)
      && DiffOf(early, head, checkout) && Replay(early, checkout, head) == checkout
  {
    var head: Tree, checkout: Tree := map[m := before], map[m := now, z := before];
    var late, early := [Plain("M", m), Pair("C100", m, z)], [Pair("C100", m, z), Plain("M", m)];
    assert "M"[0] == 'M' && "C100"[0] == 'C';
    assert m in Paths(late[0]) && z in Paths(late[1]) && z in Paths(early[0]) && m in Paths(early[1]);
    ReplayLast(late, head, checkout, head, m, 1);
    var copied := Apply(early[0], checkout, head);
    assert Replay(early[1..], checkout, copied) == Apply(early[1], checkout, copied);
  }

  /** The paths the summary names, which are the ones a baseline checkpoint stages. */
  function Named(s: Summary): set<Path> {
    (set p | p in s.added) + (set p | p in s.modified) + (set p | p in s.deleted)
    + (set q | q in s.renamed :: q.0) + (set q | q in s.renamed :: q.1)
  }

  lemma NoteNames(r: Record, checkout: Tree, tree: Tree, s: Summary)
    ensures Named(s) <= Named(Note(r, checkout, s))
    ensures forall p :: Get(Apply(r, checkout, tree), p) != Get(tree, p) ==> p in Named(Note(r, checkout, s))
    ensures ZF_YAML !in Named(s) ==> ZF_YAML !in Named(Note(r, checkout, s))
  {
  }

  /** For any stream whatsoever: every path the overlay changes is named in its summary,
      and zf.yaml never is. */
  lemma {:induction false} ChangesAreReported(rs: seq<Record>, checkout: Tree, tree: Tree, s: Summary, p: Path)
    ensures Named(s) <= Named(Notes(rs, checkout, s))
    ensures Get(Replay(rs, checkout, tree), p) != Get(tree, p) ==> p in Named(Notes(rs, checkout, s))
    ensures ZF_YAML !in Named(s) ==> ZF_YAML !in Named(Notes(rs, checkout, s))
    decreases rs
  {
    if rs != [] {
      NoteNames(rs[0], checkout, tree, s);
      ChangesAreReported(rs[1..], checkout, Apply(rs[0], checkout, tree), Note(rs[0], checkout, s), p);
    }
  }

  /** For any stream whatsoever: the overlay takes contents from the checkout alone, leaves
      out what the checkout does not have, and removes a path only for a deletion of it or
      as the old path of a pair. */
  lemma {:induction false} NothingInvented(rs: seq<Record>, checkout: Tree, tree: Tree, p: Path)
    ensures var now := Get(Replay(rs, checkout, tree), p); now in {Get(tree, p), Get(checkout, p), []}
    ensures p in tree && p !in Replay(rs, checkout, tree) ==> exists k :: 0 <= k < |rs| && Removes(rs[k], p)
    ensures p !in tree && p in Replay(rs, checkout, tree) ==> p in checkout
    decreases rs
  {
    if rs != [] {
      var next := Apply(rs[0], checkout, tree);
      NothingInvented(rs[1..], checkout, next, p);
      if p in tree && p !in Replay(rs, checkout, tree) {
        if p !in next {
          assert Removes(rs[0], p);
        } else {
          var k :| 0 <= k < |rs| - 1 && Removes(rs[1..][k], p);
          assert Removes(rs[k + 1], p);
        }
      }
    }
  }

  predicate Removes(r: Record, p: Path) {
    if r.Plain? then r.path == p && "D" <= r.status else r.old_ == p
  }

  // ---------------------------------------------------------------------
  // The summary
  // ---------------------------------------------------------------------

  predicate Adds(r: Record, checkout: Tree, p: Path) {
    r.Plain? && "A" <= r.status && r.path == p && p in checkout && p != ZF_YAML
  }

  predicate Modifies(r: Record, checkout: Tree, p: Path) {
    r.Plain? && !("A" <= r.status) && !("D" <= r.status) && r.path == p && p in checkout && p != ZF_YAML
  }

  predicate Deletes(r: Record, p: Path) { r.Plain? && "D" <= r.status && r.path == p && p != ZF_YAML }

  predicate Renames(r: Record, o: Path, n: Path) {
    r.Pair? && r.old_ == o && r.new_ == n && o != ZF_YAML && n != ZF_YAML
  }

  ghost predicate Reported(rs: seq<Record>, checkout: Tree, before: Summary, after: Summary) {
    && (forall p :: p in after.added <==> p in before.added || exists k :: 0 <= k < |rs| && Adds(rs[k], checkout, p))
    && (forall p :: p in after.modified <==>
          p in before.modified || exists k :: 0 <= k < |rs| && Modifies(rs[k], checkout, p))
    && (forall p :: p in after.deleted <==> p in before.deleted || exists k :: 0 <= k < |rs| && Deletes(rs[k], p))
    && (forall o, n :: (o, n) in after.renamed <==>
          (o, n) in before.renamed || exists k :: 0 <= k < |rs| && Renames(rs[k], o, n))
  }

  /** Each list of the summary holds exactly the paths of the records of its kind: added and
      modified ones that the checkout has, deleted ones, and the pairs; records that name
      zf.yaml are in none. */
  lemma {:induction false} SummaryExactly(rs: seq<Record>, checkout: Tree, s: Summary)
    ensures Reported(rs, checkout, s, Notes(rs, checkout, s))
    decreases rs
  {
    if rs != [] {
      var next := Note(rs[0], checkout, s);
      SummaryExactly(rs[1..], checkout, next);
      NoteReports(rs[0], checkout, s);
      ReportedCons(rs, checkout, s, next, Notes(rs, checkout, s));
    }
  }

  ghost predicate NoteReported(r: Record, checkout: Tree, before: Summary, after: Summary) {
    && (forall p :: p in after.added <==> p in before.added || Adds(r, checkout, p))
    && (forall p :: p in after.modified <==> p in before.modified || Modifies(r, checkout, p))
    && (forall p :: p in after.deleted <==> p in before.deleted || Deletes(r, p))
    && (forall o, n :: (o, n) in after.renamed <==> (o, n) in before.renamed || Renames(r, o, n))
  }

  lemma NoteReports(r: Record, checkout: Tree, s: Summary)
    ensures NoteReported(r, checkout, s, Note(r, checkout, s))
  {
    if r.Plain? && "A" <= r.status { assert r.status[0] == 'A'; }
  }

  lemma ReportedCons(rs: seq<Record>, checkout: Tree, before: Summary, next: Summary, after: Summary)
    requires rs != [] && NoteReported(rs[0], checkout, before, next) && Reported(rs[1..], checkout, next, after)
    ensures Reported(rs, checkout, before, after)
  {
    assert rs == [rs[0]] + rs[1..];
  }
}
