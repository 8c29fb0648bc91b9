/** Committing an install, or putting the tree back (framework_release.go).

    A repository is three trees: HEAD, the index and the work tree.  Which untracked files git
    ignores, it reads off the .gitignore files of the work tree, which an install may write. */
module InstallRevert {
  import opened Options
  import opened Porcelain

  type Path = string
  type Content = string
  type Tree = map<Path, Content>

  /** What git ignores in a work tree. */
  type Rules = (Tree, Path) -> bool

  const BOARD_DIR := ".aboard/"
  const STATE_DIR := "_apex/state"

  predicate UnderBoard(p: Path) { BOARD_DIR <= p }

  predicate IsV1StatePath(p: Path) { p == STATE_DIR || STATE_DIR + "/" <= p }

  const ROOT_IGNORE := ".gitignore"

  predicate UnderClaude(p: Path) { ".claude/" <= p }

  predicate IsInstalledSkill(p: Path) { ".claude/skills/apex-" <= p }

  /** The folders these are, each path in them beginning with the folder's name and a slash. */
  lemma FoldersExactly(p: Path)
    ensures UnderBoard(p) <==> exists rest: string :: p == ".aboard/" + rest
    ensures IsV1StatePath(p) <==> p == "_apex/state" || exists rest: string :: p == "_apex/state/" + rest
    ensures UnderClaude(p) <==> exists rest: string :: p == ".claude/" + rest
    ensures IsInstalledSkill(p) <==> exists rest: string :: p == ".claude/skills/apex-" + rest
  {
    PrefixExactly(".aboard/", p);
    PrefixExactly("_apex/state/", p);
    PrefixExactly(".claude/", p);
    PrefixExactly(".claude/skills/apex-", p);
    assert STATE_DIR + "/" == "_apex/state/";
  }

  lemma PrefixExactly(a: string, p: string)
    ensures a <= p <==> exists rest: string :: p == a + rest
  {
    if a <= p { assert p == a + p[|a|..]; }
  }

  datatype Snapshot = Snapshot(head: Tree, index: Tree, work: Tree)

  /** No tracked file modified or staged. */
  predicate Clean(s: Snapshot) {
    s.index == s.head && forall p :: p in s.index ==> p in s.work && s.work[p] == s.index[p]
  }

  function Untracked(s: Snapshot, rules: Rules): set<Path> {
    set p | p in s.work && p !in s.index && !rules(s.work, p)
  }

  /** Tracked paths that differ between HEAD, index and work tree. */
  function Changed(s: Snapshot): set<Path> {
    set p | p in s.head.Keys + s.index.Keys
            && !(p in s.head && p in s.index && p in s.work && s.head[p] == s.index[p] == s.work[p])
  }

  /** A tracked path that is not the same in HEAD, index and work tree. */
  predicate Differs(head: Tree, index: Tree, work: Tree, p: Path) {
    || (p in head && (p !in index || p !in work || index[p] != head[p] || work[p] != head[p]))
    || (p in index && p !in head)
  }

  lemma CleanIsUnchanged(s: Snapshot)
    ensures Clean(s) <==> Changed(s) == {}
  {
    if Changed(s) == {} {
      forall p | p in s.head.Keys + s.index.Keys
        ensures p in s.head && p in s.index && p in s.work && s.head[p] == s.index[p] == s.work[p]
      {
        assert p !in Changed(s);
      }
    }
  }

  method ListPaths(s: set<Path>) returns (r: seq<Path>)
    ensures forall p :: p in r <==> p in s
  {
    r := [];
    var left := s;
    while left != {}
      invariant left <= s
      invariant forall p :: p in r <==> p in s - left
      decreases left
    {
      var p :| p in left;
      r := r + [p];
      left := left - {p};
    }
  }

  datatype Precheck =
    | NotARepository
    | DetachedHead
    | Dirty(paths: seq<Path>)
    | Passed(before: set<Path>)

  class Repository {
    var isRepo: bool
    var onBranch: bool
    var head: Tree
    var index: Tree
    var work: Tree

    function Snap(): Snapshot
      reads this
    {
      Snapshot(head, index, work)
    }

    /** git's own answer, as the parsed list of entries. */
    method Status(rules: Rules) returns (entries: seq<StatusEntry>)
      ensures forall p :: StatusEntry(p, true) in entries <==> p in Untracked(Snap(), rules)
      ensures forall p :: StatusEntry(p, false) in entries <==> p in Changed(Snap())
    {
      var u := ListPaths(Untracked(Snap(), rules));
      var c := ListPaths(Changed(Snap()));
      entries := seq(|u|, i requires 0 <= i < |u| => StatusEntry(u[i], true))
               + seq(|c|, i requires 0 <= i < |c| => StatusEntry(c[i], false));
      forall p ensures StatusEntry(p, true) in entries <==> p in u {
        if p in u { var i :| 0 <= i < |u| && u[i] == p; assert entries[i] == StatusEntry(p, true); }
      }
      forall p ensures StatusEntry(p, false) in entries <==> p in c {
        if p in c { var i :| 0 <= i < |c| && c[i] == p; assert entries[|u| + i] == StatusEntry(p, false); }
      }
    }

    /** Passes exactly on a branch of a repository with nothing tracked changed, and returns the
        untracked files git shows. */
    method CommitPrecheck(rules: Rules) returns (r: Precheck)
      ensures r.Passed? <==> isRepo && onBranch && Clean(Snap())
      ensures r.NotARepository? <==> !isRepo
      ensures r.DetachedHead? <==> isRepo && !onBranch
      ensures r.Dirty? <==> isRepo && onBranch && !Clean(Snap())
      ensures r.Passed? ==> forall p :: p in r.before <==> p in work && p !in index && !rules(work, p)
      ensures r.Dirty? ==> forall p :: p in r.paths <==> Differs(head, index, work, p)
    {
      CleanIsUnchanged(Snap());
      if !isRepo { return NotARepository; }
      if !onBranch { return DetachedHead; }
      var status := Status(rules);
      var untracked: set<Path> := {};
      var dirty: seq<Path> := [];
      for i := 0 to |status|
        invariant forall p :: p in untracked <==> StatusEntry(p, true) in status[..i]
        invariant forall p :: p in dirty <==> StatusEntry(p, false) in status[..i]
      {
        assert status[..i + 1] == status[..i] + [status[i]];
        if status[i].untracked {
          untracked := untracked + {status[i].path};
        } else {
          dirty := dirty + [status[i].path];
        }
      }
      assert status[..|status|] == status;
      if dirty != [] {
        assert dirty[0] in dirty;
        return Dirty(dirty);
      }
      assert forall p :: p !in Changed(Snap());
      return Passed(untracked);
    }

    /** Stages every tracked change and every new untracked file, ape's own state left out, and
        commits the index; nothing to stage, no commit.  A commit the hooks or the secret scan do
        not accept leaves everything staged. */
    method CommitInstall(before: set<Path>, rules: Rules, accepted: bool) returns (committed: bool)
      modifies this`index, this`head
      ensures committed <==> accepted && ToCommit(old(Snap()), before, rules) != {}
      ensures committed ==> Snap() == Committed(old(Snap()), before, rules)
      ensures !committed ==>
        Snap() == old(Snap()).(index := Staged(old(Snap()), ToCommit(old(Snap()), before, rules)))
    {
      var status := Status(rules);
      var paths: seq<Path> := [];
      for i := 0 to |status|
        invariant forall p :: p in paths <==>
          && (StatusEntry(p, false) in status[..i] || (StatusEntry(p, true) in status[..i] && p !in before))
          && !IsV1StatePath(p)
      {
        assert status[..i + 1] == status[..i] + [status[i]];
        var e := status[i];
        if e.untracked && e.path in before { continue; }
        if IsV1StatePath(e.path) { continue; }
        paths := paths + [e.path];
      }
      assert status[..|status|] == status;
      assert forall p :: p in paths <==> p in ToCommit(old(Snap()), before, rules);
      if paths == [] {
        assert ToCommit(old(Snap()), before, rules) == {};
        assert Staged(old(Snap()), {}) == index;
        return false;
      }
      assert paths[0] in ToCommit(old(Snap()), before, rules);
      StagePaths(paths, ToCommit(Snap(), before, rules));
      if !accepted { return false; }
      head := index;
      committed := true;
    }

    /** The .claude/ shape put in the root .gitignore, unless it is there: every file under .claude/
        that this shows to git, and that is not one of the installed skills, joins `before`. */
    method ApplyClaudeIgnore(before: set<Path>, rules: Rules, already: bool, shaped: Content) returns (before': set<Path>)
      modifies this`work
      ensures work == if already then old(work) else old(work)[ROOT_IGNORE := shaped]
      ensures before' == before + Revealed(old(Snap()), work, rules)
    {
      before' := before;
      if already {
        assert Revealed(Snap(), work, rules) == {};
        return;
      }
      var ignored := ListPaths(set p | p in work && p !in index && UnderClaude(p) && rules(work, p));
      work := work[ROOT_IGNORE := shaped];
      for i := 0 to |ignored|
        invariant forall p :: p in before' <==>
          p in before || (p in ignored[..i] && !rules(work, p) && !IsInstalledSkill(p))
      {
        assert ignored[..i + 1] == ignored[..i] + [ignored[i]];
        if !rules(work, ignored[i]) && !IsInstalledSkill(ignored[i]) {
          before' := before' + {ignored[i]};
        }
      }
      assert ignored[..|ignored|] == ignored;
    }

    /** `git add -A -- paths` */
    method StagePaths(paths: seq<Path>, ghost all: set<Path>)
      requires forall p :: p in paths <==> p in all
      modifies this`index
      ensures index == Staged(old(Snap()), all)
    {
      ghost var was := Snap();
      ghost var done: set<Path> := {};
      assert index == Staged(was, {});
      for i := 0 to |paths|
        invariant forall p :: p in done <==> p in paths[..i]
        invariant index == Staged(was, done)
      {
        StageOne(was, done, index, paths[i]);
        index := if paths[i] in work then index[paths[i] := work[paths[i]]] else index - {paths[i]};
        done := done + {paths[i]};
      }
      assert done == all;
    }

    /** `git reset`, `git checkout -- .`, then every new untracked file removed, then the board
        this run created.  The checkout fails when HEAD tracks nothing. */
    method RevertInstall(before: set<Path>, rules: Rules, aboardCreated: bool) returns (ok: bool)
      modifies this`index, this`work
      ensures ok <==> head != map[]
      ensures index == head
      ensures work == AfterRevert(head, old(work), before, rules, aboardCreated)
    {
      index := head;
      if index == map[] { return false; }
      work := work + index;
      var status := Status(rules);
      var base := work;
      ghost var gone: set<Path> := {};
      for i := 0 to |status|
        invariant index == head && work == base - gone
        invariant forall p :: p in gone <==>
          StatusEntry(p, true) in status[..i] && p !in before && !IsV1StatePath(p)
      {
        assert status[..i + 1] == status[..i] + [status[i]];
        var e := status[i];
        if !e.untracked || e.path in before || IsV1StatePath(e.path) { continue; }
        work := work - {e.path};
        gone := gone + {e.path};
      }
      assert status[..|status|] == status;
      assert gone == NewFiles(head, old(work), before, rules);
      if aboardCreated {
        RemoveCreatedBoard(before);
      }
      ok := true;
    }

    /** With nothing tracked under the board's folder it goes whole; otherwise every file there
        that is neither tracked nor was shown as untracked before. */
    method RemoveCreatedBoard(before: set<Path>)
      requires index == head
      modifies this`work
      ensures work == old(work) - BoardFiles(head, old(work), before)
    {
      var tracked := set p | p in index && UnderBoard(p);
      if tracked == {} {
        assert forall p :: p in head && UnderBoard(p) ==> p in tracked;
        work := work - (set p | p in work && UnderBoard(p));
        assert work == old(work) - BoardFiles(head, old(work), before);
        return;
      }
      var t :| t in tracked;
      var here := ListPaths(set p | p in work && UnderBoard(p));
      var files: seq<Path> := [];
      for i := 0 to |here|
        invariant forall p :: p in files <==> p in here[..i] && p !in tracked && p !in before
      {
        if here[i] !in tracked && here[i] !in before {
          files := files + [here[i]];
        }
      }
      assert here[..|here|] == here;
      for i := 0 to |files|
        invariant work == old(work) - (set p | p in files[..i])
      {
        work := work - {files[i]};
      }
      assert files[..|files|] == files;
      assert (set p | p in files) == BoardFiles(head, old(work), before);
    }
  }

  // ---------------------------------------------------------------------------------------
  // What a commit takes, and what a revert leaves.

  function ToCommit(s: Snapshot, before: set<Path>, rules: Rules): set<Path> {
    set p | p in Changed(s) + (Untracked(s, rules) - before) && !IsV1StatePath(p)
  }

  /** The index once the paths are staged as they are in the work tree. */
  function Staged(s: Snapshot, paths: set<Path>): Tree {
    map p | p in s.index.Keys + s.work.Keys && (if p in paths then p in s.work else p in s.index)
      :: if p in paths then s.work[p] else s.index[p]
  }

  lemma StageOne(s: Snapshot, done: set<Path>, index: Tree, p: Path)
    requires index == Staged(s, done)
    ensures Staged(s, done + {p}) == if p in s.work then index[p := s.work[p]] else index - {p}
  {
  }

  function Committed(s: Snapshot, before: set<Path>, rules: Rules): Snapshot {
    var index := Staged(s, ToCommit(s, before, rules));
    Snapshot(index, index, s.work)
  }

  /** What a rewrite of the rules shows to git under .claude/, the installed skills aside. */
  function Revealed(s: Snapshot, work: Tree, rules: Rules): set<Path> {
    set p | p in s.work && p !in s.index && UnderClaude(p) && rules(s.work, p) && !rules(work, p) && !IsInstalledSkill(p)
  }

  /** The untracked files git shows after the checkout that were not there before. */
  function NewFiles(head: Tree, work: Tree, before: set<Path>, rules: Rules): set<Path> {
    set p | p in work && p !in head && !rules(work + head, p) && p !in before && !IsV1StatePath(p)
  }

  ghost predicate TracksBoard(head: Tree) { exists p :: p in head && UnderBoard(p) }

  /** The files the created board takes with it. */
  ghost function BoardFiles(head: Tree, work: Tree, before: set<Path>): set<Path> {
    set p | p in work && UnderBoard(p) && (!TracksBoard(head) || (p !in head && p !in before))
  }

  ghost function Reverted(head: Tree, work: Tree, before: set<Path>, rules: Rules, aboardCreated: bool): Tree {
    var base := (work + head) - NewFiles(head, work, before, rules);
    if aboardCreated then base - BoardFiles(head, base, before) else base
  }

  /** What the revert leaves: with nothing in HEAD its checkout fails, and it goes no further. */
  ghost function AfterRevert(head: Tree, work: Tree, before: set<Path>, rules: Rules, aboardCreated: bool): Tree {
    if head == map[] then work else Reverted(head, work, before, rules, aboardCreated)
  }

  // ---------------------------------------------------------------------------------------
  // What an install may do.

  datatype Op =
    | Edit(path: Path, content: Content)      // a tracked file
    | Create(path: Path, content: Content)    // a new file
    | Delete(path: Path)
    | Stage(path: Path)
    | Commit                                  // a migration's own commit

  function Do(s: Snapshot, op: Op): Snapshot {
    match op
    case Edit(p, c) => s.(work := s.work[p := c])
    case Create(p, c) => s.(work := s.work[p := c])
    case Delete(p) => s.(work := s.work - {p})
    case Stage(p) =>
      s.(index := if p in s.work then s.index[p := s.work[p]] else s.index - {p})
    case Commit => s.(head := s.index)
  }

  /** The install as it starts: what was there, how git ignores, whether it makes the board. */
  datatype Start = Start(s: Snapshot, rules: Rules, aboardCreated: bool)

  predicate WasUntracked(st: Start, p: Path) { p in st.s.work && p !in st.s.head }

  predicate Permitted(st: Start, s: Snapshot, op: Op) {
    op.Commit?
    || (&& !WasUntracked(st, op.path) && !IsV1StatePath(op.path)
        && (op.Edit? ==> op.path in s.index)
        && (op.Create? ==> op.path !in s.index))
  }

  function DoAll(s: Snapshot, ops: seq<Op>): Snapshot
    decreases |ops|
  {
    if ops == [] then s else DoAll(Do(s, ops[0]), ops[1..])
  }

  predicate AllPermitted(st: Start, s: Snapshot, ops: seq<Op>)
    decreases |ops|
  {
    ops == [] || (Permitted(st, s, ops[0]) && AllPermitted(st, Do(s, ops[0]), ops[1..]))
  }

  /** What every operation keeps. */
  ghost predicate Kept(st: Start, s: Snapshot) {
    && (forall p :: WasUntracked(st, p) ==>
          p in s.work && s.work[p] == st.s.work[p] && p !in s.index && p !in s.head)
    && (forall p :: IsV1StatePath(p) && p in s.work ==> p in s.head || WasUntracked(st, p))
    && (forall p :: IsV1StatePath(p) && p in s.head.Keys + s.index.Keys ==>
          p in s.head && p in s.index && p in s.work && s.head[p] == s.index[p] == s.work[p])
  }

  lemma DoKeeps(st: Start, s: Snapshot, op: Op)
    requires Kept(st, s) && Permitted(st, s, op)
    ensures Kept(st, Do(s, op))
  {
  }

  lemma {:induction false} InstallKeeps(st: Start, s: Snapshot, ops: seq<Op>)
    requires Kept(st, s) && AllPermitted(st, s, ops)
    ensures Kept(st, DoAll(s, ops))
    decreases |ops|
  {
    if ops != [] {
      DoKeeps(st, s, ops[0]);
      InstallKeeps(st, Do(s, ops[0]), ops[1..]);
    }
  }

  function WasThere(st: Start): Tree { map p | p in st.s.work && p !in st.s.head :: st.s.work[p] }

  // ---------------------------------------------------------------------------------------
  // The revert.  `before` is what the precheck found, or that and what joined it since.

  /** git shows the file when the revert looks, the checkout done. */
  predicate ShownAtRevert(st: Start, end: Snapshot, p: Path) {
    !st.rules(end.work + end.head, p)
  }

  predicate Added(st: Start, end: Snapshot, p: Path) {
    p in end.work && p !in end.head && !WasUntracked(st, p)
  }

  /** Every file the install added is shown at the revert's look and not among `before`, or goes
      with the board. */
  ghost predicate AddedGo(st: Start, end: Snapshot, before: set<Path>) {
    forall p :: Added(st, end, p) ==>
      || (ShownAtRevert(st, end, p) && p !in before)
      || (st.aboardCreated && UnderBoard(p) && (!TracksBoard(end.head) || p !in before))
  }

  /** No earlier file that is not among `before` is shown then. */
  ghost predicate EarlierStay(st: Start, end: Snapshot, before: set<Path>) {
    forall p :: WasUntracked(st, p) && p !in before && !IsV1StatePath(p) ==> !ShownAtRevert(st, end, p)
  }

  /** What the board's removal must not reach: every earlier file under the board's folder is among
      `before`, and if there is one some file there is tracked. */
  ghost predicate BoardSafe(st: Start, head: Tree, before: set<Path>) {
    st.aboardCreated ==>
      forall p :: WasUntracked(st, p) && UnderBoard(p) ==> p in before && TracksBoard(head)
  }

  /** The install left no file of its own in the work tree. */
  ghost predicate NothingAdded(st: Start, work: Tree) {
    forall p :: p in work ==> WasUntracked(st, p)
  }

  /** When the revert works; with nothing in HEAD it can only when there is nothing to revert. */
  ghost predicate Revertible(st: Start, end: Snapshot, before: set<Path>) {
    if end.head == map[] then NothingAdded(st, end.work)
    else AddedGo(st, end, before) && EarlierStay(st, end, before) && BoardSafe(st, end.head, before)
  }

  /** The untracked files the revert removes. */
  ghost predicate GoesAway(st: Start, end: Snapshot, before: set<Path>, p: Path) {
    || (ShownAtRevert(st, end, p) && p !in before && !IsV1StatePath(p))
    || (st.aboardCreated && UnderBoard(p) && (!TracksBoard(end.head) || p !in before))
  }

  lemma LeftAfterRevert(st: Start, end: Snapshot, before: set<Path>, p: Path)
    ensures var left := Reverted(end.head, end.work, before, st.rules, st.aboardCreated);
      && (p in left <==> p in end.head || (p in end.work && !GoesAway(st, end, before, p)))
      && (p in left ==> left[p] == (end.work + end.head)[p])
  {
    if p in end.head && UnderBoard(p) { assert TracksBoard(end.head); }
  }

  lemma BoardIsNotState(p: Path)
    ensures !(UnderBoard(p) && IsV1StatePath(p))
  {
    assert BOARD_DIR[0] == '.' && STATE_DIR[0] == '_';
  }

  lemma RestoredExactly(st: Start, end: Snapshot, before: set<Path>)
    requires Clean(st.s) && Kept(st, end) && end.head != map[]
    ensures Reverted(end.head, end.work, before, st.rules, st.aboardCreated) == end.head + WasThere(st)
      <==> Revertible(st, end, before)
  {
    var left := Reverted(end.head, end.work, before, st.rules, st.aboardCreated);
    var goal := end.head + WasThere(st);
    forall p
      ensures p in left <==> p in end.head || (p in end.work && !GoesAway(st, end, before, p))
      ensures p in left && p in goal ==> left[p] == goal[p]
    {
      LeftAfterRevert(st, end, before, p);
    }
    if Revertible(st, end, before) {
      forall p ensures p in left <==> p in goal {
        BoardIsNotState(p);
        if p in end.work && p !in end.head { assert WasUntracked(st, p) || Added(st, end, p); }
      }
      assert left == goal;
    }
    if left == goal {
      forall p | Added(st, end, p)
        ensures GoesAway(st, end, before, p)
      {
        assert p !in goal;
      }
      forall p | WasUntracked(st, p) ensures !GoesAway(st, end, before, p) {
        assert p in goal;
      }
    }
  }

  /** After a precheck that passed, an install of any permitted operations and a revert with any
      `before`: the work tree is HEAD's content plus the untracked files that were there before,
      exactly when the install was revertible. */
  lemma RevertRestoresExactly(st: Start, ops: seq<Op>, before: set<Path>)
    requires Clean(st.s) && AllPermitted(st, st.s, ops)
    ensures var end := DoAll(st.s, ops);
      AfterRevert(end.head, end.work, before, st.rules, st.aboardCreated) == end.head + WasThere(st)
      <==> Revertible(st, end, before)
  {
    InstallKeeps(st, st.s, ops);
    var end := DoAll(st.s, ops);
    if end.head == map[] {
      assert end.head + WasThere(st) == WasThere(st);
      if NothingAdded(st, end.work) { assert end.work == WasThere(st); }
    } else {
      RestoredExactly(st, end, before);
    }
  }

  predicate CommitsNothing(ops: seq<Op>) {
    forall i :: 0 <= i < |ops| ==> !ops[i].Commit?
  }

  lemma {:induction false} HeadStays(s: Snapshot, ops: seq<Op>)
    requires CommitsNothing(ops)
    ensures DoAll(s, ops).head == s.head
    decreases |ops|
  {
    if ops != [] { HeadStays(Do(s, ops[0]), ops[1..]); }
  }

  /** So a refused update that made no commit of its own puts back what it found, file for file,
      exactly when the install was revertible. */
  lemma RevertPutsBack(st: Start, ops: seq<Op>, before: set<Path>)
    requires Clean(st.s) && AllPermitted(st, st.s, ops) && CommitsNothing(ops)
    ensures AfterRevert(st.s.head, DoAll(st.s, ops).work, before, st.rules, st.aboardCreated) == st.s.work
      <==> Revertible(st, DoAll(st.s, ops), before)
  {
    RevertRestoresExactly(st, ops, before);
    HeadStays(st.s, ops);
    assert st.s.head + WasThere(st) == st.s.work;
  }

  // Inputs at which it does not.

  lemma DoOne(st: Start, s: Snapshot, op: Op)
    ensures DoAll(s, [op]) == Do(s, op) && (AllPermitted(st, s, [op]) <==> Permitted(st, s, op))
  {
    assert [op][1..] == [];
    assert DoAll(Do(s, op), []) == Do(s, op) && AllPermitted(st, Do(s, op), []);
  }

  lemma DoTwo(st: Start, s: Snapshot, a: Op, b: Op)
    ensures DoAll(s, [a, b]) == Do(Do(s, a), b)
    ensures AllPermitted(st, s, [a, b]) <==> Permitted(st, s, a) && Permitted(st, Do(s, a), b)
  {
    assert [a, b][1..] == [b];
    DoOne(st, Do(s, a), b);
  }

  /** On a branch with no commit yet the precheck passes, and a revert leaves the file an install
      added where it is. */
  lemma UnbornBranchKeepsInstall(st: Start, p: Path, c: Content, before: set<Path>)
    requires Clean(st.s) && st.s.head == map[]
    requires p !in st.s.work && !IsV1StatePath(p)
    ensures AllPermitted(st, st.s, [Create(p, c)])
    ensures var end := DoAll(st.s, [Create(p, c)]);
      p in AfterRevert(end.head, end.work, before, st.rules, st.aboardCreated)
  {
    DoOne(st, st.s, Create(p, c));
  }

  /** A new .gitignore hides a new file from the revert's look: the one is removed, the other
      stays. */
  lemma NewRulesKeepInstall(st: Start, ignore: Path, p: Path, c: Content, d: Content)
    requires Clean(st.s) && st.s.head != map[] && ignore != p
    requires ignore !in st.s.work && p !in st.s.work && !IsV1StatePath(ignore) && !IsV1StatePath(p) && !UnderBoard(p)
    requires st.rules(st.s.work[ignore := c][p := d], p)
    ensures var ops := [Create(ignore, c), Create(p, d)];
      var end := DoAll(st.s, ops);
      && AllPermitted(st, st.s, ops)
      && p in AfterRevert(end.head, end.work, Untracked(st.s, st.rules), st.rules, st.aboardCreated)
  {
    DoTwo(st, st.s, Create(ignore, c), Create(p, d));
    var end := DoAll(st.s, [Create(ignore, c), Create(p, d)]);
    assert end.work + end.head == end.work;
    LeftAfterRevert(st, end, Untracked(st.s, st.rules), p);
  }

  /** A file installed where git ignores it, and shown by a rewritten .gitignore: the checkout puts
      the old .gitignore back, the revert's look does not see the file, and it stays. */
  lemma OldRulesKeepInstall(st: Start, ignore: Path, p: Path, c: Content, d: Content)
    requires Clean(st.s) && ignore in st.s.head && ignore != p
    requires p !in st.s.work && !IsV1StatePath(ignore) && !IsV1StatePath(p) && !UnderBoard(p)
    requires st.rules(st.s.work[p := d], p)
    ensures var ops := [Create(p, d), Edit(ignore, c)];
      var end := DoAll(st.s, ops);
      && AllPermitted(st, st.s, ops)
      && p in AfterRevert(end.head, end.work, Untracked(st.s, st.rules), st.rules, st.aboardCreated)
  {
    DoTwo(st, st.s, Create(p, d), Edit(ignore, c));
    var end := DoAll(st.s, [Create(p, d), Edit(ignore, c)]);
    assert end.work + end.head == st.s.work[p := d];
    LeftAfterRevert(st, end, Untracked(st.s, st.rules), p);
  }

  // ---------------------------------------------------------------------------------------
  // The commit.

  predicate Tracked(s: Snapshot, p: Path) { p in s.index || p in s.head }

  predicate ShownAtCommit(st: Start, end: Snapshot, p: Path) {
    !st.rules(end.work, p)
  }

  /** Every earlier file is among `before` or still ignored when the commit looks. */
  ghost predicate EarlierLeft(st: Start, end: Snapshot, before: set<Path>) {
    forall p :: WasUntracked(st, p) && p !in before && !IsV1StatePath(p) ==> !ShownAtCommit(st, end, p)
  }

  /** Every file the install added is tracked already, or shown then and not among `before`. */
  ghost predicate AddedTaken(st: Start, end: Snapshot, before: set<Path>) {
    forall p :: p in end.work && !WasUntracked(st, p) ==>
      Tracked(end, p) || (ShownAtCommit(st, end, p) && p !in before)
  }

  ghost predicate TakesNoneEarlier(st: Start, done: Snapshot) {
    forall p :: WasUntracked(st, p) ==> p !in done.head
  }

  ghost predicate TakesAllAdded(st: Start, done: Snapshot) {
    forall p :: p in done.work && !WasUntracked(st, p) ==> p in done.head
  }

  lemma CommitTakes(st: Start, end: Snapshot, before: set<Path>, p: Path)
    requires Clean(st.s) && Kept(st, end) && p in end.work
    ensures var done := Committed(end, before, st.rules);
      p in done.head <==> Tracked(end, p) || (ShownAtCommit(st, end, p) && p !in before && !IsV1StatePath(p))
  {
  }

  /** The other way out: after a precheck that passed, an install of any permitted operations and
      a commit with any `before`, the tree is clean and every earlier file has its content; the
      commit takes none of those exactly when each is among `before` or still ignored, and takes
      the install whole exactly when git shows what it added; what git shows after that is of
      `before`. */
  lemma CommitTakesExactly(st: Start, ops: seq<Op>, before: set<Path>)
    requires Clean(st.s) && AllPermitted(st, st.s, ops)
    ensures var end := DoAll(st.s, ops);
      var done := Committed(end, before, st.rules);
      && Clean(done)
      && (forall p :: WasUntracked(st, p) ==> p in done.work && done.work[p] == st.s.work[p])
      && (TakesNoneEarlier(st, done) <==> EarlierLeft(st, end, before))
      && (TakesAllAdded(st, done) <==> AddedTaken(st, end, before))
      && (forall p :: p in Untracked(done, st.rules) ==> p in before || IsV1StatePath(p))
  {
    InstallKeeps(st, st.s, ops);
    var end := DoAll(st.s, ops);
    var done := Committed(end, before, st.rules);
    var paths := ToCommit(end, before, st.rules);
    forall p | p in done.index ensures p in done.work && done.work[p] == done.index[p] {
      if p !in paths { assert p !in Changed(end) || IsV1StatePath(p); }
    }
    forall p | p in end.work
      ensures p in done.head <==> Tracked(end, p) || (ShownAtCommit(st, end, p) && p !in before && !IsV1StatePath(p))
    {
      CommitTakes(st, end, before, p);
    }
    NoneEarlierExactly(st, end, before);
    AllAddedExactly(st, end, before);
  }

  lemma NoneEarlierExactly(st: Start, end: Snapshot, before: set<Path>)
    requires Clean(st.s) && Kept(st, end)
    ensures TakesNoneEarlier(st, Committed(end, before, st.rules)) <==> EarlierLeft(st, end, before)
  {
    forall p | WasUntracked(st, p) { CommitTakes(st, end, before, p); }
  }

  lemma AllAddedExactly(st: Start, end: Snapshot, before: set<Path>)
    requires Clean(st.s) && Kept(st, end)
    ensures TakesAllAdded(st, Committed(end, before, st.rules)) <==> AddedTaken(st, end, before)
  {
    forall p | p in end.work { CommitTakes(st, end, before, p); }
  }

  /** A tracked .gitignore that loses the line hiding a person's file: the commit takes the file,
      unless it has joined `before`. */
  lemma RevealedFileIsCommitted(st: Start, ignore: Path, p: Path, c: Content)
    requires Clean(st.s) && ignore in st.s.head && !IsV1StatePath(ignore) && !IsV1StatePath(p)
    requires WasUntracked(st, p) && st.rules(st.s.work, p) && !st.rules(st.s.work[ignore := c], p)
    ensures AllPermitted(st, st.s, [Edit(ignore, c)])
    ensures var end := DoAll(st.s, [Edit(ignore, c)]);
      var before := Untracked(st.s, st.rules);
      p in Committed(end, before, st.rules).head && p !in Committed(end, before + {p}, st.rules).head
  {
    DoOne(st, st.s, Edit(ignore, c));
    var end := DoAll(st.s, [Edit(ignore, c)]);
    InstallKeeps(st, st.s, [Edit(ignore, c)]);
    CommitTakes(st, end, Untracked(st.s, st.rules), p);
    CommitTakes(st, end, Untracked(st.s, st.rules) + {p}, p);
  }

  /** The rewrite of the root .gitignore, whose rules change under .claude/ alone and before which
      the install has shown none of the person's files: with what it reveals joined to `before`,
      the commit takes nothing of the person's exactly when no ignored file of theirs has an
      installed skill's name. */
  lemma ClaudeIgnoreExactly(st: Start, mid: Snapshot, shaped: Content)
    requires Clean(st.s) && Kept(st, mid) && !WasUntracked(st, ROOT_IGNORE)
    requires forall p :: WasUntracked(st, p) && st.rules(st.s.work, p) ==> st.rules(mid.work, p)
    requires forall p :: st.rules(mid.work, p) && !st.rules(mid.work[ROOT_IGNORE := shaped], p) ==> UnderClaude(p)
    ensures var end := mid.(work := mid.work[ROOT_IGNORE := shaped]);
      var before := Untracked(st.s, st.rules) + Revealed(mid, end.work, st.rules);
      TakesNoneEarlier(st, Committed(end, before, st.rules)) <==>
      forall p :: WasUntracked(st, p) && IsInstalledSkill(p) && st.rules(st.s.work, p) ==> st.rules(end.work, p)
  {
    var end := mid.(work := mid.work[ROOT_IGNORE := shaped]);
    var before := Untracked(st.s, st.rules) + Revealed(mid, end.work, st.rules);
    RootIgnoreIsNoState();
    assert Kept(st, end);
    NoneEarlierExactly(st, end, before);
    forall p | IsInstalledSkill(p) ensures !IsV1StatePath(p) { SkillIsNotState(p); }
  }

  lemma SkillIsNotState(p: Path)
    requires IsInstalledSkill(p)
    ensures !IsV1StatePath(p)
  {
    assert p[0] == '.' && STATE_DIR[0] == '_';
  }

  lemma RootIgnoreIsNoState()
    ensures !IsV1StatePath(ROOT_IGNORE)
  {
    assert ROOT_IGNORE[0] == '.' && STATE_DIR[0] == '_';
  }
}
