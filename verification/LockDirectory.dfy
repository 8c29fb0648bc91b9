/** The session lock files as one process changes them with nothing else running
    (nesting.go): the acquire loop, retarget, release, and a launch's two locks. */
module LockDirectory {

  import opened Options

  type Pid = nat
  type Time = int      // nanoseconds
  type Path = string

  /** The processes that run now; the start time is None where it cannot be read. */
  type ProcTable = map<Pid, Option<Time>>

  const START_SLACK: Time := 2_000_000_000
  const TRIES := 5
  const LOOP_SKILL := "apex-loop"
  const LOOP_LOCK: Path := "orchestrator.json"

  datatype Lock = Lock(
    pid: Pid, token: string, skill: string, parentRun: string,
    startedAt: Time, pidStart: Option<Time>)

  datatype File = Damaged | Parsed(lock: Lock)

  datatype Outcome =
    | Taken
    | Busy(child: bool, holder: Lock)   // a live holder has it
    | GaveUp                            // every try found the file there

  predicate SameProcess(procs: ProcTable, pid: Pid, start: Option<Time>) {
    && pid in procs
    && (procs[pid].None? || start.None?
        || -START_SLACK <= procs[pid].value - start.value <= START_SLACK)
  }

  predicate IsHeld(procs: ProcTable, lock: Lock) {
    SameProcess(procs, lock.pid, lock.pidStart)
  }

  /** What stands in an acquirer's way: only a readable lock of another token that is held. */
  predicate Takeable(files: map<Path, File>, procs: ProcTable, path: Path, token: string) {
    path !in files || files[path].Damaged? || files[path].lock.token == token
    || !IsHeld(procs, files[path].lock)
  }

  predicate Names(files: map<Path, File>, path: Path, token: string) {
    path in files && files[path].Parsed? && files[path].lock.token == token
  }

  function SafeLockName(run: string): string {
    if run == "" then "unknown"
    else seq(|run|, i requires 0 <= i < |run| => if run[i] in "/\\:" then '_' else run[i])
  }

  function ChildLock(parentRun: string): Path {
    "child-" + SafeLockName(parentRun) + ".json"
  }

  /** Another token's lock, readable, whose process still runs: what refuses an acquirer. */
  predicate HeldByOther(files: map<Path, File>, procs: ProcTable, path: Path, token: string) {
    path in files && files[path].Parsed? && files[path].lock.token != token && IsHeld(procs, files[path].lock)
  }

  /** A lock that records a running process with that process's own start time, or where one of the
      two is not known, is held; one whose process is gone, or whose pid another process has now
      (it started at another time, the slack apart), is not. */
  lemma HeldExactly(procs: ProcTable, lock: Lock)
    ensures lock.pid !in procs ==> !IsHeld(procs, lock)
    ensures lock.pid in procs && (procs[lock.pid] == lock.pidStart || procs[lock.pid].None? || lock.pidStart.None?) ==>
      IsHeld(procs, lock)
    ensures lock.pid in procs && procs[lock.pid].Some? && lock.pidStart.Some? ==>
      (IsHeld(procs, lock) <==>
         procs[lock.pid].value <= lock.pidStart.value + 2_000_000_000 && lock.pidStart.value <= procs[lock.pid].value + 2_000_000_000)
  {
  }

  /** Runs whose ids hold no separator share a child lock only when they are one run; no child lock
      is the loop lock. */
  lemma ChildLocksAreApart(a: string, b: string)
    requires a != "" && b != "" && (forall c :: c in "/\\:" ==> c !in a && c !in b)
    ensures ChildLock(a) == ChildLock(b) ==> a == b
    ensures ChildLock(a) != LOOP_LOCK
  {
    assert LOOP_LOCK[0] == 'o' && ChildLock(a)[0] == 'c';
    assert SafeLockName(a) == a && SafeLockName(b) == b;
    if ChildLock(a) == ChildLock(b) {
      var n := |"child-"|;
      assert ChildLock(a) == "child-" + (a + ".json") && ChildLock(b) == "child-" + (b + ".json");
      assert a + ".json" == ChildLock(a)[n..] && b + ".json" == ChildLock(b)[n..];
      assert |a| == |b|;
      assert a == (a + ".json")[..|a|] && b == (b + ".json")[..|b|];
    }
  }

  // ---- A launch's locks, as functions of the files.

  /** The locks a launch takes, in order: the project's loop lock, then its parent's child lock. */
  function Needed(skill: string, depth: nat, parentRun: string): (r: seq<Path>)
    ensures |r| <= 2 && (|r| == 2 ==> r[0] != r[1])
  {
    assert LOOP_LOCK[0] == 'o' && ChildLock(parentRun)[0] == 'c';
    (if skill == LOOP_SKILL then [LOOP_LOCK] else []) + (if depth > 1 then [ChildLock(parentRun)] else [])
  }

  /** The first needed lock that refuses the token, or |paths|. */
  function FirstRefusal(files: map<Path, File>, procs: ProcTable, paths: seq<Path>, token: string): (i: nat)
    ensures i <= |paths|
    ensures i < |paths| ==> !Takeable(files, procs, paths[i], token)
    ensures forall k :: 0 <= k < i ==> Takeable(files, procs, paths[k], token)
  {
    if paths == [] || !Takeable(files, procs, paths[0], token) then 0
    else
      assert forall k :: 1 <= k < |paths| ==> paths[k] == paths[1..][k - 1];
      1 + FirstRefusal(files, procs, paths[1..], token)
  }

  lemma {:induction false} RefusalIndex(files: map<Path, File>, procs: ProcTable, paths: seq<Path>, token: string, i: nat)
    requires i <= |paths|
    requires forall k :: 0 <= k < i ==> Takeable(files, procs, paths[k], token)
    requires i < |paths| ==> !Takeable(files, procs, paths[i], token)
    ensures FirstRefusal(files, procs, paths, token) == i
  {
  }

  /** Which locks those are. */
  lemma NeededExactly(skill: string, depth: nat, parentRun: string)
    ensures forall p :: p in Needed(skill, depth, parentRun) <==>
      (skill == "apex-loop" && p == LOOP_LOCK) || (depth >= 2 && p == ChildLock(parentRun))
  {
  }

  lemma AllTakeable(files: map<Path, File>, procs: ProcTable, paths: seq<Path>, token: string)
    ensures FirstRefusal(files, procs, paths, token) == |paths| <==>
      forall p :: p in paths ==> !HeldByOther(files, procs, p, token)
  {
    var i := FirstRefusal(files, procs, paths, token);
    if i < |paths| { assert HeldByOther(files, procs, paths[i], token); }
  }

  function WithLocks(files: map<Path, File>, paths: seq<Path>, rec: Lock): map<Path, File> {
    files + (map p | p in paths :: Parsed(rec))
  }

  function WithoutLocks(files: map<Path, File>, paths: seq<Path>): map<Path, File> {
    files - (set p | p in paths)
  }

  /** The files an acquire leaves: every lock recorded, or the ones it took given back. */
  function Acquired(files: map<Path, File>, procs: ProcTable, paths: seq<Path>, rec: Lock): map<Path, File> {
    var i := FirstRefusal(files, procs, paths, rec.token);
    if i == |paths| then WithLocks(files, paths, rec) else WithoutLocks(files, paths[..i])
  }

  /** A grant names the token on every needed lock. */
  lemma GrantTakesAll(files: map<Path, File>, procs: ProcTable, paths: seq<Path>, rec: Lock)
    requires forall p :: p in paths ==> Takeable(files, procs, p, rec.token)
    ensures forall p :: p in paths ==> Names(Acquired(files, procs, paths, rec), p, rec.token)
    ensures forall p :: p !in paths && p in files ==>
      p in Acquired(files, procs, paths, rec) && Acquired(files, procs, paths, rec)[p] == files[p]
  {
    assert FirstRefusal(files, procs, paths, rec.token) == |paths|;
  }

  /** A refusal changes nothing but the locks before the one that refused, which it gives up. */
  lemma RefusalGivesBack(files: map<Path, File>, procs: ProcTable, paths: seq<Path>, rec: Lock, k: nat)
    requires forall i, j :: 0 <= i < j < |paths| ==> paths[i] != paths[j]
    requires k < |paths|
    requires FirstRefusal(files, procs, paths, rec.token) < |paths|
    ensures var i := FirstRefusal(files, procs, paths, rec.token);
      Names(Acquired(files, procs, paths, rec), paths[k], rec.token)
      <==> i < k && Names(files, paths[k], rec.token)
  {
    var i := FirstRefusal(files, procs, paths, rec.token);
    if k < i {
      assert paths[k] == paths[..i][k];
    } else {
      assert paths[k] !in paths[..i];
    }
  }

  /** So after a refusal the token holds none of the locks it needed exactly when it did not
      already hold one after the lock that refused it. */
  lemma RefusalHoldsNothing(files: map<Path, File>, procs: ProcTable, paths: seq<Path>, rec: Lock)
    requires forall i, j :: 0 <= i < j < |paths| ==> paths[i] != paths[j]
    requires FirstRefusal(files, procs, paths, rec.token) < |paths|
    ensures (forall p :: p in paths ==> !Names(Acquired(files, procs, paths, rec), p, rec.token))
      <==> (forall k :: FirstRefusal(files, procs, paths, rec.token) < k < |paths| ==>
              !Names(files, paths[k], rec.token))
  {
    forall k: nat | k < |paths| {
      RefusalGivesBack(files, procs, paths, rec, k);
    }
    assert forall k :: 0 <= k < |paths| ==> paths[k] in paths;
  }

  /** A refusal that holds something still: the loop lock is another live run's, and the child lock
      named the token before. */
  lemma RefusalLeavesLaterLock(procs: ProcTable, loopLock: Path, childLock: Path, other: Lock, rec: Lock)
    requires loopLock != childLock && other.token != rec.token && IsHeld(procs, other)
    ensures var files := map[loopLock := Parsed(other), childLock := Parsed(rec)];
      && FirstRefusal(files, procs, [loopLock, childLock], rec.token) == 0
      && Names(Acquired(files, procs, [loopLock, childLock], rec), childLock, rec.token)
  {
    var files := map[loopLock := Parsed(other), childLock := Parsed(rec)];
    RefusalIndex(files, procs, [loopLock, childLock], rec.token, 0);
    RefusalGivesBack(files, procs, [loopLock, childLock], rec, 1);
  }

  lemma TakenToo(was: map<Path, File>, locks: seq<Path>, path: Path, rec: Lock)
    ensures WithLocks(was, locks + [path], rec) == WithLocks(was, locks, rec)[path := Parsed(rec)]
  {
  }

  /** Releasing what was taken leaves what was there before, without the locks themselves. */
  lemma GivenBack(was: map<Path, File>, now: map<Path, File>, locks: seq<Path>, rec: Lock)
    requires forall p :: p in now <==> p in WithLocks(was, locks, rec) && p !in locks
    requires forall p :: p in now ==> now[p] == WithLocks(was, locks, rec)[p]
    ensures now == WithoutLocks(was, locks)
  {
  }

  class LockDir {
    var files: map<Path, File>
    var procs: ProcTable

    method ReadSessionLock(path: Path) returns (cur: Option<Lock>)
      ensures cur == if path in files && files[path].Parsed? then Some(files[path].lock) else None
    {
      cur := if path in files && files[path].Parsed? then Some(files[path].lock) else None;
    }

    /** The lock is taken within two tries exactly when it is absent, damaged, stale or this
        token's already; otherwise its holder is reported and nothing changes. */
    method AcquireSessionLock(path: Path, rec: Lock, child: bool) returns (r: Outcome, tries: nat)
      modifies this`files
      ensures r == if Takeable(old(files), procs, path, rec.token) then Taken
                   else Busy(child, old(files)[path].lock)
      ensures files == if r.Taken? then old(files)[path := Parsed(rec)] else old(files)
      ensures 1 <= tries <= 2
      ensures tries == 2 <==>
              path in old(files) && r.Taken? && !Names(old(files), path, rec.token)
    {
      tries := 0;
      while tries < TRIES
        invariant tries <= 1
        invariant tries == 0 ==> files == old(files)
        invariant tries == 1 ==>
          && path in old(files) && !Names(old(files), path, rec.token)
          && Takeable(old(files), procs, path, rec.token)
          && files == old(files) - {path}
      {
        tries := tries + 1;
        if path !in files {
          files := files[path := Parsed(rec)];
          return Taken, tries;
        }
        var cur := ReadSessionLock(path);
        if cur.None? {
          files := files - {path};
        } else if cur.value.token == rec.token {
          files := files[path := Parsed(rec)];
          return Taken, tries;
        } else if !IsHeld(procs, cur.value) {
          files := files - {path};
        } else {
          return Busy(child, cur.value), tries;
        }
      }
      r := GaveUp;
    }

    /** Only the pid and its start time change, on this token's locks; all else stays. */
    method RetargetSessionLocks(paths: seq<Path>, token: string, pid: Pid)
      modifies this`files
      ensures files.Keys == old(files).Keys
      ensures forall p :: p in files ==>
        files[p] == if p in paths && Names(old(files), p, token)
                    then Parsed(old(files)[p].lock.(pid := pid, pidStart := StartTime(pid)))
                    else old(files)[p]
      ensures pid in procs ==> forall p, other :: p in paths && Names(old(files), p, token) && other != token ==>
        HeldByOther(files, procs, p, other)
    {
      for i := 0 to |paths|
        invariant files.Keys == old(files).Keys
        invariant forall p :: p in files ==>
          files[p] == if p in paths[..i] && Names(old(files), p, token)
                      then Parsed(old(files)[p].lock.(pid := pid, pidStart := StartTime(pid)))
                      else old(files)[p]
      {
        var cur := ReadSessionLock(paths[i]);
        if cur.Some? && cur.value.token == token {
          files := files[paths[i] := Parsed(cur.value.(pid := pid, pidStart := StartTime(pid)))];
        }
      }
    }

    /** The start time the process table has for the pid. */
    function StartTime(pid: Pid): (start: Option<Time>)
      reads this`procs
      ensures pid in procs ==> start == procs[pid]
      ensures pid !in procs ==> start.None?
    {
      if pid in procs then procs[pid] else None
    }

    /** A release removes this token's lock and no other token's. */
    method ReleaseSessionLock(path: Path, token: string)
      modifies this`files
      ensures files == if Names(old(files), path, token) then old(files) - {path} else old(files)
    {
      var cur := ReadSessionLock(path);
      if cur.Some? && cur.value.token == token {
        files := files - {path};
      }
    }
  }

  /** What a command may start, and the locks it holds. */
  class SessionLaunch {
    const depth: nat
    const skill: string
    const parentRun: string
    var token: string
    var locks: seq<Path>

    constructor (depth: nat, skill: string, parentRun: string)
      ensures this.depth == depth && this.skill == skill && this.parentRun == parentRun
      ensures token == "" && locks == []
    {
      this.depth, this.skill, this.parentRun := depth, skill, parentRun;
      token, locks := "", [];
    }

    method Release(dir: LockDir)
      modifies dir`files
      ensures forall p :: p in dir.files <==> p in old(dir.files) && !(p in locks && Names(old(dir.files), p, token))
      ensures forall p :: p in dir.files ==> dir.files[p] == old(dir.files)[p]
    {
      for i := 0 to |locks|
        invariant forall p :: p in dir.files <==>
          p in old(dir.files) && !(p in locks[..i] && Names(old(dir.files), p, token))
        invariant forall p :: p in dir.files ==> dir.files[p] == old(dir.files)[p]
      {
        dir.ReleaseSessionLock(locks[i], token);
      }
    }

    method Acquire(dir: LockDir, token: string, pid: Pid, now: Time) returns (r: Outcome)
      requires locks == []
      modifies this, dir`files
      ensures this.token == token
      ensures var need := Needed(skill, depth, parentRun);
        var i := FirstRefusal(old(dir.files), dir.procs, need, token);
        && dir.files == Acquired(old(dir.files), dir.procs, need,
                                 Lock(pid, token, skill, parentRun, now, dir.StartTime(pid)))
        && locks == (if i == |need| then need else [])
        && r == if i == |need| then Taken
                else Busy(need[i] != LOOP_LOCK, old(dir.files)[need[i]].lock)
      // a loop launch holds the project's loop lock, and one below depth 1 its parent's child lock
      ensures r.Taken? && skill == "apex-loop" ==> Names(dir.files, LOOP_LOCK, token)
      ensures r.Taken? && depth >= 2 ==> Names(dir.files, ChildLock(parentRun), token)
      ensures r.Taken? <==>
        && (skill == "apex-loop" ==> !HeldByOther(old(dir.files), dir.procs, LOOP_LOCK, token))
        && (depth >= 2 ==> !HeldByOther(old(dir.files), dir.procs, ChildLock(parentRun), token))
    {
      this.token := token;
      var rec := Lock(pid, token, skill, parentRun, now, dir.StartTime(pid));
      assert LOOP_LOCK != ChildLock(parentRun) by {
        assert LOOP_LOCK[0] == 'o' && ChildLock(parentRun)[0] == 'c';
      }
      ghost var was, need := dir.files, Needed(skill, depth, parentRun);
      r := AcquireBoth(dir, skill == LOOP_SKILL, depth > 1, LOOP_LOCK, ChildLock(parentRun), rec);
      NeededExactly(skill, depth, parentRun);
      AllTakeable(was, dir.procs, need, token);
    }

    method AcquireBoth(dir: LockDir, loop: bool, child: bool, loopLock: Path, childLock: Path, rec: Lock)
      returns (r: Outcome)
      requires locks == [] && rec.token == token && loopLock != childLock
      modifies this`locks, dir`files
      ensures var need := (if loop then [loopLock] else []) + (if child then [childLock] else []);
        var i := FirstRefusal(old(dir.files), dir.procs, need, token);
        && dir.files == Acquired(old(dir.files), dir.procs, need, rec)
        && locks == (if i == |need| then need else [])
        && r == if i == |need| then Taken
                else Busy(need[i] != loopLock, old(dir.files)[need[i]].lock)
    {
      ghost var was := dir.files;
      ghost var need := (if loop then [loopLock] else []) + (if child then [childLock] else []);
      if loop {
        assert need[0] == loopLock;
        r := AcquireNext(dir, loopLock, rec, false, was);
        if !r.Taken? {
          RefusalIndex(was, dir.procs, need, token, 0);
          assert need[..0] == [];
          return;
        }
      }
      assert locks == need[..|locks|];
      if child {
        r := AcquireNext(dir, childLock, rec, true, was);
        if !r.Taken? {
          RefusalIndex(was, dir.procs, need, token, |need| - 1);
          return;
        }
      }
      RefusalIndex(was, dir.procs, need, token, |need|);
      assert locks == need;
      r := Taken;
    }

    /** The next lock a launch needs: when it is refused, everything taken before it is given
        back. */
    method AcquireNext(dir: LockDir, path: Path, rec: Lock, child: bool, ghost was: map<Path, File>)
      returns (r: Outcome)
      requires rec.token == token
      requires path !in locks
      requires forall p :: p in locks ==> Takeable(was, dir.procs, p, token)
      requires dir.files == WithLocks(was, locks, rec)
      modifies this`locks, dir`files
      ensures
        if Takeable(was, dir.procs, path, token) then
          r == Taken && locks == old(locks) + [path] && dir.files == WithLocks(was, locks, rec)
        else
          r == Busy(child, was[path].lock) && locks == [] && dir.files == WithoutLocks(was, old(locks))
    {
      ghost var files := dir.files;
      assert Takeable(files, dir.procs, path, token) == Takeable(was, dir.procs, path, token);
      var n;
      r, n := dir.AcquireSessionLock(path, rec, child);
      if !r.Taken? {
        assert files[path] == was[path];
        Release(dir);
        GivenBack(was, dir.files, locks, rec);
        locks := [];
        return;
      }
      TakenToo(was, locks, path, rec);
      locks := locks + [path];
    }
  }

  /** The daemon's look at a loop run's one child slot: a real launch's locks, taken and released
      at once.  It is refused exactly when the job would be, leaves nothing held, and touches no
      lock that a live run holds. */
  method ProbeChildSlot(dir: LockDir, parentRun: string, skill: string, token: string, pid: Pid, now: Time)
    returns (r: Outcome)
    modifies dir`files
    ensures r.Taken? <==>
      && (skill == "apex-loop" ==> !HeldByOther(old(dir.files), dir.procs, LOOP_LOCK, token))
      && !HeldByOther(old(dir.files), dir.procs, ChildLock(parentRun), token)
    ensures forall p :: p in dir.files ==> p in old(dir.files) && dir.files[p] == old(dir.files)[p]
    ensures forall p :: p in old(dir.files) && !Takeable(old(dir.files), dir.procs, p, token) ==> p in dir.files
    ensures r.Taken? ==> ChildLock(parentRun) !in dir.files && (skill == "apex-loop" ==> LOOP_LOCK !in dir.files)
  {
    var probe := new SessionLaunch(2, skill, parentRun);
    ghost var was := dir.files;
    ghost var need := Needed(skill, 2, parentRun);
    NeededExactly(skill, 2, parentRun);
    r := probe.Acquire(dir, token, pid, now);
    ghost var i := FirstRefusal(was, dir.procs, need, token);
    if !r.Taken? {
      assert need[i] in need;
      assert forall p :: p in need[..i] ==> p in need && Takeable(was, dir.procs, p, token);
      return;
    }
    probe.Release(dir);
  }
}
