/** Session lock files shared by any number of processes (nesting.go).

    The world holds every lock file, the processes that live, and a history variable: which
    token has been granted which lock, and the process its grant records.  A step is one
    atomic action of one process.  `os.Link` is one step; reading a lock, judging it and acting
    on the judgement is one step in `Apply` and two in `SplitApply`. */
module SessionLocks {

  type Token = string
  type Path = string

  /** A process's identity: its pid together with its start time.  Never reused. */
  type Proc = nat

  datatype LockFile =
    | Absent
    | Damaged                            // exists and does not parse
    | Held(token: Token, proc: Proc)

  datatype World = World(
    files: map<Path, LockFile>,
    live: set<Proc>,
    born: set<Proc>,                     // every process that ever lived
    granted: map<(Path, Token), Proc>)   // history: acquired, not released

  function At(w: World, path: Path): LockFile {
    if path in w.files then w.files[path] else Absent
  }

  datatype Step =
    | Link(path: Path, token: Token, proc: Proc)
    | Judge(path: Path, token: Token, proc: Proc, held: bool)
    | Retarget(path: Path, token: Token, proc: Proc)
    | Release(path: Path, token: Token)
    | Spawn(proc: Proc)
    | Die(proc: Proc)

  /** An acquirer records itself, so it lives.  `held` is the probe's answer about the process
      the lock records: it may call a dead process held (a reused pid), never a live one gone. */
  predicate Enabled(w: World, step: Step) {
    match step
    case Link(_, _, proc) => proc in w.live
    case Judge(path, _, proc, held) =>
      && proc in w.live
      && (At(w, path).Held? && At(w, path).proc in w.live ==> held)
    case Retarget(_, _, proc) => proc in w.born
    case Release(_, _) => true
    case Spawn(proc) => proc !in w.born
    case Die(proc) => proc in w.live
  }

  function Grant(w: World, path: Path, token: Token, proc: Proc): World {
    w.(files := w.files[path := Held(token, proc)], granted := w.granted[(path, token) := proc])
  }

  function Clear(w: World, path: Path): World {
    w.(files := w.files[path := Absent])
  }

  function Apply(w: World, step: Step): World {
    match step
    case Link(path, token, proc) =>
      if At(w, path).Absent? then Grant(w, path, token, proc) else w
    case Judge(path, token, proc, held) =>
      (match At(w, path)
       case Absent => w
       case Damaged => Clear(w, path)
       case Held(t, q) =>
         if t == token then Grant(w, path, token, proc)
         else if !held then Clear(w, path)
         else w)
    case Retarget(path, token, proc) =>
      if At(w, path).Held? && At(w, path).token == token then Grant(w, path, token, proc) else w
    case Release(path, token) =>
      var w' := w.(granted := w.granted - {(path, token)});
      if At(w, path).Held? && At(w, path).token == token then Clear(w', path) else w'
    case Spawn(proc) => w.(live := w.live + {proc}, born := w.born + {proc})
    case Die(proc) => w.(live := w.live - {proc})
  }

  function Run(w: World, steps: seq<Step>): World
    decreases |steps|
  {
    if steps == [] then w else Run(Apply(w, steps[0]), steps[1..])
  }

  ghost predicate IsRun(w: World, steps: seq<Step>)
    decreases |steps|
  {
    steps == [] || (Enabled(w, steps[0]) && IsRun(Apply(w, steps[0]), steps[1..]))
  }

  /** Locks left over from before are known by their grants. */
  ghost predicate Init(w: World) {
    && w.live <= w.born
    && (forall k :: k in w.granted ==> w.granted[k] in w.born && w.granted[k] !in w.live)
    && (forall path :: At(w, path).Held? ==> Grants(w, path, At(w, path).token, At(w, path).proc))
  }

  ghost predicate Grants(w: World, path: Path, token: Token, proc: Proc) {
    (path, token) in w.granted && w.granted[(path, token)] == proc
  }

  /** `token` was granted `path` and the process recorded for it lives. */
  ghost predicate LiveHolder(w: World, path: Path, token: Token) {
    (path, token) in w.granted && w.granted[(path, token)] in w.live
  }

  ghost predicate Inv(w: World) {
    && w.live <= w.born
    && (forall k :: k in w.granted ==> w.granted[k] in w.born)
    && (forall path, token :: LiveHolder(w, path, token) ==>
          At(w, path) == Held(token, w.granted[(path, token)]))
    && (forall path :: At(w, path).Held? ==> Grants(w, path, At(w, path).token, At(w, path).proc))
  }

  lemma GrantKeepsInv(w: World, path: Path, token: Token, proc: Proc)
    requires Inv(w) && proc in w.born
    requires forall t :: LiveHolder(w, path, t) ==> t == token
    ensures Inv(Grant(w, path, token, proc))
  {
    var w' := Grant(w, path, token, proc);
    forall p, t | LiveHolder(w', p, t) ensures At(w', p) == Held(t, w'.granted[(p, t)]) {
      if (p, t) != (path, token) {
        assert LiveHolder(w, p, t);
        assert p != path;
      }
    }
    forall p | At(w', p).Held? ensures Grants(w', p, At(w', p).token, At(w', p).proc) {
      if p != path { assert At(w, p) == At(w', p); }
    }
  }

  lemma ClearKeepsInv(w: World, path: Path)
    requires Inv(w)
    requires forall t :: !LiveHolder(w, path, t)
    ensures Inv(Clear(w, path))
  {
    var w' := Clear(w, path);
    forall p, t | LiveHolder(w', p, t) ensures At(w', p) == Held(t, w'.granted[(p, t)]) {
      assert LiveHolder(w, p, t);
    }
    forall p | At(w', p).Held? ensures Grants(w', p, At(w', p).token, At(w', p).proc) {
      assert At(w, p) == At(w', p);
    }
  }

  /** Nothing holds a lock file that names no live process. */
  lemma NoHolder(w: World, path: Path)
    requires Inv(w) && !(At(w, path).Held? && At(w, path).proc in w.live)
    ensures forall t :: !LiveHolder(w, path, t)
  {
    forall t ensures !LiveHolder(w, path, t) {
      if LiveHolder(w, path, t) { assert false; }
    }
  }

  lemma ReleaseKeepsInv(w: World, path: Path, token: Token)
    requires Inv(w)
    ensures Inv(Apply(w, Release(path, token)))
  {
    var w' := Apply(w, Release(path, token));
    forall p, t | LiveHolder(w', p, t) ensures At(w', p) == Held(t, w'.granted[(p, t)]) {
      assert LiveHolder(w, p, t);
    }
    forall p | At(w', p).Held? ensures Grants(w', p, At(w', p).token, At(w', p).proc) {
      assert At(w, p) == At(w', p);
    }
  }

  lemma ProcessStepKeepsInv(w: World, step: Step)
    requires Inv(w) && Enabled(w, step) && (step.Spawn? || step.Die?)
    ensures Inv(Apply(w, step))
  {
    var w' := Apply(w, step);
    forall p, t | LiveHolder(w', p, t) ensures At(w', p) == Held(t, w'.granted[(p, t)]) {
      assert LiveHolder(w, p, t);
    }
    forall p | At(w', p).Held? ensures Grants(w', p, At(w', p).token, At(w', p).proc) {
      assert At(w, p) == At(w', p);
    }
  }

  /** Every step of every process keeps the invariant. */
  lemma StepKeepsInv(w: World, step: Step)
    requires Inv(w) && Enabled(w, step)
    ensures Inv(Apply(w, step))
  {
    match step
    case Link(path, token, proc) =>
      if At(w, path).Absent? { NoHolder(w, path); GrantKeepsInv(w, path, token, proc); }
    case Judge(path, token, proc, held) =>
      if At(w, path).Damaged? {
        NoHolder(w, path);
        ClearKeepsInv(w, path);
      } else if At(w, path).Held? {
        if At(w, path).token == token {
          GrantKeepsInv(w, path, token, proc);
        } else if !held {
          NoHolder(w, path);
          ClearKeepsInv(w, path);
        }
      }
    case Retarget(path, token, proc) =>
      if At(w, path).Held? && At(w, path).token == token { GrantKeepsInv(w, path, token, proc); }
    case Release(path, token) => ReleaseKeepsInv(w, path, token);
    case Spawn(_) => ProcessStepKeepsInv(w, step);
    case Die(_) => ProcessStepKeepsInv(w, step);
  }

  lemma {:induction false} RunKeepsInv(w: World, steps: seq<Step>)
    requires Inv(w) && IsRun(w, steps)
    ensures Inv(Run(w, steps))
    decreases |steps|
  {
    if steps != [] {
      StepKeepsInv(w, steps[0]);
      RunKeepsInv(Apply(w, steps[0]), steps[1..]);
    }
  }

  /** Mutual exclusion over every interleaving: a granted token whose recorded process still
      lives is the one its lock file names, so a lock has at most one live holder. */
  lemma LiveHolderIsNamed(w: World, steps: seq<Step>, path: Path, token: Token, other: Token)
    requires Init(w) && IsRun(w, steps)
    ensures var end := Run(w, steps);
      && (LiveHolder(end, path, token) ==> At(end, path) == Held(token, end.granted[(path, token)]))
      && (LiveHolder(end, path, token) && LiveHolder(end, path, other) ==> token == other)
  {
    RunKeepsInv(w, steps);
  }

  // ---------------------------------------------------------------------------------------
  // The same operations with the read and the action as two steps.

  /** What an actor read, and has not acted on yet. */
  datatype Copy = Copy(path: Path, file: LockFile)

  datatype SplitWorld = SplitWorld(w: World, copies: map<nat, Copy>)

  datatype SplitStep =
    | Whole(step: Step)
    | Read(actor: nat, path: Path)
    | ActClear(actor: nat)                               // the copy was damaged or stale, or the read failed
    | ActTakeOver(actor: nat, token: Token, proc: Proc)  // the copy named the actor's token
    | ActRetarget(actor: nat, token: Token, proc: Proc)
    | ActRelease(actor: nat, token: Token)

  predicate Owned(s: SplitWorld, actor: nat, token: Token) {
    actor in s.copies && s.copies[actor].file.Held? && s.copies[actor].file.token == token
  }

  predicate SplitEnabled(s: SplitWorld, step: SplitStep) {
    match step
    case Whole(a) => Enabled(s.w, a)
    case Read(_, _) => true
    case ActClear(a) =>
      && a in s.copies
      && (s.copies[a].file.Held? ==> s.copies[a].file.proc !in s.w.live)
    case ActTakeOver(a, token, proc) => Owned(s, a, token) && proc in s.w.live
    case ActRetarget(a, token, proc) => Owned(s, a, token) && proc in s.w.born
    case ActRelease(a, token) => Owned(s, a, token)
  }

  function SplitApply(s: SplitWorld, step: SplitStep): SplitWorld
    requires SplitEnabled(s, step)
  {
    match step
    case Whole(a) => s.(w := Apply(s.w, a))
    case Read(a, path) => s.(copies := s.copies[a := Copy(path, At(s.w, path))])
    case ActClear(a) => s.(w := Clear(s.w, s.copies[a].path))
    case ActTakeOver(a, token, proc) => s.(w := Grant(s.w, s.copies[a].path, token, proc))
    case ActRetarget(a, token, proc) => s.(w := Grant(s.w, s.copies[a].path, token, proc))
    case ActRelease(a, token) =>
      s.(w := Clear(s.w.(granted := s.w.granted - {(s.copies[a].path, token)}), s.copies[a].path))
  }

  /** Another token's live process stands recorded on the lock file. */
  predicate OthersLiveLock(w: World, path: Path, token: Token) {
    At(w, path).Held? && At(w, path).token != token && At(w, path).proc in w.live
  }

  /** When acting on an earlier read does no harm, told from the file as it is now: a clear must
      find no live process there, and a take-over, a retarget and a release no other token's. */
  predicate Harmless(s: SplitWorld, step: SplitStep)
    requires SplitEnabled(s, step)
  {
    match step
    case Whole(_) => true
    case Read(_, _) => true
    case ActClear(a) => !(At(s.w, s.copies[a].path).Held? && At(s.w, s.copies[a].path).proc in s.w.live)
    case ActTakeOver(a, token, _) => !OthersLiveLock(s.w, s.copies[a].path, token)
    case ActRetarget(a, token, _) => !OthersLiveLock(s.w, s.copies[a].path, token)
    case ActRelease(a, token) => !OthersLiveLock(s.w, s.copies[a].path, token)
  }

  function SplitRun(s: SplitWorld, steps: seq<SplitStep>): SplitWorld
    requires IsSplitRun(s, steps)
    decreases |steps|
  {
    if steps == [] then s else SplitRun(SplitApply(s, steps[0]), steps[1..])
  }

  predicate IsSplitRun(s: SplitWorld, steps: seq<SplitStep>)
    decreases |steps|
  {
    steps == [] || (SplitEnabled(s, steps[0]) && IsSplitRun(SplitApply(s, steps[0]), steps[1..]))
  }

  predicate HarmlessRun(s: SplitWorld, steps: seq<SplitStep>)
    requires IsSplitRun(s, steps)
    decreases |steps|
  {
    steps == [] || (Harmless(s, steps[0]) && HarmlessRun(SplitApply(s, steps[0]), steps[1..]))
  }

  /** The invariant at every state of a run. */
  ghost predicate InvThroughout(s: SplitWorld, steps: seq<SplitStep>)
    requires IsSplitRun(s, steps)
    decreases |steps|
  {
    Inv(s.w) && (steps == [] || InvThroughout(SplitApply(s, steps[0]), steps[1..]))
  }

  /** A split clear is harmless exactly when the file it removes names no live process. */
  lemma SplitClearExactly(s: SplitWorld, actor: nat)
    requires Inv(s.w) && SplitEnabled(s, ActClear(actor))
    ensures var file := At(s.w, s.copies[actor].path);
      Inv(SplitApply(s, ActClear(actor)).w) <==> !(file.Held? && file.proc in s.w.live)
  {
    var path := s.copies[actor].path;
    var file := At(s.w, path);
    if file.Held? && file.proc in s.w.live {
      assert LiveHolder(SplitApply(s, ActClear(actor)).w, path, file.token);
    } else {
      NoHolder(s.w, path);
      ClearKeepsInv(s.w, path);
    }
  }

  /** A split release is harmless exactly when the file it removes names no other token's live
      process: a supervisor's may, once the run the lock recorded has ended. */
  lemma SplitReleaseExactly(s: SplitWorld, actor: nat, token: Token)
    requires Inv(s.w) && SplitEnabled(s, ActRelease(actor, token))
    ensures Inv(SplitApply(s, ActRelease(actor, token)).w) <==> !OthersLiveLock(s.w, s.copies[actor].path, token)
  {
    var path := s.copies[actor].path;
    var file := At(s.w, path);
    var w' := SplitApply(s, ActRelease(actor, token)).w;
    if OthersLiveLock(s.w, path, token) {
      assert LiveHolder(w', path, file.token);
    } else {
      ReleaseKeepsInv(s.w, path, token);
      var w1 := Apply(s.w, Release(path, token));
      NoHolder(w1, path);
      ClearKeepsInv(w1, path);
      assert w' == Clear(w1, path);
    }
  }

  /** A split take-over or retarget is harmless exactly when the file it overwrites names no other
      token's live process. */
  lemma SplitWriteExactly(s: SplitWorld, actor: nat, token: Token, proc: Proc)
    requires Inv(s.w) && Owned(s, actor, token) && proc in s.w.born
    ensures Inv(Grant(s.w, s.copies[actor].path, token, proc)) <==> !OthersLiveLock(s.w, s.copies[actor].path, token)
  {
    var path := s.copies[actor].path;
    var file := At(s.w, path);
    if OthersLiveLock(s.w, path, token) {
      assert LiveHolder(Grant(s.w, path, token, proc), path, file.token);
    } else {
      forall t | LiveHolder(s.w, path, t) ensures t == token {
        assert file == Held(t, s.w.granted[(path, t)]);
      }
      GrantKeepsInv(s.w, path, token, proc);
    }
  }

  /** Each split step keeps the invariant exactly when it is harmless. */
  lemma SplitStepExactly(s: SplitWorld, step: SplitStep)
    requires Inv(s.w) && SplitEnabled(s, step)
    ensures Inv(SplitApply(s, step).w) <==> Harmless(s, step)
  {
    match step
    case Whole(a) => StepKeepsInv(s.w, a);
    case Read(_, _) =>
    case ActClear(a) => SplitClearExactly(s, a);
    case ActTakeOver(a, token, proc) => SplitWriteExactly(s, a, token, proc);
    case ActRetarget(a, token, proc) => SplitWriteExactly(s, a, token, proc);
    case ActRelease(a, token) => SplitReleaseExactly(s, a, token);
  }

  /** Over every run with reads and actions apart, the invariant holds at every state exactly when
      every step of the run is harmless. */
  lemma {:induction false} SplitRunExactly(s: SplitWorld, steps: seq<SplitStep>)
    requires Inv(s.w) && IsSplitRun(s, steps)
    ensures InvThroughout(s, steps) <==> HarmlessRun(s, steps)
    decreases |steps|
  {
    if steps != [] {
      SplitStepExactly(s, steps[0]);
      if Harmless(s, steps[0]) {
        SplitRunExactly(SplitApply(s, steps[0]), steps[1..]);
      }
    }
  }

  /** So a harmless run ends with at most one live holder for each lock. */
  lemma SplitRunKeepsExclusion(s: SplitWorld, steps: seq<SplitStep>, path: Path, token: Token, other: Token)
    requires Inv(s.w) && IsSplitRun(s, steps) && HarmlessRun(s, steps)
    ensures var end := SplitRun(s, steps).w; LiveHolder(end, path, token) && LiveHolder(end, path, other) ==> token == other
  {
    SplitRunExactly(s, steps);
    ThroughoutIsAtEnd(s, steps);
  }

  lemma {:induction false} ThroughoutIsAtEnd(s: SplitWorld, steps: seq<SplitStep>)
    requires IsSplitRun(s, steps) && InvThroughout(s, steps)
    ensures Inv(SplitRun(s, steps).w)
    decreases |steps|
  {
    if steps != [] { ThroughoutIsAtEnd(SplitApply(s, steps[0]), steps[1..]); }
  }

  /** The lock a split action acts on. */
  function ActsOn(s: SplitWorld, step: SplitStep): Path
    requires SplitEnabled(s, step) && !step.Whole? && !step.Read?
  {
    s.copies[step.actor].path
  }

  /** Two live holders of one lock. */
  ghost predicate TwoHolders(w: World, path: Path, a: Token, b: Token) {
    a != b && LiveHolder(w, path, a) && LiveHolder(w, path, b)
  }

  /** The other half: every harmful step can be followed by two live holders of the lock it acts
      on, the one it wronged and a newcomer. */
  lemma HarmBreaksExclusion(s: SplitWorld, step: SplitStep, newcomer: Token, proc: Proc) returns (rest: seq<SplitStep>)
    requires Inv(s.w) && SplitEnabled(s, step) && !Harmless(s, step)
    requires proc in s.w.live && newcomer != At(s.w, ActsOn(s, step)).token
    ensures IsSplitRun(s, [step] + rest)
    ensures TwoHolders(SplitRun(s, [step] + rest).w, ActsOn(s, step), At(s.w, ActsOn(s, step)).token, newcomer)
  {
    var path := ActsOn(s, step);
    var wronged := At(s.w, path).token;
    assert LiveHolder(s.w, path, wronged);
    var s1 := SplitApply(s, step);
    var link := Whole(Link(path, newcomer, proc));
    if step.ActClear? || step.ActRelease? {
      Prepend(s1, link, []);
      rest := [link] + [];
    } else {
      var release := Whole(Release(path, step.token));
      var s2 := SplitApply(s1, release);
      assert At(s2.w, path).Absent? && LiveHolder(s2.w, path, wronged);
      Prepend(s2, link, []);
      Prepend(s1, release, [link] + []);
      rest := [release] + ([link] + []);
    }
    Prepend(s, step, rest);
  }

  lemma Prepend(s: SplitWorld, step: SplitStep, rest: seq<SplitStep>)
    requires SplitEnabled(s, step) && IsSplitRun(SplitApply(s, step), rest)
    ensures IsSplitRun(s, [step] + rest)
    ensures SplitRun(s, [step] + rest) == SplitRun(SplitApply(s, step), rest)
  {
    assert ([step] + rest)[1..] == rest;
  }

  /** The schedule that breaks exclusion: two acquirers read the same stale lock, the first
      clears it and takes it, and the second then clears the first's.  Both hold it, live. */
  lemma SplitClearBreaksExclusion(p: Path, stale: Token, first: Token, second: Token)
    returns (s: SplitWorld, steps: seq<SplitStep>)
    requires first != second && first != stale && second != stale
    ensures Init(s.w) && IsSplitRun(s, steps)
    ensures var end := SplitRun(s, steps).w; LiveHolder(end, p, first) && LiveHolder(end, p, second)
  {
    s := SplitWorld(World(map[p := Held(stale, 0)], {1, 2}, {0, 1, 2}, map[(p, stale) := 0]), map[]);
    var link, link' := Whole(Link(p, first, 1)), Whole(Link(p, second, 2));
    var s1 := SplitApply(s, Read(1, p));
    var s2 := SplitApply(s1, Read(2, p));
    assert s2.w == s.w && s2.copies == map[1 := Copy(p, Held(stale, 0)), 2 := Copy(p, Held(stale, 0))];
    var s3 := SplitApply(s2, ActClear(1));
    var s4 := SplitApply(s3, link);
    assert At(s4.w, p) == Held(first, 1) && s4.copies == s2.copies;
    var s5 := SplitApply(s4, ActClear(2));
    Prepend(s5, link', []);
    Prepend(s4, ActClear(2), [link'] + []);
    var r4 := [ActClear(2)] + ([link'] + []);
    Prepend(s3, link, r4);
    Prepend(s2, ActClear(1), [link] + r4);
    var r2 := [ActClear(1)] + ([link] + r4);
    Prepend(s1, Read(2, p), r2);
    Prepend(s, Read(1, p), [Read(2, p)] + r2);
    steps := [Read(1, p)] + ([Read(2, p)] + r2);
  }

  /** The other one needs no stale lock: the holder releases between the acquirer's refused link
      and its read, so the read fails and counts as damage; the acquirer then removes the lock
      that a second session has taken meanwhile. */
  lemma SplitClearOfReleasedLock(p: Path, was: Token, first: Token, second: Token)
    returns (s: SplitWorld, steps: seq<SplitStep>)
    requires first != second && first != was && second != was
    ensures Init(s.w) && IsSplitRun(s, steps)
    ensures var end := SplitRun(s, steps).w; LiveHolder(end, p, first) && LiveHolder(end, p, second)
  {
    s := SplitWorld(World(map[], {0, 1, 2}, {0, 1, 2}, map[]), map[]);
    var link0, link1, link2 := Whole(Link(p, was, 0)), Whole(Link(p, first, 1)), Whole(Link(p, second, 2));
    var s1 := SplitApply(s, link0);
    var s2 := SplitApply(s1, link1);
    assert s2 == s1;
    var s3 := SplitApply(s2, Whole(Release(p, was)));
    var s4 := SplitApply(s3, Read(1, p));
    var s5 := SplitApply(s4, link2);
    assert At(s3.w, p).Absent? && s4.copies[1] == Copy(p, Absent) && At(s5.w, p) == Held(second, 2);
    var s6 := SplitApply(s5, ActClear(1));
    assert At(s6.w, p).Absent? && LiveHolder(s6.w, p, second);
    Prepend(s6, link1, []);
    var r6 := [link1] + [];
    Prepend(s5, ActClear(1), r6);
    var r5 := [ActClear(1)] + r6;
    Prepend(s4, link2, r5);
    var r4 := [link2] + r5;
    Prepend(s3, Read(1, p), r4);
    var r3 := [Read(1, p)] + r4;
    Prepend(s2, Whole(Release(p, was)), r3);
    var r2 := [Whole(Release(p, was))] + r3;
    Prepend(s1, link1, r2);
    var r1 := [link1] + r2;
    Prepend(s, link0, r1);
    steps := [link0] + r1;
  }

  /** The third needs no clear at all: a launcher reads its lock, the run takes it over and gives it
      up, another session links it, and the launcher writes its copy back for the supervisor. */
  lemma SplitRetargetBreaksExclusion(p: Path, id: Token, other: Token)
    returns (s: SplitWorld, steps: seq<SplitStep>)
    requires id != other
    ensures Init(s.w) && IsSplitRun(s, steps)
    ensures var end := SplitRun(s, steps).w; LiveHolder(end, p, id) && LiveHolder(end, p, other)
  {
    // 0 launches, 1 supervises, 2 is the run, 3 is the other session
    s := SplitWorld(World(map[], {0, 1, 2, 3}, {0, 1, 2, 3}, map[]), map[]);
    var link, link' := Whole(Link(p, id, 0)), Whole(Link(p, other, 3));
    var takeOver, release := Whole(Judge(p, id, 2, true)), Whole(Release(p, id));
    var s1 := SplitApply(s, link);
    var s2 := SplitApply(s1, Read(0, p));
    var s3 := SplitApply(s2, takeOver);
    var s4 := SplitApply(s3, release);
    var s5 := SplitApply(s4, link');
    assert s2.copies[0] == Copy(p, Held(id, 0)) && At(s4.w, p).Absent? && s5.copies == s2.copies;
    assert At(s5.w, p) == Held(other, 3) && LiveHolder(s5.w, p, other);
    Prepend(s5, ActRetarget(0, id, 1), []);
    var r5 := [ActRetarget(0, id, 1)] + [];
    Prepend(s4, link', r5);
    var r4 := [link'] + r5;
    Prepend(s3, release, r4);
    var r3 := [release] + r4;
    Prepend(s2, takeOver, r3);
    var r2 := [takeOver] + r3;
    Prepend(s1, Read(0, p), r2);
    var r1 := [Read(0, p)] + r2;
    Prepend(s, link, r1);
    steps := [link] + r1;
  }

  /** The fourth is a release: a supervisor reads the lock of its ended run, another session clears
      and takes it, the supervisor removes it, and a third session takes it too. */
  lemma SplitReleaseBreaksExclusion(p: Path, id: Token, second: Token, third: Token)
    returns (s: SplitWorld, steps: seq<SplitStep>)
    requires id != second && id != third && second != third
    ensures Init(s.w) && IsSplitRun(s, steps)
    ensures var end := SplitRun(s, steps).w; LiveHolder(end, p, second) && LiveHolder(end, p, third)
  {
    // 0 supervises, 1 is the second session, 2 the third, 3 the ended run
    s := SplitWorld(World(map[p := Held(id, 3)], {0, 1, 2}, {0, 1, 2, 3}, map[(p, id) := 3]), map[]);
    var clear, link := Whole(Judge(p, second, 1, false)), Whole(Link(p, second, 1));
    var s1 := SplitApply(s, Read(0, p));
    var s2 := SplitApply(s1, clear);
    var s3 := SplitApply(s2, link);
    assert At(s3.w, p) == Held(second, 1) && s3.copies[0] == Copy(p, Held(id, 3));
    var s4 := SplitApply(s3, ActRelease(0, id));
    assert At(s4.w, p).Absent? && LiveHolder(s4.w, p, second);
    var link' := Whole(Link(p, third, 2));
    Prepend(s4, link', []);
    var r4 := [link'] + [];
    Prepend(s3, ActRelease(0, id), r4);
    var r3 := [ActRelease(0, id)] + r4;
    Prepend(s2, link, r3);
    var r2 := [link] + r3;
    Prepend(s1, clear, r2);
    var r1 := [clear] + r2;
    Prepend(s, Read(0, p), r1);
    steps := [Read(0, p)] + r1;
  }
}
