/** One loop per project and one child per loop run: the nesting rule together with the session
    locks (nesting.go:341-363), for sessions that live by their own processes. */
module LiveSessions {
  import opened Options
  import opened NestingRule
  import SessionLocks
  import LockDirectory

  /** The sessions with the token and the process each runs under, and those that have come to the
      end of their work and give their locks up. */
  datatype Project = Project(
    tree: Tree,
    tokens: map<string, string>,
    procs: map<string, SessionLocks.Proc>,
    over: set<string>,
    locks: SessionLocks.World)

  datatype Event =
    | Lock(step: SessionLocks.Step)
    | StartSession(launch: Launch, token: string, proc: SessionLocks.Proc)
    | EndSession(run: string)

  /** The locks a session holds while it runs. */
  predicate HoldsLock(s: Session, path: string) {
    || (s.skill == LOOP_SKILL && path == LockDirectory.LOOP_LOCK)
    || (s.depth > 1 && path == LockDirectory.ChildLock(s.parent))
  }

  /** They are exactly the locks its launch takes. */
  lemma LaunchTakesThem(s: Session, path: string)
    requires s.depth >= 0
    ensures HoldsLock(s, path) <==> path in LockDirectory.Needed(s.skill, s.depth, s.parent)
  {
    LockDirectory.NeededExactly(s.skill, s.depth, s.parent);
  }

  /** A session lives while its own process does and it has not come to its end, whatever the lock
      files say. */
  predicate Live(p: Project, run: string) {
    run in p.tree && run in p.tokens && run in p.procs && p.procs[run] in p.locks.live && run !in p.over
  }

  /** `run` lives and needs `path` under `token`. */
  predicate Needs(p: Project, run: string, path: string, token: string) {
    Live(p, run) && HoldsLock(p.tree[run], path) && p.tokens[run] == token
  }

  /** A session starts under a token no live session has, in a process that lives, once its locks
      are granted. */
  ghost predicate CanOccur(p: Project, e: Event, allow: seq<string>) {
    match e
    case Lock(step) => SessionLocks.Enabled(p.locks, step)
    case StartSession(l, token, proc) =>
      && CanLaunch(p.tree, l, allow)
      && (forall run :: Live(p, run) ==> p.tokens[run] != token)
      && proc in p.locks.live
      && forall path :: HoldsLock(Add(p.tree, l, allow)[l.run], path) ==>
           SessionLocks.LiveHolder(p.locks, path, token)
    case EndSession(run) => run in p.tree
  }

  ghost function Occur(p: Project, e: Event, allow: seq<string>): Project
    requires CanOccur(p, e, allow)
  {
    match e
    case Lock(step) => p.(locks := SessionLocks.Apply(p.locks, step))
    case StartSession(l, token, proc) =>
      p.(tree := Add(p.tree, l, allow), tokens := p.tokens[l.run := token],
         procs := p.procs[l.run := proc], over := p.over - {l.run})
    case EndSession(run) => p.(over := p.over + {run})
  }

  ghost predicate Sound(p: Project) {
    && SessionLocks.Inv(p.locks)
    && Rule(p.tree)
    && p.tokens.Keys == p.tree.Keys && p.procs.Keys == p.tree.Keys
    && (forall run :: run in p.procs ==> p.procs[run] in p.locks.born)
    && (forall a, b :: Live(p, a) && Live(p, b) && p.tokens[a] == p.tokens[b] ==> a == b)
  }

  /** Every live session holds every lock it needs. */
  ghost predicate AllHold(p: Project) {
    forall run, path :: Live(p, run) && HoldsLock(p.tree[run], path) ==>
      SessionLocks.LiveHolder(p.locks, path, p.tokens[run])
  }

  /** A lock is lost under a live session: it is released, it is recorded for a process that is
      dead, or the process it is recorded for dies and the session's own does not. */
  ghost predicate Loses(p: Project, e: Event) {
    e.Lock? && exists run, path, token :: Needs(p, run, path, token) && LosesLock(p, e.step, run, path, token)
  }

  predicate LosesLock(p: Project, step: SessionLocks.Step, run: string, path: string, token: string)
    requires run in p.procs
  {
    match step
    case Release(at, t) => at == path && t == token
    case Retarget(at, t, proc) => at == path && t == token && proc !in p.locks.live
    case Die(proc) =>
      (path, token) in p.locks.granted && p.locks.granted[(path, token)] == proc && p.procs[run] != proc
    case _ => false
  }

  lemma OccurKeepsSound(p: Project, e: Event, allow: seq<string>)
    requires Sound(p) && CanOccur(p, e, allow) && LOOP_SKILL !in allow
    ensures Sound(Occur(p, e, allow))
  {
    match e
    case Lock(step) => LockStepKeepsSound(p, step);
    case StartSession(l, token, proc) => StartKeepsSound(p, l, token, proc, allow);
    case EndSession(run) =>
      assert forall r :: Live(Occur(p, e, allow), r) ==> Live(p, r);
  }

  lemma LockStepKeepsSound(p: Project, step: SessionLocks.Step)
    requires Sound(p) && SessionLocks.Enabled(p.locks, step)
    ensures Sound(p.(locks := SessionLocks.Apply(p.locks, step)))
  {
    var p' := p.(locks := SessionLocks.Apply(p.locks, step));
    SessionLocks.StepKeepsInv(p.locks, step);
    assert p.locks.born <= p'.locks.born;
    assert forall run :: Live(p', run) ==> Live(p, run);
  }

  lemma StartKeepsSound(p: Project, l: Launch, token: string, proc: SessionLocks.Proc, allow: seq<string>)
    requires Sound(p) && CanOccur(p, StartSession(l, token, proc), allow) && LOOP_SKILL !in allow
    ensures Sound(Occur(p, StartSession(l, token, proc), allow))
  {
    var p' := Occur(p, StartSession(l, token, proc), allow);
    LaunchKeepsRule(p.tree, l, allow);
    TokensStayDistinct(p, p', l.run, token);
  }

  lemma TokensStayDistinct(p: Project, p': Project, run: string, token: string)
    requires forall a, b :: Live(p, a) && Live(p, b) && p.tokens[a] == p.tokens[b] ==> a == b
    requires forall r :: Live(p, r) ==> p.tokens[r] != token
    requires run in p'.tokens && p'.tokens[run] == token
    requires forall r :: r != run && Live(p', r) ==> Live(p, r) && p'.tokens[r] == p.tokens[r]
    ensures forall a, b :: Live(p', a) && Live(p', b) && p'.tokens[a] == p'.tokens[b] ==> a == b
  {
  }

  /** One lock step: a live session keeps its lock exactly when the step does not lose it. */
  lemma LockStepExactly(p: Project, step: SessionLocks.Step, run: string, path: string)
    requires Sound(p) && SessionLocks.Enabled(p.locks, step)
    requires Live(p, run) && HoldsLock(p.tree[run], path) && SessionLocks.LiveHolder(p.locks, path, p.tokens[run])
    ensures var p' := p.(locks := SessionLocks.Apply(p.locks, step));
      (Live(p', run) ==> SessionLocks.LiveHolder(p'.locks, path, p.tokens[run]))
      <==> !LosesLock(p, step, run, path, p.tokens[run])
  {
    var token := p.tokens[run];
    assert SessionLocks.At(p.locks, path) == SessionLocks.Held(token, p.locks.granted[(path, token)]);
  }

  /** Every event keeps the live sessions' locks exactly when it loses none of them. */
  lemma AllHoldExactly(p: Project, e: Event, allow: seq<string>)
    requires Sound(p) && AllHold(p) && CanOccur(p, e, allow)
    ensures AllHold(Occur(p, e, allow)) <==> !Loses(p, e)
  {
    var p' := Occur(p, e, allow);
    if e.Lock? {
      forall run, path | Live(p, run) && HoldsLock(p.tree[run], path)
        ensures (Live(p', run) ==> SessionLocks.LiveHolder(p'.locks, path, p.tokens[run]))
          <==> !LosesLock(p, e.step, run, path, p.tokens[run])
      {
        LockStepExactly(p, e.step, run, path);
      }
      if Loses(p, e) {
        var run, path, token :| Needs(p, run, path, token) && LosesLock(p, e.step, run, path, token);
        assert Live(p', run);
      } else {
        LoselessKeeps(p, e.step);
      }
    } else {
      assert forall run :: Live(p', run) && !(e.StartSession? && run == e.launch.run) ==> Live(p, run);
    }
  }

  lemma LoselessKeeps(p: Project, step: SessionLocks.Step)
    requires Sound(p) && AllHold(p) && SessionLocks.Enabled(p.locks, step) && !Loses(p, Lock(step))
    ensures AllHold(p.(locks := SessionLocks.Apply(p.locks, step)))
  {
    var p' := p.(locks := SessionLocks.Apply(p.locks, step));
    forall run, path | Live(p', run) && HoldsLock(p'.tree[run], path)
      ensures SessionLocks.LiveHolder(p'.locks, path, p'.tokens[run])
    {
      assert Live(p, run);
      assert Needs(p, run, path, p.tokens[run]);
      LockStepExactly(p, step, run, path);
    }
  }

  ghost predicate Reached(p: Project, events: seq<Event>, allow: seq<string>, end: Project)
    decreases |events|
  {
    if events == [] then end == p
    else CanOccur(p, events[0], allow) && Reached(Occur(p, events[0], allow), events[1..], allow, end)
  }

  /** No lock is lost under a live session anywhere in the run. */
  ghost predicate NeverLoses(p: Project, events: seq<Event>, allow: seq<string>)
    decreases |events|
  {
    events != [] && CanOccur(p, events[0], allow) ==>
      !Loses(p, events[0]) && NeverLoses(Occur(p, events[0], allow), events[1..], allow)
  }

  /** The live sessions hold their locks at every state of the run. */
  ghost predicate AllHoldThroughout(p: Project, events: seq<Event>, allow: seq<string>)
    decreases |events|
  {
    AllHold(p) && (events != [] && CanOccur(p, events[0], allow) ==>
                     AllHoldThroughout(Occur(p, events[0], allow), events[1..], allow))
  }

  lemma {:induction false} ThroughoutExactly(p: Project, events: seq<Event>, allow: seq<string>, end: Project)
    requires Sound(p) && AllHold(p) && Reached(p, events, allow, end) && LOOP_SKILL !in allow
    ensures AllHoldThroughout(p, events, allow) <==> NeverLoses(p, events, allow)
    ensures Sound(end) && (NeverLoses(p, events, allow) ==> AllHold(end))
    decreases |events|
  {
    if events != [] {
      OccurKeepsSound(p, events[0], allow);
      AllHoldExactly(p, events[0], allow);
      if !Loses(p, events[0]) {
        ThroughoutExactly(Occur(p, events[0], allow), events[1..], allow, end);
      } else {
        ReachedIsSound(Occur(p, events[0], allow), events[1..], allow, end);
      }
    }
  }

  lemma {:induction false} ReachedIsSound(p: Project, events: seq<Event>, allow: seq<string>, end: Project)
    requires Sound(p) && Reached(p, events, allow, end) && LOOP_SKILL !in allow
    ensures Sound(end)
    decreases |events|
  {
    if events != [] {
      OccurKeepsSound(p, events[0], allow);
      ReachedIsSound(Occur(p, events[0], allow), events[1..], allow, end);
    }
  }

  ghost predicate NothingStarted(p: Project) {
    p.tree == map[] && p.tokens == map[] && p.procs == map[] && SessionLocks.Init(p.locks)
  }

  /** In every interleaving of launches, ends, lock steps and process deaths, every live session
      holds its locks at every state exactly when none is lost under one. */
  lemma LiveSessionsHoldTheirLocks(p: Project, events: seq<Event>, allow: seq<string>, end: Project)
    requires NothingStarted(p) && Reached(p, events, allow, end) && LOOP_SKILL !in allow
    ensures AllHoldThroughout(p, events, allow) <==> NeverLoses(p, events, allow)
  {
    ThroughoutExactly(p, events, allow, end);
  }

  /** So in every interleaving in which no lock is lost under a live session, a project has at most
      one live loop and a loop run at most one live child: live by their own processes. */
  lemma OneLoopOneChild(p: Project, events: seq<Event>, allow: seq<string>, end: Project, a: string, b: string)
    requires NothingStarted(p) && Reached(p, events, allow, end) && LOOP_SKILL !in allow
    requires NeverLoses(p, events, allow)
    requires Live(end, a) && Live(end, b)
    ensures end.tree[a].skill == LOOP_SKILL && end.tree[b].skill == LOOP_SKILL ==> a == b
    ensures end.tree[a].depth == 2 && end.tree[b].depth == 2 && end.tree[a].parent == end.tree[b].parent ==> a == b
  {
    ThroughoutExactly(p, events, allow, end);
    if end.tree[a].skill == LOOP_SKILL && end.tree[b].skill == LOOP_SKILL {
      SamePathSameSession(end, a, b, LockDirectory.LOOP_LOCK);
    }
    if end.tree[a].depth == 2 && end.tree[b].depth == 2 && end.tree[a].parent == end.tree[b].parent {
      SamePathSameSession(end, a, b, LockDirectory.ChildLock(end.tree[a].parent));
    }
  }

  lemma SamePathSameSession(p: Project, a: string, b: string, path: string)
    requires Sound(p) && AllHold(p) && Live(p, a) && Live(p, b)
    requires HoldsLock(p.tree[a], path) && HoldsLock(p.tree[b], path)
    ensures a == b
  {
    assert SessionLocks.LiveHolder(p.locks, path, p.tokens[a]);
    assert SessionLocks.LiveHolder(p.locks, path, p.tokens[b]);
  }

  lemma PrependReached(p: Project, e: Event, rest: seq<Event>, allow: seq<string>, end: Project)
    requires CanOccur(p, e, allow) && Reached(Occur(p, e, allow), rest, allow, end)
    ensures Reached(p, [e] + rest, allow, end)
  {
    assert ([e] + rest)[1..] == rest;
  }

  /** Two sessions that need one lock are live together. */
  ghost predicate TwoLive(p: Project, path: string, a: string, b: string) {
    a != b && Live(p, a) && Live(p, b) && HoldsLock(p.tree[a], path) && HoldsLock(p.tree[b], path)
  }

  /** `l` may be launched and needs `path` alone: a loop run from a terminal, or a loop's child. */
  ghost predicate WantsOnly(p: Project, l: Launch, path: string, allow: seq<string>) {
    CanLaunch(p.tree, l, allow) && forall q :: HoldsLock(Add(p.tree, l, allow)[l.run], q) <==> q == path
  }

  predicate IsFree(p: Project, path: string) {
    var file := SessionLocks.At(p.locks, path);
    !(file.Held? && file.proc in p.locks.live)
  }

  /** A lock that names no live process lets a launch in beside a live session that needs it. */
  lemma FreeLockLetsAnotherIn(p: Project, path: string, a: string, l: Launch, token: string, proc: SessionLocks.Proc, allow: seq<string>)
    returns (events: seq<Event>, end: Project)
    requires Live(p, a) && HoldsLock(p.tree[a], path) && IsFree(p, path)
    requires WantsOnly(p, l, path, allow) && proc in p.locks.live
    requires forall run :: Live(p, run) ==> p.tokens[run] != token
    ensures Reached(p, events, allow, end) && TwoLive(end, path, a, l.run)
  {
    var judge, link := Lock(SessionLocks.Judge(path, token, proc, false)), Lock(SessionLocks.Link(path, token, proc));
    var start := StartSession(l, token, proc);
    var p1 := Occur(p, judge, allow);
    var p2 := Occur(p1, link, allow);
    assert p2.locks.live == p.locks.live;
    assert SessionLocks.LiveHolder(p2.locks, path, token);
    assert forall run :: Live(p2, run) ==> Live(p, run);
    end := Occur(p2, start, allow);
    PrependReached(p2, start, [], allow, end);
    PrependReached(p1, link, [start] + [], allow, end);
    PrependReached(p, judge, [link] + ([start] + []), allow, end);
    events := [judge] + ([link] + ([start] + []));
  }

  lemma LossFreesLock(p: Project, step: SessionLocks.Step, path: string, a: string, allow: seq<string>)
    requires Sound(p) && SessionLocks.Enabled(p.locks, step) && Live(p, a)
    requires SessionLocks.LiveHolder(p.locks, path, p.tokens[a]) && LosesLock(p, step, a, path, p.tokens[a])
    ensures var p' := Occur(p, Lock(step), allow);
      IsFree(p', path) && Live(p', a) && forall run :: Live(p', run) ==> Live(p, run)
  {
    var token := p.tokens[a];
    assert SessionLocks.At(p.locks, path) == SessionLocks.Held(token, p.locks.granted[(path, token)]);
  }

  /** The failing case in full: every loss of a lock under a live session, be it a release, a
      retarget to a dead process or the death of the recorded one, can be followed by a second
      live session that needs the same lock. */
  lemma LossLetsAnotherIn(p: Project, step: SessionLocks.Step, path: string, a: string, l: Launch, token: string, proc: SessionLocks.Proc, allow: seq<string>)
    returns (events: seq<Event>, end: Project)
    requires Sound(p) && SessionLocks.Enabled(p.locks, step)
    requires Live(p, a) && HoldsLock(p.tree[a], path)
    requires SessionLocks.LiveHolder(p.locks, path, p.tokens[a]) && LosesLock(p, step, a, path, p.tokens[a])
    requires WantsOnly(p, l, path, allow) && proc in p.locks.live && step != SessionLocks.Die(proc)
    requires forall run :: Live(p, run) ==> p.tokens[run] != token
    ensures Reached(p, events, allow, end) && events != [] && events[0] == Lock(step)
    ensures TwoLive(end, path, a, l.run)
  {
    LossFreesLock(p, step, path, a, allow);
    var p1 := Occur(p, Lock(step), allow);
    var rest;
    rest, end := FreeLockLetsAnotherIn(p1, path, a, l, token, proc, allow);
    PrependReached(p, Lock(step), rest, allow, end);
    events := [Lock(step)] + rest;
  }

  // From nothing.

  /** A launch of a loop run from outside every session, which the gate admits. */
  function LoopLaunch(run: string): Launch {
    Launch(run, LOOP_SKILL, "task", View(Env("", None), [], [], map[]), None, false, None)
  }

  lemma LoopLaunchIsAdmitted(p: Project, run: string, allow: seq<string>)
    requires run != "" && run !in p.tree
    ensures WantsOnly(p, LoopLaunch(run), LockDirectory.LOOP_LOCK, allow)
  {
    assert LOOP_SKILL != OPERATOR_SKILL by { assert |LOOP_SKILL| != |OPERATOR_SKILL|; }
  }

  /** A detached loop run: launched, and its lock recorded for its supervisor. */
  ghost function DetachedLoop(a: string, id: string): (p: Project)
    requires a != ""
  {
    Project(map[a := Session(1, "", LOOP_SKILL, "task", None)], map[a := id], map[a := 1], {},
            SessionLocks.World(map[LockDirectory.LOOP_LOCK := SessionLocks.Held(id, 2)], {1, 2, 3}, {1, 2, 3},
                               map[(LockDirectory.LOOP_LOCK, id) := 2]))
  }

  /** It is reached from nothing, and so is what follows it. */
  lemma DetachedLoopIsReached(a: string, id: string, rest: seq<Event>, allow: seq<string>, end: Project)
    returns (p: Project, events: seq<Event>)
    requires a != "" && Reached(DetachedLoop(a, id), rest, allow, end)
    ensures NothingStarted(p) && Reached(p, events, allow, end)
  {
    var path := LockDirectory.LOOP_LOCK;
    p := Project(map[], map[], map[], {}, SessionLocks.World(map[], {1, 2, 3}, {1, 2, 3}, map[]));
    var link, retarget := Lock(SessionLocks.Link(path, id, 1)), Lock(SessionLocks.Retarget(path, id, 2));
    var start := StartSession(LoopLaunch(a), id, 1);
    var p1 := Occur(p, link, allow);
    LoopLaunchIsAdmitted(p1, a, allow);
    var p2 := Occur(p1, start, allow);
    assert Occur(p2, retarget, allow) == DetachedLoop(a, id);
    PrependReached(p2, retarget, rest, allow, end);
    PrependReached(p1, start, [retarget] + rest, allow, end);
    PrependReached(p, link, [start] + ([retarget] + rest), allow, end);
    events := [link] + ([start] + ([retarget] + rest));
  }

  /** Two live loop runs, from nothing: a detached one, whose supervisor dies, and another. */
  lemma TwoLiveLoops(a: string, b: string, id: string, token: string, allow: seq<string>)
    returns (p: Project, events: seq<Event>, end: Project)
    requires a != "" && b != "" && a != b && id != token && LOOP_SKILL !in allow
    ensures NothingStarted(p) && Reached(p, events, allow, end) && TwoLive(end, LockDirectory.LOOP_LOCK, a, b)
  {
    var mid := DetachedLoop(a, id);
    p, events := DetachedLoopIsReached(a, id, [], allow, mid);
    ReachedIsSound(p, events, allow, mid);
    LoopLaunchIsAdmitted(mid, b, allow);
    var after;
    after, end := LossLetsAnotherIn(mid, SessionLocks.Die(2), LockDirectory.LOOP_LOCK, a, LoopLaunch(b), token, 3, allow);
    p, events := DetachedLoopIsReached(a, id, after, allow, end);
  }
}
