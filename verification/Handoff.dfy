/** The hand-off of a session lock in a detached run (detach.go).

    A --detach launcher takes the lock under the run's id, starts a supervisor, records the
    supervisor on the lock and exits; the supervisor starts the run, whose own process takes
    the lock over by the same id and gives it up when its session is over; once the run has
    ended the supervisor releases the lock and then records the exit.  Every other process may
    use the same lock, under its own token, at any moment. */
module Handoff {
  import opened Options
  import opened SessionLocks

  datatype Launcher = Idle | Acquired | Started | Retargeted | Gone | GaveUp
  datatype Supervisor = Unborn | Supervising | LocksReleased | ExitRecorded | SupervisorGone
  datatype RunPhase = NotStarted | Starting | Holding | Released | Ended

  /** One detached run: its lock, its id, and its three processes. */
  datatype Cast = Cast(path: Path, id: Token, launcher: Proc, supervisor: Proc, run: Proc)

  datatype State = State(w: World, launcher: Launcher, supervisor: Supervisor, run: RunPhase)

  datatype Event =
    | Other(step: Step)
    | LaunchLink
    | LaunchJudge(held: bool)
    | LaunchStart
    | LaunchFails             // the supervisor could not be started: give the lock back
    | LaunchRetarget
    | LaunchExit
    | SpawnRun
    | SpawnRunFails           // the run could not be started
    | RunLink
    | RunJudge(held: bool)
    | RunRelease
    | RunEnds
    | SuperviseRelease
    | SuperviseRecord
    | SuperviseExit
    // What the theorem's hypotheses exclude.
    | LauncherKilled          // before it has retargeted
    | RecordPidFails          // recordSupervisorPID's error: the launcher gives the lock back
    | SupervisorKilled        // or ended by itself, before it has released

  predicate IsFault(e: Event) {
    e.LauncherKilled? || e.RecordPidFails? || e.SupervisorKilled?
  }

  predicate ForeignStep(c: Cast, step: Step) {
    match step
    case Link(path, token, proc) => token != c.id && proc !in {c.launcher, c.supervisor, c.run}
    case Judge(path, token, proc, _) => token != c.id && proc !in {c.launcher, c.supervisor, c.run}
    case Retarget(path, token, _) => token != c.id
    case Release(path, token) => token != c.id
    case Spawn(proc) => proc !in {c.launcher, c.supervisor, c.run}
    case Die(proc) => proc !in {c.launcher, c.supervisor, c.run}
  }

  predicate CanHappen(c: Cast, s: State, e: Event) {
    match e
    case Other(step) => ForeignStep(c, step) && Enabled(s.w, step)
    case LaunchLink => s.launcher.Idle?
    case LaunchJudge(held) => s.launcher.Idle? && Enabled(s.w, Judge(c.path, c.id, c.launcher, held))
    case LaunchStart => s.launcher.Acquired?
    case LaunchFails => s.launcher.Acquired?
    case LaunchRetarget => s.launcher.Started?
    case LaunchExit => s.launcher.Retargeted?
    case SpawnRun => s.supervisor.Supervising? && s.run.NotStarted?
    case SpawnRunFails => s.supervisor.Supervising? && s.run.NotStarted?
    case RunLink => s.run.Starting?
    case RunJudge(held) => s.run.Starting? && Enabled(s.w, Judge(c.path, c.id, c.run, held))
    case RunRelease => s.run.Holding?
    case RunEnds => s.run.Starting? || s.run.Holding? || s.run.Released?
    case SuperviseRelease => s.supervisor.Supervising? && s.run.Ended?
    case SuperviseRecord => s.supervisor.LocksReleased?
    case SuperviseExit => s.supervisor.ExitRecorded?
    case LauncherKilled => s.launcher.Acquired? || s.launcher.Started?
    case RecordPidFails => s.launcher.Started?
    case SupervisorKilled => s.supervisor.Supervising?
  }

  /** The lock file names this run. */
  predicate Names(c: Cast, w: World) {
    At(w, c.path).Held? && At(w, c.path).token == c.id
  }

  function Next(c: Cast, s: State, e: Event): State {
    match e
    case Other(step) => s.(w := Apply(s.w, step))
    case LaunchLink =>
      var w := Apply(s.w, Link(c.path, c.id, c.launcher));
      s.(w := w, launcher := if At(s.w, c.path).Absent? then Acquired else Idle)
    case LaunchJudge(held) =>
      var w := Apply(s.w, Judge(c.path, c.id, c.launcher, held));
      s.(w := w, launcher := if Names(c, s.w) then Acquired else Idle)
    case LaunchStart =>
      s.(w := Apply(s.w, Spawn(c.supervisor)), launcher := Started, supervisor := Supervising)
    case LaunchFails => s.(w := Apply(s.w, Release(c.path, c.id)), launcher := GaveUp)
    case LaunchRetarget =>
      s.(w := Apply(s.w, Retarget(c.path, c.id, c.supervisor)), launcher := Retargeted)
    case LaunchExit => s.(w := Apply(s.w, Die(c.launcher)), launcher := Gone)
    case SpawnRun => s.(w := Apply(s.w, Spawn(c.run)), run := Starting)
    case SpawnRunFails => s.(run := Ended)
    case RunLink =>
      var w := Apply(s.w, Link(c.path, c.id, c.run));
      s.(w := w, run := if At(s.w, c.path).Absent? then Holding else Starting)
    case RunJudge(held) =>
      var w := Apply(s.w, Judge(c.path, c.id, c.run, held));
      s.(w := w, run := if Names(c, s.w) then Holding else Starting)
    case RunRelease => s.(w := Apply(s.w, Release(c.path, c.id)), run := Released)
    case RunEnds => s.(w := Apply(s.w, Die(c.run)), run := Ended)
    case SuperviseRelease => s.(w := Apply(s.w, Release(c.path, c.id)), supervisor := LocksReleased)
    case SuperviseRecord => s.(supervisor := ExitRecorded)
    case SuperviseExit => s.(w := Apply(s.w, Die(c.supervisor)), supervisor := SupervisorGone)
    case LauncherKilled => s.(w := Apply(s.w, Die(c.launcher)), launcher := Gone)
    case RecordPidFails => s.(w := Apply(s.w, Release(c.path, c.id)), launcher := GaveUp)
    case SupervisorKilled => s.(w := Apply(s.w, Die(c.supervisor)), supervisor := SupervisorGone)
  }

  function Final(c: Cast, s: State, events: seq<Event>): State
    decreases |events|
  {
    if events == [] then s else Final(c, Next(c, s, events[0]), events[1..])
  }

  ghost predicate IsHistory(c: Cast, s: State, events: seq<Event>)
    decreases |events|
  {
    events == [] || (CanHappen(c, s, events[0]) && IsHistory(c, Next(c, s, events[0]), events[1..]))
  }

  ghost predicate Begin(c: Cast, s: State) {
    && SessionLocks.Init(s.w)
    && (forall path :: (path, c.id) !in s.w.granted)
    && c.launcher in s.w.live && c.supervisor !in s.w.born && c.run !in s.w.born
    && Distinct(c)
    && s.launcher.Idle? && s.supervisor.Unborn? && s.run.NotStarted?
  }

  /** From the launcher's acquire until the run gives the lock up or ends. */
  predicate InProgress(s: State) {
    && (s.launcher.Acquired? || s.launcher.Started? || s.launcher.Retargeted? || s.launcher.Gone?)
    && !s.run.Released? && !s.run.Ended?
  }

  /** The lock file names this run's id and a process that lives. */
  predicate Covered(c: Cast, s: State) {
    Names(c, s.w) && At(s.w, c.path).proc in s.w.live
  }

  predicate LocksGivenUp(s: State) {
    s.supervisor.LocksReleased? || s.supervisor.ExitRecorded? || s.supervisor.SupervisorGone?
  }

  predicate Distinct(c: Cast) {
    c.launcher != c.supervisor && c.launcher != c.run && c.supervisor != c.run
  }

  /** Who is alive, from the phases. */
  predicate Lives(c: Cast, s: State) {
    && (c.launcher in s.w.live <==> !s.launcher.Gone?)
    && (c.supervisor in s.w.live <==> !s.supervisor.Unborn? && !s.supervisor.SupervisorGone?)
    && (c.run in s.w.live <==> s.run.Starting? || s.run.Holding? || s.run.Released?)
    && (s.supervisor.Unborn? <==> c.supervisor !in s.w.born)
    && (s.run.NotStarted? ==> c.run !in s.w.born)
  }

  predicate PhasesAgree(s: State) {
    && (s.supervisor.Unborn? <==> s.launcher.Idle? || s.launcher.Acquired? || s.launcher.GaveUp?)
    && (s.supervisor.Unborn? ==> s.run.NotStarted?)
    && (LocksGivenUp(s) ==> s.run.Ended?)
  }

  predicate LockAgrees(c: Cast, s: State) {
    && (InProgress(s) ==> Covered(c, s))
    && (Names(c, s.w) ==> At(s.w, c.path).proc in {c.launcher, c.supervisor, c.run})
    && (Names(c, s.w) && (s.launcher.Retargeted? || s.launcher.Gone?) ==> At(s.w, c.path).proc != c.launcher)
    && (LocksGivenUp(s) || s.launcher.Idle? || s.launcher.GaveUp? ==> !Names(c, s.w))
  }

  ghost predicate Inv(c: Cast, s: State) {
    SessionLocks.Inv(s.w) && Distinct(c) && Lives(c, s) && PhasesAgree(s) && LockAgrees(c, s)
  }

  lemma BeginsInv(c: Cast, s: State)
    requires Begin(c, s)
    ensures Inv(c, s)
  {
    assert At(s.w, c.path).Held? ==> Grants(s.w, c.path, At(s.w, c.path).token, At(s.w, c.path).proc);
  }

  /** Another token's step leaves a covered lock alone, and never makes it this run's. */
  lemma ForeignStepKeepsLock(c: Cast, w: World, step: Step)
    requires SessionLocks.Inv(w) && Enabled(w, step) && ForeignStep(c, step)
    ensures Names(c, Apply(w, step)) ==> Names(c, w) && At(Apply(w, step), c.path) == At(w, c.path)
    ensures Names(c, w) && At(w, c.path).proc in w.live ==> At(Apply(w, step), c.path) == At(w, c.path)
  {
  }

  lemma NextKeepsInv(c: Cast, s: State, e: Event)
    requires Inv(c, s) && CanHappen(c, s, e) && !IsFault(e)
    ensures Inv(c, Next(c, s, e))
  {
    match e
    case Other(step) => StepKeepsInv(s.w, step); ForeignStepKeepsLock(c, s.w, step);
    case LaunchLink => StepKeepsInv(s.w, Link(c.path, c.id, c.launcher));
    case LaunchJudge(held) => StepKeepsInv(s.w, Judge(c.path, c.id, c.launcher, held));
    case LaunchStart => StepKeepsInv(s.w, Spawn(c.supervisor));
    case LaunchFails => StepKeepsInv(s.w, Release(c.path, c.id));
    case LaunchRetarget => StepKeepsInv(s.w, Retarget(c.path, c.id, c.supervisor));
    case LaunchExit => StepKeepsInv(s.w, Die(c.launcher));
    case SpawnRun => StepKeepsInv(s.w, Spawn(c.run));
    case SpawnRunFails =>
    case RunLink => StepKeepsInv(s.w, Link(c.path, c.id, c.run));
    case RunJudge(held) => StepKeepsInv(s.w, Judge(c.path, c.id, c.run, held));
    case RunRelease => StepKeepsInv(s.w, Release(c.path, c.id));
    case RunEnds => StepKeepsInv(s.w, Die(c.run));
    case SuperviseRelease => StepKeepsInv(s.w, Release(c.path, c.id));
    case SuperviseRecord =>
    case SuperviseExit => StepKeepsInv(s.w, Die(c.supervisor));
  }

  ghost predicate NoFault(events: seq<Event>) {
    forall i :: 0 <= i < |events| ==> !IsFault(events[i])
  }

  lemma {:induction false} HistoryKeepsInv(c: Cast, s: State, events: seq<Event>)
    requires Inv(c, s) && IsHistory(c, s, events) && NoFault(events)
    ensures Inv(c, Final(c, s, events))
    decreases |events|
  {
    if events != [] {
      NextKeepsInv(c, s, events[0]);
      HistoryKeepsInv(c, Next(c, s, events[0]), events[1..]);
    }
  }

  /** The hand-off: in every interleaving with every other process, from the launcher's acquire
      until the run gives its lock up or ends, the lock file names this run and a live process;
      and once an exit is recorded it names this run no more. */
  lemma LockIsCoveredThroughout(c: Cast, s: State, events: seq<Event>)
    requires Begin(c, s) && IsHistory(c, s, events) && NoFault(events)
    ensures var end := Final(c, s, events);
      && (InProgress(end) ==> Covered(c, end))
      && (end.supervisor.ExitRecorded? ==> end.run.Ended? && !Names(c, end.w))
  {
    BeginsInv(c, s);
    HistoryKeepsInv(c, s, events);
  }

  /** So nobody else is granted the lock meanwhile, and the run's own acquire, whichever side
      of the retarget it falls, takes the lock over at its first judgement. */
  lemma RunTakesOverAtOnce(c: Cast, s: State, events: seq<Event>, other: Token, held: bool)
    requires Begin(c, s) && IsHistory(c, s, events) && NoFault(events)
    ensures var end := Final(c, s, events);
      && (InProgress(end) && LiveHolder(end.w, c.path, other) ==> other == c.id)
      && (end.run.Starting? && CanHappen(c, end, RunJudge(held)) ==>
            var after := Next(c, end, RunJudge(held));
            after.run.Holding? && At(after.w, c.path) == Held(c.id, c.run))
  {
    BeginsInv(c, s);
    HistoryKeepsInv(c, s, events);
    var end := Final(c, s, events);
    if end.run.Starting? && InProgress(end) {
      assert Covered(c, end);
    }
  }

  /** No release of the protocol removes another token's lock. */
  lemma ReleaseIsOwn(c: Cast, s: State, e: Event)
    requires CanHappen(c, s, e)
    requires e.LaunchFails? || e.RunRelease? || e.SuperviseRelease? || e.RecordPidFails?
    requires At(s.w, c.path).Held? && At(s.w, c.path).token != c.id
    ensures Next(c, s, e).w.files == s.w.files
  {
  }

  /** And each leaves the lock free of this run. */
  lemma ReleaseFrees(c: Cast, s: State, e: Event)
    requires CanHappen(c, s, e)
    requires e.LaunchFails? || e.RunRelease? || e.SuperviseRelease? || e.RecordPidFails?
    ensures !Names(c, Next(c, s, e).w) && (c.path, c.id) !in Next(c, s, e).w.granted
    ensures Names(c, s.w) ==> At(Next(c, s, e).w, c.path).Absent?
  {
  }

  // ---------------------------------------------------------------------------------------
  // The hypotheses are needed.  Each excluded event is judged exactly.

  /** A supervisor that is killed, or gives up before it starts its run, leaves the lock covered
      exactly when the lock does not record it: before the launcher's retarget, or when the run's
      own take-over came after that. */
  lemma SupervisorKilledExactly(c: Cast, s: State)
    requires Inv(c, s) && InProgress(s) && CanHappen(c, s, SupervisorKilled)
    ensures Covered(c, Next(c, s, SupervisorKilled)) <==> At(s.w, c.path).proc != c.supervisor
  {
  }

  /** A launcher killed early leaves it covered exactly when the run had taken over already. */
  lemma LauncherKilledExactly(c: Cast, s: State)
    requires Inv(c, s) && InProgress(s) && CanHappen(c, s, LauncherKilled)
    ensures Covered(c, Next(c, s, LauncherKilled)) <==> At(s.w, c.path).proc != c.launcher
  {
  }

  /** When the launcher cannot record the supervisor's pid it gives the lock up although its
      supervisor goes on to start the run. */
  lemma RecordPidFailureUncovers(c: Cast, s: State)
    requires Inv(c, s) && InProgress(s) && CanHappen(c, s, RecordPidFails)
    ensures var s' := Next(c, s, RecordPidFails);
      At(s'.w, c.path).Absent? && s'.supervisor == s.supervisor && c.supervisor in s'.w.live
  {
  }

  /** A supervisor that gives up before it starts its run, once the launcher has retargeted and
      gone: the lock names the run and a dead process, and nothing of the run is left. */
  lemma SupervisorGivesUpEarly(c: Cast, s: State)
    requires Inv(c, s) && s.launcher.Retargeted? && s.supervisor.Supervising? && s.run.NotStarted?
    ensures CanHappen(c, s, SupervisorKilled)
    ensures var end := Next(c, Next(c, s, SupervisorKilled), LaunchExit);
      InProgress(end) && Names(c, end.w) && At(end.w, c.path).proc !in end.w.live && c.run !in end.w.live
  {
    assert Covered(c, s);
  }

  /** The schedule behind that: the run takes over, the launcher retargets, the supervisor is
      killed, and another session is granted the lock while the run's process still lives. */
  lemma KilledSupervisorLetsAnotherIn(c: Cast, s: State, other: Token, proc: Proc)
    requires Inv(c, s) && s.launcher.Started? && s.run.Holding?
    requires other != c.id && proc in s.w.live && proc !in {c.launcher, c.supervisor, c.run}
    ensures var events := [LaunchRetarget, SupervisorKilled,
                           Other(Judge(c.path, other, proc, false)), Other(Link(c.path, other, proc))];
      && IsHistory(c, s, events)
      && var end := Final(c, s, events);
         LiveHolder(end.w, c.path, other) && end.run.Holding? && c.run in end.w.live
  {
    var judge := Other(Judge(c.path, other, proc, false));
    var link := Other(Link(c.path, other, proc));
    var s1 := Next(c, s, LaunchRetarget);
    NextKeepsInv(c, s, LaunchRetarget);
    var s2 := Next(c, s1, SupervisorKilled);
    assert At(s2.w, c.path) == Held(c.id, c.supervisor) && c.supervisor !in s2.w.live;
    var s3 := Next(c, s2, judge);
    PrependEvent(c, s3, link, []);
    PrependEvent(c, s2, judge, [link] + []);
    PrependEvent(c, s1, SupervisorKilled, [judge] + ([link] + []));
    PrependEvent(c, s, LaunchRetarget, [SupervisorKilled] + ([judge] + ([link] + [])));
    assert [LaunchRetarget] + ([SupervisorKilled] + ([judge] + ([link] + []))) == [LaunchRetarget, SupervisorKilled, judge, link];
  }

  lemma PrependEvent(c: Cast, s: State, e: Event, rest: seq<Event>)
    requires CanHappen(c, s, e) && IsHistory(c, Next(c, s, e), rest)
    ensures IsHistory(c, s, [e] + rest)
    ensures Final(c, s, [e] + rest) == Final(c, Next(c, s, e), rest)
  {
    assert ([e] + rest)[1..] == rest;
  }

  // ---------------------------------------------------------------------------------------
  // The launcher's retarget and the run's take-over, each a read and a write apart.

  /** What the launcher and the run last read of the lock. */
  datatype Apart = Apart(s: State, launcherCopy: Option<LockFile>, runCopy: Option<LockFile>)

  datatype ApartEvent =
    | AtOnce(e: Event)
    | LaunchRead
    | LaunchWrite
    | RunRead
    | RunWrite

  predicate CopyNames(c: Cast, copy: Option<LockFile>) {
    copy.Some? && copy.value.Held? && copy.value.token == c.id
  }

  predicate ApartCanHappen(c: Cast, a: Apart, e: ApartEvent) {
    match e
    case AtOnce(e) => !e.LaunchRetarget? && !IsFault(e) && CanHappen(c, a.s, e)
    case LaunchRead => a.s.launcher.Started? && a.launcherCopy.None?
    case LaunchWrite => a.s.launcher.Started? && a.launcherCopy.Some?
    case RunRead => a.s.run.Starting?
    case RunWrite => a.s.run.Starting? && CopyNames(c, a.runCopy)
  }

  /** A launcher whose copy does not name the run writes nothing. */
  function ApartNext(c: Cast, a: Apart, e: ApartEvent): Apart {
    match e
    case AtOnce(e) => a.(s := Next(c, a.s, e))
    case LaunchRead => a.(launcherCopy := Some(At(a.s.w, c.path)))
    case LaunchWrite =>
      var w := if CopyNames(c, a.launcherCopy) then Grant(a.s.w, c.path, c.id, c.supervisor) else a.s.w;
      a.(s := a.s.(w := w, launcher := Retargeted))
    case RunRead => a.(runCopy := Some(At(a.s.w, c.path)))
    case RunWrite => a.(s := a.s.(w := Grant(a.s.w, c.path, c.id, c.run), run := Holding))
  }

  function ApartFinal(c: Cast, a: Apart, events: seq<ApartEvent>): Apart
    decreases |events|
  {
    if events == [] then a else ApartFinal(c, ApartNext(c, a, events[0]), events[1..])
  }

  ghost predicate IsApartHistory(c: Cast, a: Apart, events: seq<ApartEvent>)
    decreases |events|
  {
    events == [] || (ApartCanHappen(c, a, events[0]) && IsApartHistory(c, ApartNext(c, a, events[0]), events[1..]))
  }

  predicate RunIsOver(s: State) { s.run.Released? || s.run.Ended? }

  /** Until the run is over the hand-off's invariant holds, and a copy taken of the lock names the
      run. */
  ghost predicate ApartInv(c: Cast, a: Apart) {
    RunIsOver(a.s) || (Inv(c, a.s) && (a.launcherCopy.Some? ==> CopyNames(c, a.launcherCopy)))
  }

  lemma ApartNextKeepsInv(c: Cast, a: Apart, e: ApartEvent)
    requires ApartInv(c, a) && ApartCanHappen(c, a, e)
    ensures ApartInv(c, ApartNext(c, a, e))
  {
    if !RunIsOver(a.s) {
      match e
      case AtOnce(e) => NextKeepsInv(c, a.s, e);
      case LaunchRead => assert Covered(c, a.s);
      case LaunchWrite =>
        assert Covered(c, a.s);
        NextKeepsInv(c, a.s, LaunchRetarget);
        assert ApartNext(c, a, e).s == Next(c, a.s, LaunchRetarget);
      case RunRead =>
      case RunWrite =>
        assert Covered(c, a.s);
        NextKeepsInv(c, a.s, RunJudge(true));
        assert ApartNext(c, a, e).s == Next(c, a.s, RunJudge(true));
    }
  }

  lemma {:induction false} ApartHistoryKeepsInv(c: Cast, a: Apart, events: seq<ApartEvent>)
    requires ApartInv(c, a) && IsApartHistory(c, a, events)
    ensures ApartInv(c, ApartFinal(c, a, events))
    decreases |events|
  {
    if events != [] {
      ApartNextKeepsInv(c, a, events[0]);
      ApartHistoryKeepsInv(c, ApartNext(c, a, events[0]), events[1..]);
    }
  }

  /** The hand-off with both writes apart from their reads: in every interleaving the lock still
      names this run and a live process from the launcher's acquire until the run gives it up or
      ends. */
  lemma LockIsCoveredApart(c: Cast, s: State, events: seq<ApartEvent>)
    requires Begin(c, s) && IsApartHistory(c, Apart(s, None, None), events)
    ensures var end := ApartFinal(c, Apart(s, None, None), events).s; InProgress(end) ==> Covered(c, end)
  {
    BeginsInv(c, s);
    ApartHistoryKeepsInv(c, Apart(s, None, None), events);
  }

  // After the supervisor's release.

  /** The launcher writes a copy that names the run although the supervisor has released. */
  predicate IsLateWrite(c: Cast, a: Apart, e: ApartEvent) {
    e.LaunchWrite? && CopyNames(c, a.launcherCopy) && LocksGivenUp(a.s)
  }

  predicate NoLateWrite(c: Cast, a: Apart, events: seq<ApartEvent>)
    decreases |events|
  {
    events == [] || (!IsLateWrite(c, a, events[0]) && NoLateWrite(c, ApartNext(c, a, events[0]), events[1..]))
  }

  /** Once the supervisor has released, the lock does not name the run. */
  predicate StaysReleased(c: Cast, s: State) {
    LocksGivenUp(s) ==> !Names(c, s.w)
  }

  predicate StaysReleasedThroughout(c: Cast, a: Apart, events: seq<ApartEvent>)
    decreases |events|
  {
    StaysReleased(c, a.s) && (events == [] || StaysReleasedThroughout(c, ApartNext(c, a, events[0]), events[1..]))
  }

  lemma ReleaseStaysExactly(c: Cast, a: Apart, e: ApartEvent)
    requires PhasesAgree(a.s) && StaysReleased(c, a.s) && ApartCanHappen(c, a, e)
    ensures var a' := ApartNext(c, a, e);
      PhasesAgree(a'.s) && (StaysReleased(c, a'.s) <==> !IsLateWrite(c, a, e))
  {
  }

  /** After the release, a recorded exit included, the lock never names the run again exactly when
      the launcher makes no late write. */
  lemma {:induction false} StaysReleasedExactly(c: Cast, a: Apart, events: seq<ApartEvent>)
    requires PhasesAgree(a.s) && StaysReleased(c, a.s) && IsApartHistory(c, a, events)
    ensures StaysReleasedThroughout(c, a, events) <==> NoLateWrite(c, a, events)
    decreases |events|
  {
    if events != [] {
      ReleaseStaysExactly(c, a, events[0]);
      if !IsLateWrite(c, a, events[0]) {
        StaysReleasedExactly(c, ApartNext(c, a, events[0]), events[1..]);
      }
    }
  }

  lemma StaysReleasedFromBegin(c: Cast, s: State, events: seq<ApartEvent>)
    requires Begin(c, s) && IsApartHistory(c, Apart(s, None, None), events)
    ensures var a := Apart(s, None, None); StaysReleasedThroughout(c, a, events) <==> NoLateWrite(c, a, events)
  {
    StaysReleasedExactly(c, Apart(s, None, None), events);
  }

  lemma PrependApart(c: Cast, a: Apart, e: ApartEvent, rest: seq<ApartEvent>)
    requires ApartCanHappen(c, a, e) && IsApartHistory(c, ApartNext(c, a, e), rest)
    ensures IsApartHistory(c, a, [e] + rest)
    ensures ApartFinal(c, a, [e] + rest) == ApartFinal(c, ApartNext(c, a, e), rest)
  {
    assert ([e] + rest)[1..] == rest;
  }

  /** The exit is recorded, and the lock names the run and its live supervisor. */
  predicate Revived(c: Cast, s: State) {
    s.supervisor.ExitRecorded? && Covered(c, s) && At(s.w, c.path).proc == c.supervisor
  }

  /** The late write, from the start: the launcher reads the lock, the run takes it over and ends,
      the supervisor releases and records the exit, and the launcher writes its copy. */
  lemma LateWriteRevivesLock(c: Cast, s: State) returns (events: seq<ApartEvent>)
    requires Begin(c, s) && At(s.w, c.path).Absent?
    ensures IsApartHistory(c, Apart(s, None, None), events)
    ensures Revived(c, ApartFinal(c, Apart(s, None, None), events).s)
  {
    var a := Apart(s, None, None);
    var a1 := ApartNext(c, a, AtOnce(LaunchLink));
    var a2 := ApartNext(c, a1, AtOnce(LaunchStart));
    var a3 := ApartNext(c, a2, LaunchRead);
    var a4 := ApartNext(c, a3, AtOnce(SpawnRun));
    assert CopyNames(c, a4.launcherCopy) && a4.s.launcher.Started? && Covered(c, a4.s) && c.supervisor in a4.s.w.live;
    var rest := RunEndsThenLateWrite(c, a4);
    PrependApart(c, a3, AtOnce(SpawnRun), rest);
    var r3 := [AtOnce(SpawnRun)] + rest;
    PrependApart(c, a2, LaunchRead, r3);
    var r2 := [LaunchRead] + r3;
    PrependApart(c, a1, AtOnce(LaunchStart), r2);
    var r1 := [AtOnce(LaunchStart)] + r2;
    PrependApart(c, a, AtOnce(LaunchLink), r1);
    events := [AtOnce(LaunchLink)] + r1;
  }

  lemma RunEndsThenLateWrite(c: Cast, a: Apart) returns (events: seq<ApartEvent>)
    requires a.s.launcher.Started? && a.s.supervisor.Supervising? && a.s.run.Starting?
    requires CopyNames(c, a.launcherCopy) && Covered(c, a.s) && c.run in a.s.w.live
    requires c.supervisor in a.s.w.live && c.supervisor != c.run
    ensures IsApartHistory(c, a, events)
    ensures Revived(c, ApartFinal(c, a, events).s)
  {
    var takeOver := AtOnce(RunJudge(true));
    var a1 := ApartNext(c, a, takeOver);
    var a2 := ApartNext(c, a1, AtOnce(RunEnds));
    var rest := ReleaseThenLateWrite(c, a2);
    PrependApart(c, a1, AtOnce(RunEnds), rest);
    PrependApart(c, a, takeOver, [AtOnce(RunEnds)] + rest);
    events := [takeOver] + ([AtOnce(RunEnds)] + rest);
  }

  lemma ReleaseThenLateWrite(c: Cast, a: Apart) returns (events: seq<ApartEvent>)
    requires a.s.launcher.Started? && a.s.supervisor.Supervising? && a.s.run.Ended?
    requires CopyNames(c, a.launcherCopy) && c.supervisor in a.s.w.live
    ensures IsApartHistory(c, a, events)
    ensures Revived(c, ApartFinal(c, a, events).s)
  {
    var release, record := AtOnce(SuperviseRelease), AtOnce(SuperviseRecord);
    var a1 := ApartNext(c, a, release);
    var a2 := ApartNext(c, a1, record);
    PrependApart(c, a2, LaunchWrite, []);
    PrependApart(c, a1, record, [LaunchWrite] + []);
    PrependApart(c, a, release, [record] + ([LaunchWrite] + []));
    events := [release] + ([record] + ([LaunchWrite] + []));
  }
}
