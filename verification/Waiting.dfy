/** Waiting for a detached run (detach.go, detach_probe.go): `ended`, `still running` (75) or
    `lost` (76), decided from reads of the handle and looks at its process spread over time.

    A timeline gives the handle and the supervisor at every moment; a waiter's reads and looks
    fall at moments it does not choose. */
module Waiting {
  import opened Options
  import opened HandleFile

  datatype Moment = Moment(handle: Handle, supervisorEnded: bool)

  type Timeline = nat -> Moment

  /** One moment and the next: an ended supervisor stays ended, a recorded exit stays as it is,
      and only a supervisor that has not ended records one. */
  predicate Follows(a: Moment, b: Moment) {
    && (a.supervisorEnded ==> b.supervisorEnded)
    && (a.handle.exit.Some? ==> b.handle.exit == a.handle.exit)
    && (a.handle.exit.None? && b.handle.exit.Some? ==> !a.supervisorEnded)
  }

  predicate StepAt(tl: Timeline, i: nat) { Follows(tl(i), tl(i + 1)) }

  ghost predicate Possible(tl: Timeline) {
    forall i: nat :: StepAt(tl, i)
  }

  lemma {:induction false} Later(tl: Timeline, i: nat, j: nat)
    requires Possible(tl) && i <= j
    ensures tl(i).supervisorEnded ==> tl(j).supervisorEnded
    ensures tl(i).handle.exit.Some? ==> tl(j).handle.exit == tl(i).handle.exit
    ensures tl(i).supervisorEnded && tl(i).handle.exit.None? ==> tl(j).handle.exit.None?
    decreases j - i
  {
    if i < j {
      assert StepAt(tl, i);
      Later(tl, i + 1, j);
    }
  }

  /** A supervisor seen ended, and no exit in a read made after that: there never is one. */
  lemma NoExitEver(tl: Timeline, ended: nat, read: nat)
    requires Possible(tl) && ended <= read
    requires tl(ended).supervisorEnded && tl(read).handle.exit.None?
    ensures forall t: nat :: tl(t).handle.exit.None?
  {
    forall t: nat ensures tl(t).handle.exit.None? {
      Later(tl, ended, read);
      if t <= read { Later(tl, t, read); } else { Later(tl, read, t); }
    }
  }

  // ---------------------------------------------------------------------------------------
  // Where such timelines come from: the writes to the handle.

  /** What may happen at one moment when an update is one step. */
  datatype Act = Updated(write: Write) | Ended | Nothing

  /** The supervisor records its exit once, and while it lives. */
  predicate LawfulAct(m: Moment, a: Act) {
    a.Updated? && a.write.update.RecordExit? ==>
      a.write.who.Supervisor? && !m.supervisorEnded && m.handle.exit.None?
  }

  function MomentAfter(m: Moment, a: Act): Moment {
    match a
    case Updated(write) => m.(handle := Change(write.update, m.handle))
    case Ended => m.(supervisorEnded := true)
    case Nothing => m
  }

  function MomentAt(start: Moment, acts: nat -> Act, t: nat): Moment {
    if t == 0 then start else MomentAfter(MomentAt(start, acts, t - 1), acts(t - 1))
  }

  function TimelineOf(start: Moment, acts: nat -> Act): Timeline {
    (t: nat) => MomentAt(start, acts, t)
  }

  predicate LawfulAt(start: Moment, acts: nat -> Act, t: nat) {
    LawfulAct(MomentAt(start, acts, t), acts(t))
  }

  /** With whole updates, every history of the handle is a possible timeline. */
  lemma WholeUpdatesArePossible(start: Moment, acts: nat -> Act)
    requires forall t: nat :: LawfulAt(start, acts, t)
    ensures Possible(TimelineOf(start, acts))
  {
    var tl := TimelineOf(start, acts);
    forall t: nat ensures StepAt(tl, t) {
      assert LawfulAt(start, acts, t);
      assert tl(t + 1) == MomentAfter(tl(t), acts(t));
    }
  }

  /** The same with reads and saves apart. */
  datatype SplitAct = OnDisk(event: Event) | SupervisorEnds | Pause

  datatype Desk = Desk(disk: Disk, supervisorEnded: bool)

  function MomentOf(d: Desk): Moment { Moment(d.disk.handle, d.supervisorEnded) }

  function DeskAfter(d: Desk, a: SplitAct): Desk {
    match a
    case OnDisk(event) => d.(disk := Happen(d.disk, event))
    case SupervisorEnds => d.(supervisorEnded := true)
    case Pause => d
  }

  function DeskAt(start: Desk, acts: nat -> SplitAct, t: nat): Desk {
    if t == 0 then start else DeskAfter(DeskAt(start, acts, t - 1), acts(t - 1))
  }

  function SplitTimeline(start: Desk, acts: nat -> SplitAct): Timeline {
    (t: nat) => MomentOf(DeskAt(start, acts, t))
  }

  predicate LawfulSplit(d: Desk, a: SplitAct) {
    a.OnDisk? && a.event.Save? && a.event.update.RecordExit? ==>
      a.event.who.Supervisor? && !d.supervisorEnded && d.disk.handle.exit.None?
  }

  predicate LawfulSplitAt(start: Desk, acts: nat -> SplitAct, t: nat) {
    LawfulSplit(DeskAt(start, acts, t), acts(t))
  }

  /** A writer saves a copy from before the recorded exit at `t`. */
  predicate StaleAt(start: Desk, acts: nat -> SplitAct, t: nat) {
    acts(t).OnDisk? && IsStaleSave(DeskAt(start, acts, t).disk, acts(t).event)
  }

  /** An exit that a copy has is the one on disk. */
  predicate CopiesAgree(d: Desk) {
    forall who :: who in d.disk.copies && d.disk.copies[who].exit.Some? ==>
      d.disk.copies[who].exit == d.disk.handle.exit
  }

  lemma SplitActFollowsExactly(d: Desk, a: SplitAct)
    requires CopiesAgree(d) && LawfulSplit(d, a)
    ensures Follows(MomentOf(d), MomentOf(DeskAfter(d, a))) <==> !(a.OnDisk? && IsStaleSave(d.disk, a.event))
    ensures !(a.OnDisk? && IsStaleSave(d.disk, a.event)) ==> CopiesAgree(DeskAfter(d, a))
  {
  }

  ghost predicate AllLawful(start: Desk, acts: nat -> SplitAct) {
    forall t: nat :: LawfulSplitAt(start, acts, t)
  }

  predicate NoStaleBefore(start: Desk, acts: nat -> SplitAct, t: nat) {
    t == 0 || (NoStaleBefore(start, acts, t - 1) && !StaleAt(start, acts, t - 1))
  }

  lemma {:induction false} AgreeUntilStale(start: Desk, acts: nat -> SplitAct, t: nat)
    requires CopiesAgree(start) && AllLawful(start, acts) && NoStaleBefore(start, acts, t)
    ensures CopiesAgree(DeskAt(start, acts, t))
  {
    if t > 0 {
      AgreeUntilStale(start, acts, t - 1);
      assert LawfulSplitAt(start, acts, t - 1);
      SplitActFollowsExactly(DeskAt(start, acts, t - 1), acts(t - 1));
    }
  }

  lemma StepIsFollows(start: Desk, acts: nat -> SplitAct, t: nat)
    ensures StepAt(SplitTimeline(start, acts), t)
      <==> Follows(MomentOf(DeskAt(start, acts, t)), MomentOf(DeskAfter(DeskAt(start, acts, t), acts(t))))
  {
    assert DeskAt(start, acts, t + 1) == DeskAfter(DeskAt(start, acts, t), acts(t));
  }

  /** Up to the first stale save each step is a possible one; that save is not. */
  lemma StepExactly(start: Desk, acts: nat -> SplitAct, t: nat)
    requires CopiesAgree(start) && AllLawful(start, acts) && NoStaleBefore(start, acts, t)
    ensures StepAt(SplitTimeline(start, acts), t) <==> !StaleAt(start, acts, t)
  {
    AgreeUntilStale(start, acts, t);
    assert LawfulSplitAt(start, acts, t);
    SplitActFollowsExactly(DeskAt(start, acts, t), acts(t));
    StepIsFollows(start, acts, t);
  }

  lemma {:induction false} PossibleIsNotStale(start: Desk, acts: nat -> SplitAct, t: nat)
    requires CopiesAgree(start) && AllLawful(start, acts) && Possible(SplitTimeline(start, acts))
    ensures NoStaleBefore(start, acts, t)
  {
    if t > 0 {
      PossibleIsNotStale(start, acts, t - 1);
      StepExactly(start, acts, t - 1);
    }
  }

  lemma {:induction false} NeverIsNotBefore(start: Desk, acts: nat -> SplitAct, t: nat)
    requires forall i: nat :: !StaleAt(start, acts, i)
    ensures NoStaleBefore(start, acts, t)
  {
    if t > 0 { NeverIsNotBefore(start, acts, t - 1); }
  }

  /** With reads and saves apart, a history is a possible timeline exactly when no writer saves a
      copy it read before the exit was recorded. */
  lemma SplitUpdatesPossibleExactly(start: Desk, acts: nat -> SplitAct)
    requires CopiesAgree(start) && AllLawful(start, acts)
    ensures Possible(SplitTimeline(start, acts)) <==> forall t: nat :: !StaleAt(start, acts, t)
  {
    var tl := SplitTimeline(start, acts);
    if Possible(tl) {
      forall t: nat ensures !StaleAt(start, acts, t) { PossibleIsNotStale(start, acts, t + 1); }
    }
    if forall t: nat :: !StaleAt(start, acts, t) {
      forall t: nat ensures StepAt(tl, t) {
        NeverIsNotBefore(start, acts, t);
        StepExactly(start, acts, t);
      }
    }
  }

  // ---------------------------------------------------------------------------------------
  // The loss check.

  datatype Probe = Ours | Unknown | NotOurs

  /** What one call of the loss check meets: its two looks, its two re-reads, whether the
      <id>.lost marker was there, and whether the pause between the looks ran its time. */
  datatype Meeting = Meeting(
    first: Probe, firstAt: nat,
    marker: bool, slept: bool,
    readOk: bool, readAt: nat,
    second: Probe, secondAt: nat,
    finalOk: bool, finalAt: nat)

  predicate InOrder(m: Meeting, from: nat) {
    from <= m.firstAt <= m.readAt <= m.secondAt <= m.finalAt
  }

  function Reread(tl: Timeline, m: Meeting, h: Handle): Handle {
    if m.readOk then tl(m.readAt).handle else h
  }

  /** The freshest read once both looks are in. */
  function Freshest(tl: Timeline, m: Meeting, h: Handle): Handle {
    if m.finalOk then tl(m.finalAt).handle else if m.marker then h else Reread(tl, m, h)
  }

  /** Both sightings a loss needs; an earlier command's marker is one of them. */
  predicate SeenTwice(tl: Timeline, m: Meeting, h: Handle) {
    && m.first.NotOurs?
    && (m.marker || (m.slept && Reread(tl, m, h).exit.None? && m.second.NotOurs?))
  }

  predicate Lost(tl: Timeline, m: Meeting, h: Handle) {
    && h.exit.None? && h.supervisorPid != 0
    && SeenTwice(tl, m, h)
    && Freshest(tl, m, h).exit.None?
  }

  /** The handle as the check last read it, when it gave its answer. */
  function LastRead(tl: Timeline, m: Meeting, h: Handle): Handle {
    if h.exit.Some? || h.supervisorPid == 0 || !m.first.NotOurs? || (!m.marker && !m.slept) then h
    else if !SeenTwice(tl, m, h) then Reread(tl, m, h)
    else Freshest(tl, m, h)
  }

  method SupervisorLost(tl: Timeline, m: Meeting, h: Handle) returns (lost: bool, cur: Handle)
    ensures lost == Lost(tl, m, h)
    ensures cur == LastRead(tl, m, h)
    ensures cur == h || (m.readOk && cur == tl(m.readAt).handle) || (m.finalOk && cur == tl(m.finalAt).handle)
    ensures lost ==> cur == Freshest(tl, m, h)
    ensures cur.exit.Some? && h.exit.None? ==>
      m.first.NotOurs? && ((m.readOk && cur == tl(m.readAt).handle) || (m.finalOk && cur == tl(m.finalAt).handle))
  {
    cur := h;
    if h.exit.Some? || h.supervisorPid == 0 { return false, cur; }
    if m.first != NotOurs { return false, cur; }
    if !m.marker {
      if !m.slept { return false, cur; }
      if m.readOk { cur := tl(m.readAt).handle; }
      if cur.exit.Some? || m.second != NotOurs { return false, cur; }
    }
    if m.finalOk { cur := tl(m.finalAt).handle; }
    return cur.exit.None?, cur;
  }

  /** A run is declared lost exactly when its supervisor is on record, has been seen not to be there
      twice, an earlier command's marker counting once, and no handle the check read has an
      exit. */
  lemma LostExactly(tl: Timeline, m: Meeting, h: Handle)
    ensures Lost(tl, m, h) <==>
      && h.supervisorPid != 0 && m.first == NotOurs && (m.marker || (m.slept && m.second == NotOurs))
      && h.exit.None?
      && (!m.marker && m.readOk ==> tl(m.readAt).handle.exit.None?)
      && (m.finalOk ==> tl(m.finalAt).handle.exit.None?)
  {
  }

  /** The check's last read has an exit exactly when some read it made has: it goes on reading only
      while there is none, and stops early only when a look does not say the process is gone. */
  lemma LastReadExactly(tl: Timeline, m: Meeting, h: Handle)
    ensures LastRead(tl, m, h).exit.Some? <==>
      || h.exit.Some?
      || (&& h.supervisorPid != 0 && m.first == NotOurs
          && (if m.marker then m.finalOk && tl(m.finalAt).handle.exit.Some?
              else m.slept && (if m.readOk && tl(m.readAt).handle.exit.Some? then true
                               else m.second == NotOurs && m.finalOk && tl(m.finalAt).handle.exit.Some?)))
  {
  }

  predicate FirstRight(tl: Timeline, m: Meeting) {
    m.first.NotOurs? ==> tl(m.firstAt).supervisorEnded
  }

  predicate SecondRight(tl: Timeline, m: Meeting) {
    m.second.NotOurs? ==> tl(m.secondAt).supervisorEnded
  }

  /** Enough evidence: one right look, and a successful read after it. */
  predicate EvidenceAfterRightLook(tl: Timeline, m: Meeting) {
    || (FirstRight(tl, m) && (m.finalOk || (!m.marker && m.readOk)))
    || (SecondRight(tl, m) && !m.marker && m.finalOk)
  }

  /** No false loss: a run declared lost has no exit recorded, then or ever after, provided one
      of the looks that said `not ours` was right and a read after it succeeded. */
  lemma NoFalseLoss(tl: Timeline, m: Meeting, h: Handle, at: nat)
    requires Possible(tl) && h == tl(at).handle && InOrder(m, at)
    requires EvidenceAfterRightLook(tl, m)
    requires Lost(tl, m, h)
    ensures forall t: nat :: tl(t).handle.exit.None?
  {
    if m.finalOk {
      NoExitEver(tl, if FirstRight(tl, m) then m.firstAt else m.secondAt, m.finalAt);
    } else {
      NoExitEver(tl, m.firstAt, m.readAt);
    }
  }

  /** A look that cannot tell never gives a loss. */
  lemma UnknownIsNoLoss(tl: Timeline, m: Meeting, h: Handle)
    requires m.first != NotOurs || (!m.marker && m.second != NotOurs)
    ensures !Lost(tl, m, h)
  {
  }

  /** The evidence is needed: with every look right but no successful read after the first one,
      there is a timeline on which a run that recorded its exit is declared lost. */
  lemma LossNeedsARead(m: Meeting, h: Handle, exit: Exit) returns (tl: Timeline)
    requires h.exit.None? && h.supervisorPid != 0 && InOrder(m, 0) && 0 < m.firstAt
    requires m.first.NotOurs? && m.second.NotOurs? && m.slept
    requires !m.finalOk && (m.marker || !m.readOk)
    ensures Possible(tl) && tl(0).handle == h && FirstRight(tl, m) && SecondRight(tl, m)
    ensures Lost(tl, m, h) && tl(m.firstAt).handle.exit == Some(exit)
  {
    tl := (t: nat) => if t == 0 then Moment(h, false) else Moment(h.(exit := Some(exit)), true);
    forall i: nat ensures StepAt(tl, i) { }
  }

  // ---------------------------------------------------------------------------------------
  // The wait.

  /** One turn of the wait's loop. */
  datatype Turn = Turn(readOk: bool, readAt: nat, check: Meeting, deadline: bool, cancelled: bool)

  datatype Verdict =
    | RunCode(exit: Exit)
    | StillRunning                // 75
    | RunLost                     // 76
    | NoHandle                    // the handle could not be read
    | Waiting                     // the turns given ran out; the loop goes on

  predicate TurnsInOrder(turns: seq<Turn>) {
    && (forall i :: 0 <= i < |turns| ==> InOrder(turns[i].check, turns[i].readAt))
    && (forall i, j :: 0 <= i < j < |turns| ==> turns[i].check.finalAt <= turns[j].readAt)
  }

  ghost predicate GoodEvidence(tl: Timeline, turns: seq<Turn>) {
    forall i :: 0 <= i < |turns| ==> EvidenceAfterRightLook(tl, turns[i].check)
  }

  function ReadAt(tl: Timeline, turn: Turn): Handle { tl(turn.readAt).handle }

  /** The loss check found the exit recorded, so the loop goes straight back to its read. */
  predicate GoesBack(tl: Timeline, turn: Turn) {
    turn.readOk && ReadAt(tl, turn).exit.None? && LastRead(tl, turn.check, ReadAt(tl, turn)).exit.Some?
  }

  /** The wait from turn `i` on: its verdict, and how many turns were taken in all. */
  function WaitFrom(tl: Timeline, turns: seq<Turn>, i: nat): (Verdict, nat)
    requires i <= |turns|
    decreases |turns| - i
  {
    if i == |turns| then (Waiting, i)
    else
      var turn := turns[i];
      var h := ReadAt(tl, turn);
      if !turn.readOk then (NoHandle, i + 1)
      else if h.exit.Some? then (RunCode(h.exit.value), i + 1)
      else if GoesBack(tl, turn) then WaitFrom(tl, turns, i + 1)
      else if Lost(tl, turn.check, h) then (RunLost, i + 1)
      else if turn.deadline || turn.cancelled then (StillRunning, i + 1)
      else WaitFrom(tl, turns, i + 1)
  }

  method WaitDetached(tl: Timeline, turns: seq<Turn>) returns (v: Verdict, used: nat)
    ensures (v, used) == WaitFrom(tl, turns, 0)
  {
    used := 0;
    while used < |turns|
      invariant used <= |turns| && WaitFrom(tl, turns, 0) == WaitFrom(tl, turns, used)
      decreases |turns| - used
    {
      var turn := turns[used];
      used := used + 1;
      if !turn.readOk { return NoHandle, used; }
      var h := tl(turn.readAt).handle;
      if h.exit.Some? { return RunCode(h.exit.value), used; }
      var lost, cur := SupervisorLost(tl, turn.check, h);
      if cur.exit.Some? { continue; }
      if lost { return RunLost, used; }
      if turn.deadline || turn.cancelled { return StillRunning, used; }
    }
    v := Waiting;
  }

  /** What each verdict of a wait says about its last turn, on any timeline at all: a run's code is
      the one recorded at its read; 76 is a loss; 75 is a turn whose own read and
      whose loss check's last read had no exit, that found no loss and was the last one there was
      time for. */
  lemma {:induction false} VerdictIsRight(tl: Timeline, turns: seq<Turn>, i: nat)
    requires i <= |turns|
    ensures var (v, used) := WaitFrom(tl, turns, i);
      && i <= used <= |turns| && (v == Waiting ==> used == |turns|) && (v != Waiting ==> used > i)
      && (v != Waiting ==>
            var last := turns[used - 1];
            match v
            case RunCode(exit) => last.readOk && ReadAt(tl, last).exit == Some(exit)
            case RunLost => last.readOk && Lost(tl, last.check, ReadAt(tl, last))
            case StillRunning =>
              && last.readOk && ReadAt(tl, last).exit.None? && (last.deadline || last.cancelled)
              && LastRead(tl, last.check, ReadAt(tl, last)).exit.None? && !Lost(tl, last.check, ReadAt(tl, last))
            case NoHandle => !last.readOk
            case Waiting => true)
    decreases |turns| - i
  {
    if i < |turns| { VerdictIsRight(tl, turns, i + 1); }
  }

  /** A turn that ends the wait: its read fails, or finds an exit, or its loss check has read no
      exit and it has found a loss or come to its time. */
  predicate EndsAt(tl: Timeline, turn: Turn) {
    || !turn.readOk
    || tl(turn.readAt).handle.exit.Some?
    || (&& LastRead(tl, turn.check, tl(turn.readAt).handle).exit.None?
        && (Lost(tl, turn.check, tl(turn.readAt).handle) || turn.deadline || turn.cancelled))
  }

  /** The verdict of such a turn. */
  predicate VerdictAt(tl: Timeline, turn: Turn, v: Verdict) {
    var h := tl(turn.readAt).handle;
    && (v == NoHandle <==> !turn.readOk)
    && (v.RunCode? <==> turn.readOk && h.exit.Some?)
    && (v.RunCode? ==> Some(v.exit) == h.exit)
    && (v == RunLost <==> turn.readOk && h.exit.None? && Lost(tl, turn.check, h))
    && (v == StillRunning <==> turn.readOk && h.exit.None? && !Lost(tl, turn.check, h))
  }

  /** The wait ends at the first turn that ends it, with that turn's verdict, and at no other. */
  lemma {:induction false} WaitEndsExactly(tl: Timeline, turns: seq<Turn>, i: nat, k: nat)
    requires i <= k <= |turns| && (forall j :: i <= j < k ==> !EndsAt(tl, turns[j]))
    ensures k == |turns| ==> WaitFrom(tl, turns, i) == (Waiting, |turns|)
    ensures k < |turns| && EndsAt(tl, turns[k]) ==>
      WaitFrom(tl, turns, i).1 == k + 1 && VerdictAt(tl, turns[k], WaitFrom(tl, turns, i).0)
    decreases k - i
  {
    if i < k { WaitEndsExactly(tl, turns, i + 1, k); }
  }

  /** And 76, with right looks and reads, is a run that never has an exit. */
  lemma LostIsForEver(tl: Timeline, turns: seq<Turn>)
    requires Possible(tl) && TurnsInOrder(turns) && GoodEvidence(tl, turns) && WaitFrom(tl, turns, 0).0.RunLost?
    ensures forall t: nat :: tl(t).handle.exit.None?
  {
    VerdictIsRight(tl, turns, 0);
    var last := turns[WaitFrom(tl, turns, 0).1 - 1];
    NoFalseLoss(tl, last.check, ReadAt(tl, last), last.readAt);
  }

  /** Going back to the read is followed by a return: the next turn that reads the handle reports
      the exit. */
  lemma ContinueReturns(tl: Timeline, turns: seq<Turn>, i: nat)
    requires Possible(tl) && TurnsInOrder(turns) && i + 1 < |turns| && GoesBack(tl, turns[i])
    ensures WaitFrom(tl, turns, i) == WaitFrom(tl, turns, i + 1) && WaitFrom(tl, turns, i + 1).1 == i + 2
    ensures if turns[i + 1].readOk then WaitFrom(tl, turns, i + 1).0.RunCode? else WaitFrom(tl, turns, i + 1).0.NoHandle?
  {
    var m, next := turns[i].check, turns[i + 1];
    if m.readOk { Later(tl, m.readAt, next.readAt); }
    Later(tl, m.finalAt, next.readAt);
    assert ReadAt(tl, next).exit.Some?;
  }

  /** `second` starts once `first` is over, and finds the handle. */
  predicate WaitsInTurn(first: seq<Turn>, second: seq<Turn>) {
    && TurnsInOrder(first) && TurnsInOrder(second) && second != [] && second[0].readOk
    && forall i :: 0 <= i < |first| ==> first[i].check.finalAt <= second[0].readAt
  }

  /** Verdicts are stable: once a wait reports a run's code every later one does, and after a loss
      none does. */
  lemma VerdictIsStable(tl: Timeline, first: seq<Turn>, second: seq<Turn>)
    requires Possible(tl) && WaitsInTurn(first, second)
    ensures var v, w := WaitFrom(tl, first, 0).0, WaitFrom(tl, second, 0).0;
      && (v.RunCode? ==> w == v)
      && (v.RunLost? && GoodEvidence(tl, first) ==> !w.RunCode?)
  {
    var (v, n) := WaitFrom(tl, first, 0);
    VerdictIsRight(tl, first, 0);
    VerdictIsRight(tl, second, 0);
    if v.RunCode? { Later(tl, first[n - 1].readAt, second[0].readAt); }
    if v.RunLost? && GoodEvidence(tl, first) { LostIsForEver(tl, first); }
  }

  /** Whatever two waits follow each other, a code the first reports the second does too. */
  ghost predicate Settled(tl: Timeline) {
    forall first, second :: WaitsInTurn(first, second) && WaitFrom(tl, first, 0).0.RunCode? ==>
      WaitFrom(tl, second, 0).0 == WaitFrom(tl, first, 0).0
  }

  function OneLook(t: nat): seq<Turn> {
    [Turn(true, t, Meeting(Ours, t, false, false, false, t, Ours, t, false, t), false, false)]
  }

  lemma OneLookReports(tl: Timeline, t: nat)
    ensures WaitFrom(tl, OneLook(t), 0).0 == if tl(t).handle.exit.Some? then RunCode(tl(t).handle.exit.value) else Waiting
  {
    assert WaitFrom(tl, OneLook(t), 1) == (Waiting, 1);
  }

  /** An exit that is gone at the next moment: a wait that looks just before reports the code, and
      one that looks just after does not. */
  lemma LostExitUnsettles(tl: Timeline, t: nat)
    requires tl(t).handle.exit.Some? && tl(t + 1).handle.exit.None?
    ensures !Settled(tl)
  {
    OneLookReports(tl, t);
    OneLookReports(tl, t + 1);
    assert WaitsInTurn(OneLook(t), OneLook(t + 1));
  }

  lemma StaleSaveErases(d: Desk, a: SplitAct)
    requires LawfulSplit(d, a) && a.OnDisk? && IsStaleSave(d.disk, a.event)
    ensures d.disk.handle.exit.Some? && DeskAfter(d, a).disk.handle.exit.None?
  {
  }

  /** Every stale save unsettles a verdict. */
  lemma StaleSaveUnsettles(start: Desk, acts: nat -> SplitAct, t: nat)
    requires LawfulSplitAt(start, acts, t) && StaleAt(start, acts, t)
    ensures !Settled(SplitTimeline(start, acts))
  {
    var d := DeskAt(start, acts, t);
    StaleSaveErases(d, acts(t));
    assert DeskAt(start, acts, t + 1) == DeskAfter(d, acts(t));
    var tl := SplitTimeline(start, acts);
    assert tl(t) == MomentOf(d);
    assert tl(t + 1) == MomentOf(DeskAfter(d, acts(t)));
    LostExitUnsettles(tl, t);
  }

  /** So with reads and saves apart, verdicts are stable for all waits exactly when no writer saves
      a copy it read before the exit was recorded. */
  lemma SettledExactly(start: Desk, acts: nat -> SplitAct)
    requires CopiesAgree(start) && AllLawful(start, acts)
    ensures Settled(SplitTimeline(start, acts)) <==> forall t: nat :: !StaleAt(start, acts, t)
  {
    var tl := SplitTimeline(start, acts);
    if t: nat :| StaleAt(start, acts, t) {
      assert LawfulSplitAt(start, acts, t);
      StaleSaveUnsettles(start, acts, t);
    } else {
      SplitUpdatesPossibleExactly(start, acts);
      forall first, second | WaitsInTurn(first, second) && WaitFrom(tl, first, 0).0.RunCode?
        ensures WaitFrom(tl, second, 0).0 == WaitFrom(tl, first, 0).0
      {
        VerdictIsStable(tl, first, second);
      }
    }
  }

  /** What that can come to: the launcher's earlier copy erases a recorded exit, and of two waits
      the first reports the run's code and the second, every look and read right,
      reports the run lost. */
  lemma ErasedExitIsForgotten(h: Handle, sup: nat, child: nat, exit: Exit)
    returns (acts: nat -> SplitAct, first: seq<Turn>, second: seq<Turn>)
    requires h.supervisorPid == 0 && h.exit.None? && sup != 0
    ensures AllLawful(Desk(Disk(h, map[]), false), acts)
    ensures var tl := SplitTimeline(Desk(Disk(h, map[]), false), acts);
      && WaitsInTurn(first, second) && GoodEvidence(tl, second)
      && WaitFrom(tl, first, 0).0 == RunCode(exit) && WaitFrom(tl, second, 0).0 == RunLost
  {
    var start := Desk(Disk(h, map[]), false);
    acts := (t: nat) =>
      if t == 0 then OnDisk(Read(Launcher))
      else if t == 1 then OnDisk(Read(Supervisor))
      else if t == 2 then OnDisk(Save(Supervisor, RecordExit(sup, child, exit)))
      else if t == 3 then SupervisorEnds
      else if t == 4 then OnDisk(Save(Launcher, RecordSupervisorPid(sup)))
      else Pause;
    var tl := SplitTimeline(start, acts);
    var d1 := DeskAt(start, acts, 1);
    var d2 := DeskAt(start, acts, 2);
    var d3 := DeskAt(start, acts, 3);
    var d4 := DeskAt(start, acts, 4);
    var d5 := DeskAt(start, acts, 5);
    assert d2.disk == Disk(h, map[Launcher := h, Supervisor := h]);
    assert d3.disk.handle.exit == Some(exit) && d4.supervisorEnded;
    assert d5.disk.handle == h.(supervisorPid := sup) && d5.supervisorEnded;
    forall t: nat ensures LawfulSplitAt(start, acts, t) { }
    var idle := Meeting(Ours, 3, false, false, false, 3, Ours, 3, false, 3);
    var look := Meeting(NotOurs, 5, false, true, true, 5, NotOurs, 5, true, 5);
    first := [Turn(true, 3, idle, false, false)];
    second := [Turn(true, 5, look, false, false)];
    assert tl(5) == MomentOf(d5);
    assert Lost(tl, look, tl(5).handle);
  }
}
