/** A detached run's handle: one JSON file that three processes read, change and write back
    (detach.go). */
module HandleFile {

  import opened Options

  datatype Exit = Exit(code: int, endedAt: int, error: string)

  datatype Handle = Handle(
    id: string,
    supervisorPid: nat,           // 0: not recorded
    childPid: nat,
    exit: Option<Exit>,
    runDir: string,
    stopReason: string,
    heldUntil: Option<int>)

  datatype Writer = Launcher | Supervisor | Run

  /** The writes of the three processes. */
  datatype Update =
    | RecordSupervisorPid(pid: nat)
    | RecordChildPid(supervisor: nat, child: nat)
    | RecordStop
    | RecordExit(supervisor: nat, child: nat, exit: Exit)
    | NoteRun(id: string, dir: string)
    | NoteHold(id: string, until: Option<int>)

  const PARENT_GONE := "parent_gone"

  function Change(u: Update, h: Handle): Handle {
    match u
    case RecordSupervisorPid(pid) => if h.supervisorPid == 0 then h.(supervisorPid := pid) else h
    case RecordChildPid(sup, child) => h.(supervisorPid := sup, childPid := child)
    case RecordStop => h.(stopReason := PARENT_GONE)
    case RecordExit(sup, child, exit) =>
      h.(supervisorPid := sup, childPid := if child != 0 then child else h.childPid, exit := Some(exit))
    case NoteRun(id, dir) => if h.id == id then h.(runDir := dir) else h
    case NoteHold(id, until) => if h.id == id then h.(heldUntil := until) else h
  }

  class HandleStore {
    var stored: Option<Handle>   // None: missing or unreadable

    method ReadHandle() returns (h: Option<Handle>)
      ensures h == stored
    {
      h := stored;
    }

    method WriteHandle(h: Handle)
      modifies this
      ensures stored == Some(h)
    {
      stored := Some(h);
    }

    /** The change is applied to the handle as stored now; a missing one is not made up. */
    method UpdateHandle(u: Update) returns (ok: bool)
      modifies this
      ensures ok == old(stored).Some?
      ensures stored == if ok then Some(Change(u, old(stored).value)) else old(stored)
    {
      var h := ReadHandle();
      if h.None? { return false; }
      WriteHandle(Change(u, h.value));
      ok := true;
    }
  }

  // ---------------------------------------------------------------------------------------
  // Whole updates.

  datatype Write = Write(who: Writer, update: Update)

  /** Each process writes its own kind of update, and all agree who the supervisor is. */
  predicate Allowed(w: Write, sup: nat) {
    match w.update
    case RecordSupervisorPid(pid) => w.who.Launcher? && pid == sup
    case RecordChildPid(s, _) => w.who.Supervisor? && s == sup
    case RecordStop => w.who.Supervisor?
    case RecordExit(s, _, _) => w.who.Supervisor? && s == sup
    case NoteRun(_, _) => w.who.Run?
    case NoteHold(_, _) => w.who.Run?
  }

  predicate AllAllowed(ws: seq<Write>, sup: nat) {
    forall i :: 0 <= i < |ws| ==> Allowed(ws[i], sup)
  }

  function ApplyAll(ws: seq<Write>, h: Handle): Handle {
    if ws == [] then h else Change(ws[|ws| - 1].update, ApplyAll(ws[..|ws| - 1], h))
  }

  function AddIf(ws: seq<Write>, w: Write, who: Writer): seq<Write> {
    if w.who == who then ws + [w] else ws
  }

  /** One process's writes, in its own order. */
  function By(ws: seq<Write>, who: Writer): (r: seq<Write>)
    ensures forall i :: 0 <= i < |r| ==> r[i].who == who
  {
    if ws == [] then [] else AddIf(By(ws[..|ws| - 1], who), ws[|ws| - 1], who)
  }

  lemma {:induction false} ByAllowed(ws: seq<Write>, who: Writer, sup: nat)
    requires AllAllowed(ws, sup)
    ensures AllAllowed(By(ws, who), sup)
  {
    if ws != [] {
      ByAllowed(ws[..|ws| - 1], who, sup);
      assert Allowed(ws[|ws| - 1], sup);
    }
  }

  lemma WritersCommute(a: Write, b: Write, sup: nat, h: Handle)
    requires sup != 0 && Allowed(a, sup) && Allowed(b, sup) && a.who != b.who
    ensures Change(a.update, Change(b.update, h)) == Change(b.update, Change(a.update, h))
  {
  }

  /** A write moves before any writes of other processes. */
  lemma {:induction false} MovePast(ws: seq<Write>, w: Write, sup: nat, h: Handle)
    requires sup != 0 && AllAllowed(ws, sup) && Allowed(w, sup)
    requires forall i :: 0 <= i < |ws| ==> ws[i].who != w.who
    ensures Change(w.update, ApplyAll(ws, h)) == ApplyAll(ws, Change(w.update, h))
  {
    if ws != [] {
      var last := ws[|ws| - 1];
      WritersCommute(w, last, sup, ApplyAll(ws[..|ws| - 1], h));
      MovePast(ws[..|ws| - 1], w, sup, h);
    }
  }

  lemma ApplySnoc(ws: seq<Write>, w: Write, h: Handle)
    ensures ApplyAll(ws + [w], h) == Change(w.update, ApplyAll(ws, h))
  {
    assert (ws + [w])[..|ws|] == ws;
  }

  /** A new last write joins its own process's group; `later` are the groups after it. */
  lemma JoinGroup(group: seq<Write>, later: seq<Write>, w: Write, sup: nat, h: Handle)
    requires sup != 0 && AllAllowed(later, sup) && Allowed(w, sup)
    requires forall i :: 0 <= i < |later| ==> later[i].who != w.who
    ensures Change(w.update, ApplyAll(later, ApplyAll(group, h))) == ApplyAll(later, ApplyAll(group + [w], h))
  {
    MovePast(later, w, sup, ApplyAll(group, h));
    ApplySnoc(group, w, h);
  }

  /** Any interleaving equals the launcher's writes, then the supervisor's, then the run's. */
  lemma {:induction false} Serialize(ws: seq<Write>, sup: nat, h: Handle)
    requires sup != 0 && AllAllowed(ws, sup)
    ensures ApplyAll(ws, h)
         == ApplyAll(By(ws, Run), ApplyAll(By(ws, Supervisor), ApplyAll(By(ws, Launcher), h)))
  {
    if ws != [] {
      var rest, w := ws[..|ws| - 1], ws[|ws| - 1];
      Serialize(rest, sup, h);
      ByAllowed(rest, Supervisor, sup);
      ByAllowed(rest, Run, sup);
      AddLast(By(rest, Launcher), By(rest, Supervisor), By(rest, Run), w, sup, h);
    }
  }

  lemma AddLast(l: seq<Write>, s: seq<Write>, r: seq<Write>, w: Write, sup: nat, h: Handle)
    requires sup != 0 && AllAllowed(s, sup) && AllAllowed(r, sup) && Allowed(w, sup)
    requires forall i :: 0 <= i < |s| ==> s[i].who.Supervisor?
    requires forall i :: 0 <= i < |r| ==> r[i].who.Run?
    ensures Change(w.update, ApplyAll(r, ApplyAll(s, ApplyAll(l, h))))
         == ApplyAll(AddIf(r, w, Run), ApplyAll(AddIf(s, w, Supervisor), ApplyAll(AddIf(l, w, Launcher), h)))
  {
    var hl := ApplyAll(l, h);
    match w.who
    case Run => ApplySnoc(r, w, ApplyAll(s, hl));
    case Supervisor => JoinGroup(s, r, w, sup, hl);
    case Launcher =>
      MovePast(r, w, sup, ApplyAll(s, hl));
      JoinGroup(l, s, w, sup, h);
  }

  /** Convergence: however the three processes' updates interleave, the handle ends the same. */
  lemma HandleConverges(a: seq<Write>, b: seq<Write>, sup: nat, h: Handle)
    requires sup != 0 && AllAllowed(a, sup) && AllAllowed(b, sup)
    requires forall who :: By(a, who) == By(b, who)
    ensures ApplyAll(a, h) == ApplyAll(b, h)
  {
    Serialize(a, sup, h);
    Serialize(b, sup, h);
  }

  /** Whole updates never take a recorded pid or exit back. */
  lemma {:induction false} NothingIsUnset(ws: seq<Write>, sup: nat, h: Handle)
    requires sup != 0 && AllAllowed(ws, sup)
    ensures h.supervisorPid != 0 ==> ApplyAll(ws, h).supervisorPid != 0
    ensures h.exit.Some? ==> ApplyAll(ws, h).exit.Some?
    ensures (exists i :: 0 <= i < |ws| && ws[i].update.RecordExit?) ==>
              ApplyAll(ws, h).exit.Some? && ApplyAll(ws, h).supervisorPid != 0
    ensures (exists i :: 0 <= i < |ws| && ws[i].update.RecordSupervisorPid?) ==>
              ApplyAll(ws, h).supervisorPid != 0
  {
    if ws != [] {
      NothingIsUnset(ws[..|ws| - 1], sup, h);
      var i := |ws| - 1;
      assert forall k :: 0 <= k < i ==> ws[k] == ws[..i][k];
    }
  }

  // What a handle says after any history: in each field the last value a write recorded there.

  /** The value a write records as the child's pid; 0 is none. */
  function ChildIn(u: Update): Option<nat> {
    match u
    case RecordChildPid(_, child) => Some(child)
    case RecordExit(_, child, _) => if child == 0 then None else Some(child)
    case _ => None
  }

  function ExitIn(u: Update): Option<Exit> {
    if u.RecordExit? then Some(u.exit) else None
  }

  /** A note counts only under the handle's own id. */
  function RunDirIn(u: Update, id: string): Option<string> {
    if u.NoteRun? && u.id == id then Some(u.dir) else None
  }

  function HoldIn(u: Update, id: string): Option<Option<int>> {
    if u.NoteHold? && u.id == id then Some(u.until) else None
  }

  function StopIn(u: Update): Option<string> {
    if u.RecordStop? then Some(PARENT_GONE) else None
  }

  /** The supervisor's own writes name it whatever was there; the launcher's only when nothing is. */
  function SupervisorIn(u: Update, was: nat): nat {
    match u
    case RecordSupervisorPid(pid) => if was == 0 then pid else was
    case RecordChildPid(sup, _) => sup
    case RecordExit(sup, _, _) => sup
    case _ => was
  }

  function Or<T>(new': Option<T>, old': T): T { if new'.Some? then new'.value else old' }

  /** Each update changes its own fields and no others. */
  lemma ChangeExactly(u: Update, h: Handle)
    ensures var g := Change(u, h);
      && g.id == h.id
      && g.supervisorPid == SupervisorIn(u, h.supervisorPid)
      && g.childPid == Or(ChildIn(u), h.childPid)
      && g.exit == (if ExitIn(u).Some? then ExitIn(u) else h.exit)
      && g.runDir == Or(RunDirIn(u, h.id), h.runDir)
      && g.heldUntil == Or(HoldIn(u, h.id), h.heldUntil)
      && g.stopReason == Or(StopIn(u), h.stopReason)
  {
  }

  /** Write `i` is the last of `ws` to record something, as `records` says. */
  ghost predicate LastToRecord<T>(ws: seq<Write>, records: Update -> Option<T>, i: nat) {
    i < |ws| && records(ws[i].update).Some? && forall j :: i < j < |ws| ==> records(ws[j].update).None?
  }

  ghost predicate NoneRecords<T>(ws: seq<Write>, records: Update -> Option<T>) {
    forall j :: 0 <= j < |ws| ==> records(ws[j].update).None?
  }

  /** `now` is the value the last write recorded, or `was` if none did. */
  ghost predicate IsLast<T(!new)>(ws: seq<Write>, records: Update -> Option<T>, was: T, now: T) {
    && (forall i: nat :: LastToRecord(ws, records, i) ==> records(ws[i].update) == Some(now))
    && (NoneRecords(ws, records) ==> now == was)
  }

  lemma IsLastSnoc<T(!new)>(ws: seq<Write>, w: Write, records: Update -> Option<T>, was: T, now: T)
    requires IsLast(ws, records, was, now)
    ensures IsLast(ws + [w], records, was, Or(records(w.update), now))
  {
    var all := ws + [w];
    var next := Or(records(w.update), now);
    forall i: nat | LastToRecord(all, records, i) ensures records(all[i].update) == Some(next) {
      if i < |ws| {
        assert records(all[|ws|].update).None?;
        forall j | i < j < |ws| ensures records(ws[j].update).None? { assert all[j] == ws[j]; }
        assert LastToRecord(ws, records, i);
      }
    }
    if NoneRecords(all, records) {
      forall j | 0 <= j < |ws| ensures records(ws[j].update).None? { assert all[j] == ws[j]; }
      assert records(all[|ws|].update).None?;
    }
  }

  function RunDirs(id: string): Update -> Option<string> { u => RunDirIn(u, id) }

  function Holds(id: string): Update -> Option<Option<int>> { u => HoldIn(u, id) }

  function Exits(): Update -> Option<Option<Exit>> { u => if ExitIn(u).Some? then Some(ExitIn(u)) else None }

  lemma {:induction false} IdStays(ws: seq<Write>, h: Handle)
    ensures ApplyAll(ws, h).id == h.id
  {
    if ws != [] {
      IdStays(ws[..|ws| - 1], h);
      ChangeExactly(ws[|ws| - 1].update, ApplyAll(ws[..|ws| - 1], h));
    }
  }

  function LastOf<T>(ws: seq<Write>, records: Update -> Option<T>, was: T): T {
    if ws == [] then was else Or(records(ws[|ws| - 1].update), LastOf(ws[..|ws| - 1], records, was))
  }

  lemma {:induction false} LastOfIsLast<T(!new)>(ws: seq<Write>, records: Update -> Option<T>, was: T)
    ensures IsLast(ws, records, was, LastOf(ws, records, was))
  {
    if ws != [] {
      var rest, w := ws[..|ws| - 1], ws[|ws| - 1];
      LastOfIsLast(rest, records, was);
      IsLastSnoc(rest, w, records, was, LastOf(rest, records, was));
      assert ws == rest + [w];
    }
  }

  lemma {:induction false} LastChild(ws: seq<Write>, h: Handle)
    ensures ApplyAll(ws, h).childPid == LastOf(ws, ChildIn, h.childPid)
  {
    if ws != [] {
      var rest := ws[..|ws| - 1];
      LastChild(rest, h);
      ChangeExactly(ws[|ws| - 1].update, ApplyAll(rest, h));
    }
  }

  lemma {:induction false} LastRunDir(ws: seq<Write>, h: Handle)
    ensures ApplyAll(ws, h).runDir == LastOf(ws, RunDirs(h.id), h.runDir)
  {
    if ws != [] {
      var rest := ws[..|ws| - 1];
      LastRunDir(rest, h);
      IdStays(rest, h);
      ChangeExactly(ws[|ws| - 1].update, ApplyAll(rest, h));
    }
  }

  lemma {:induction false} LastHold(ws: seq<Write>, h: Handle)
    ensures ApplyAll(ws, h).heldUntil == LastOf(ws, Holds(h.id), h.heldUntil)
  {
    if ws != [] {
      var rest := ws[..|ws| - 1];
      LastHold(rest, h);
      IdStays(rest, h);
      ChangeExactly(ws[|ws| - 1].update, ApplyAll(rest, h));
    }
  }

  lemma {:induction false} LastStop(ws: seq<Write>, h: Handle)
    ensures ApplyAll(ws, h).stopReason == LastOf(ws, StopIn, h.stopReason)
  {
    if ws != [] {
      var rest := ws[..|ws| - 1];
      LastStop(rest, h);
      ChangeExactly(ws[|ws| - 1].update, ApplyAll(rest, h));
    }
  }

  lemma {:induction false} LastExit(ws: seq<Write>, h: Handle)
    ensures ApplyAll(ws, h).exit == LastOf(ws, Exits(), h.exit)
  {
    if ws != [] {
      var rest := ws[..|ws| - 1];
      LastExit(rest, h);
      ChangeExactly(ws[|ws| - 1].update, ApplyAll(rest, h));
    }
  }

  /** Over every history of whole updates, by any processes in any order: the handle keeps its id,
      and has in each field the last value recorded there. */
  lemma HandleHasTheLastValues(ws: seq<Write>, h: Handle)
    ensures var g := ApplyAll(ws, h);
      && g.id == h.id
      && IsLast(ws, ChildIn, h.childPid, g.childPid)
      && IsLast(ws, RunDirs(h.id), h.runDir, g.runDir)
      && IsLast(ws, Holds(h.id), h.heldUntil, g.heldUntil)
      && IsLast(ws, StopIn, h.stopReason, g.stopReason)
      && IsLast(ws, Exits(), h.exit, g.exit)
  {
    IdStays(ws, h);
    LastChild(ws, h);
    LastOfIsLast(ws, ChildIn, h.childPid);
    LastRunDir(ws, h);
    LastOfIsLast(ws, RunDirs(h.id), h.runDir);
    LastHold(ws, h);
    LastOfIsLast(ws, Holds(h.id), h.heldUntil);
    LastStop(ws, h);
    LastOfIsLast(ws, StopIn, h.stopReason);
    LastExit(ws, h);
    LastOfIsLast(ws, Exits(), h.exit);
  }

  // ---------------------------------------------------------------------------------------
  // The read and the write apart.

  datatype Disk = Disk(handle: Handle, copies: map<Writer, Handle>)

  datatype Event = Read(who: Writer) | Save(who: Writer, update: Update)

  function Happen(d: Disk, e: Event): Disk {
    match e
    case Read(who) => d.(copies := d.copies[who := d.handle])
    case Save(who, u) => if who in d.copies then d.(handle := Change(u, d.copies[who])) else d
  }

  function HappenAll(d: Disk, es: seq<Event>): Disk
    decreases |es|
  {
    if es == [] then d else HappenAll(Happen(d, es[0]), es[1..])
  }

  predicate OnlyReadsOfOthers(es: seq<Event>, who: Writer) {
    forall i :: 0 <= i < |es| ==> es[i].Read? && es[i].who != who
  }

  lemma {:induction false} ReadsChangeNothing(d: Disk, es: seq<Event>, who: Writer)
    requires OnlyReadsOfOthers(es, who)
    ensures HappenAll(d, es).handle == d.handle
    ensures who in d.copies ==> who in HappenAll(d, es).copies && HappenAll(d, es).copies[who] == d.copies[who]
    decreases |es|
  {
    if es != [] {
      ReadsChangeNothing(Happen(d, es[0]), es[1..], who);
    }
  }

  lemma {:induction false} HappenConcat(d: Disk, a: seq<Event>, b: seq<Event>)
    ensures HappenAll(d, a + b) == HappenAll(HappenAll(d, a), b)
    decreases |a|
  {
    if a == [] {
      assert a + b == b;
    } else {
      assert (a + b)[1..] == a[1..] + b;
      HappenConcat(Happen(d, a[0]), a[1..], b);
    }
  }

  /** A recordExit that reads after every other process's last save leaves both pids and the
      exit set at the end, and loses nothing that was on disk when it read. */
  lemma ExitReadLast(d: Disk, before: seq<Event>, between: seq<Event>, after: seq<Event>,
                     sup: nat, child: nat, exit: Exit)
    requires sup != 0 && child != 0
    requires OnlyReadsOfOthers(between, Supervisor) && OnlyReadsOfOthers(after, Supervisor)
    ensures var record := RecordExit(sup, child, exit);
      var end := HappenAll(d, before + ([Read(Supervisor)] + (between + ([Save(Supervisor, record)] + after)))).handle;
      && end.supervisorPid == sup && end.childPid == child && end.exit == Some(exit)
      && end == Change(record, HappenAll(d, before).handle)
  {
    var record := RecordExit(sup, child, exit);
    var tail := [Save(Supervisor, record)] + after;
    var d1 := HappenAll(d, before);
    var d2 := Happen(d1, Read(Supervisor));
    HappenConcat(d, before, [Read(Supervisor)] + (between + tail));
    HappenConcat(d1, [Read(Supervisor)], between + tail);
    assert HappenAll(d1, [Read(Supervisor)]) == d2;
    HappenConcat(d2, between, tail);
    ReadsChangeNothing(d2, between, Supervisor);
    var d3 := HappenAll(d2, between);
    HappenConcat(d3, [Save(Supervisor, record)], after);
    assert HappenAll(d3, [Save(Supervisor, record)]) == Happen(d3, Save(Supervisor, record));
    ReadsChangeNothing(Happen(d3, Save(Supervisor, record)), after, Supervisor);
  }

  /** No writer saves a copy it read before the exit was there.  `stale` are the writers whose
      copies are from before. */
  predicate NoStaleSave(es: seq<Event>, stale: set<Writer>)
    decreases |es|
  {
    es == []
    || match es[0]
       case Read(who) => NoStaleSave(es[1..], stale - {who})
       case Save(who, u) => who !in stale && NoStaleSave(es[1..], stale)
  }

  /** One event of the kind that is ruled out: an exit is recorded, and the copy saved is from
      before. */
  predicate IsStaleSave(d: Disk, e: Event) {
    e.Save? && d.handle.exit.Some? && e.who in StaleWriters(d)
  }

  function StaleWriters(d: Disk): set<Writer> {
    set who | who in d.copies && d.copies[who].exit.None?
  }

  ghost predicate ExitAlwaysSet(d: Disk, es: seq<Event>)
    decreases |es|
  {
    d.handle.exit.Some? && (es == [] || ExitAlwaysSet(Happen(d, es[0]), es[1..]))
  }

  /** Exactly when a recorded exit survives the schedule that follows it: when no writer saves a
      copy it read before the exit was recorded. */
  lemma {:induction false} ExitSurvivesExactly(d: Disk, es: seq<Event>)
    requires d.handle.exit.Some?
    requires forall i :: 0 <= i < |es| && es[i].Save? ==> !es[i].update.RecordExit?
    ensures ExitAlwaysSet(d, es) <==> NoStaleSave(es, StaleWriters(d))
    decreases |es|
  {
    if es != [] {
      var d1 := Happen(d, es[0]);
      match es[0]
      case Read(who) =>
        assert StaleWriters(d1) == StaleWriters(d) - {who};
        ExitSurvivesExactly(d1, es[1..]);
      case Save(who, u) =>
        assert d1.copies == d.copies;
        if who in StaleWriters(d) {
          assert d1.handle.exit.None?;
        } else {
          ExitSurvivesExactly(d1, es[1..]);
        }
    }
  }

  // The same for the supervisor's pid.

  /** The update records a supervisor's pid itself. */
  predicate SetsPid(u: Update) {
    match u
    case RecordSupervisorPid(pid) => pid != 0
    case RecordChildPid(sup, _) => sup != 0
    case RecordExit(sup, _, _) => sup != 0
    case _ => false
  }

  /** An update takes no pid back by itself. */
  predicate NamesSupervisor(u: Update) {
    u.RecordChildPid? || u.RecordExit? ==> SetsPid(u)
  }

  /** No writer saves a copy it read before the pid was there, unless its update records the pid.
      `blind` are the writers whose copies are from before. */
  predicate NoBlindSave(es: seq<Event>, blind: set<Writer>)
    decreases |es|
  {
    es == []
    || match es[0]
       case Read(who) => NoBlindSave(es[1..], blind - {who})
       case Save(who, u) => (who in blind ==> SetsPid(u)) && NoBlindSave(es[1..], blind)
  }

  function BlindWriters(d: Disk): set<Writer> {
    set who | who in d.copies && d.copies[who].supervisorPid == 0
  }

  ghost predicate PidAlwaysSet(d: Disk, es: seq<Event>)
    decreases |es|
  {
    d.handle.supervisorPid != 0 && (es == [] || PidAlwaysSet(Happen(d, es[0]), es[1..]))
  }

  /** Exactly when a recorded supervisor pid never returns to 0. */
  lemma {:induction false} PidSurvivesExactly(d: Disk, es: seq<Event>)
    requires d.handle.supervisorPid != 0
    requires forall i :: 0 <= i < |es| && es[i].Save? ==> NamesSupervisor(es[i].update)
    ensures PidAlwaysSet(d, es) <==> NoBlindSave(es, BlindWriters(d))
    decreases |es|
  {
    if es != [] {
      var d1 := Happen(d, es[0]);
      match es[0]
      case Read(who) =>
        assert BlindWriters(d1) == BlindWriters(d) - {who};
        PidSurvivesExactly(d1, es[1..]);
      case Save(who, u) =>
        assert d1.copies == d.copies && NamesSupervisor(u);
        if who in BlindWriters(d) && !SetsPid(u) {
          assert d1.handle.supervisorPid == 0;
        } else {
          assert d1.handle.supervisorPid != 0;
          PidSurvivesExactly(d1, es[1..]);
        }
    }
  }

  /** The run notes its directory on a copy read before any pid was recorded: the pid is gone. */
  lemma RunNoteErasesPid(h: Handle, sup: nat, child: nat, dir: string)
    requires h.supervisorPid == 0 && sup != 0
    ensures var d1 := Happen(Disk(h, map[]), Read(Run));
      var d2 := Happen(Happen(d1, Read(Supervisor)), Save(Supervisor, RecordChildPid(sup, child)));
      var d3 := Happen(d2, Save(Run, NoteRun(h.id, dir)));
      d2.handle.supervisorPid == sup && d3.handle.supervisorPid == 0
  {
  }

  /** The schedule: the launcher reads the new handle, the supervisor records child and exit,
      and the launcher saves its earlier copy.  The exit and the child's pid are gone. */
  lemma EarlierCopyErasesExit(h: Handle, sup: nat, child: nat, exit: Exit)
    requires h.supervisorPid == 0 && h.childPid == 0 && h.exit.None? && sup != 0 && child != 0
    ensures var d0 := Disk(h, map[]);
      var d1 := Happen(d0, Read(Launcher));
      var d2 := Happen(Happen(d1, Read(Supervisor)), Save(Supervisor, RecordChildPid(sup, child)));
      var d3 := Happen(Happen(d2, Read(Supervisor)), Save(Supervisor, RecordExit(sup, child, exit)));
      var d4 := Happen(d3, Save(Launcher, RecordSupervisorPid(sup)));
      && d3.handle.exit == Some(exit) && d3.handle.childPid == child
      && d4.handle.exit.None? && d4.handle.childPid == 0 && d4.handle.supervisorPid == sup
  {
  }
}
