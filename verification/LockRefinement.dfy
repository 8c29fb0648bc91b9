/** The operations on lock files (LockDirectory) are runs of the atomic steps over which mutual
    exclusion is proved (SessionLocks). */
module LockRefinement {
  import opened Options
  import LD = LockDirectory
  import SL = SessionLocks

  /** The identity of the process a lock records. */
  type Identity = (LD.Pid, Option<LD.Time>) -> SL.Proc

  function Abstract(f: LD.File, id: Identity): SL.LockFile {
    match f
    case Damaged => SL.Damaged
    case Parsed(lock) => SL.Held(lock.token, id(lock.pid, lock.pidStart))
  }

  function AbstractAt(files: map<LD.Path, LD.File>, p: LD.Path, id: Identity): SL.LockFile {
    if p in files then Abstract(files[p], id) else SL.Absent
  }

  /** The world's lock files are these. */
  ghost predicate Agrees(w: SL.World, files: map<LD.Path, LD.File>, id: Identity) {
    forall p :: SL.At(w, p) == AbstractAt(files, p, id)
  }

  /** The probe never calls a live process gone. */
  ghost predicate ProbeIsRight(w: SL.World, procs: LD.ProcTable, id: Identity) {
    forall pid, start :: id(pid, start) in w.live ==> LD.SameProcess(procs, pid, start)
  }

  /** What an acquire does: a link; when that is refused, a judgement of what is there; and when
      that cleared it, a link again. */
  function AcquireSteps(files: map<LD.Path, LD.File>, procs: LD.ProcTable, path: LD.Path, rec: LD.Lock, id: Identity): seq<SL.Step> {
    var me := id(rec.pid, rec.pidStart);
    var link := SL.Link(path, rec.token, me);
    if path !in files then [link]
    else
      var held := files[path].Parsed? && LD.IsHeld(procs, files[path].lock);
      var judge := SL.Judge(path, rec.token, me, held);
      if LD.Names(files, path, rec.token) || held then [link, judge] else [link, judge, link]
  }

  lemma RunOne(w: SL.World, a: SL.Step)
    ensures SL.Run(w, [a]) == SL.Apply(w, a)
    ensures SL.IsRun(w, [a]) <==> SL.Enabled(w, a)
  {
    assert [a][1..] == [];
  }

  lemma RunTwo(w: SL.World, a: SL.Step, b: SL.Step)
    ensures SL.Run(w, [a, b]) == SL.Apply(SL.Apply(w, a), b)
    ensures SL.IsRun(w, [a, b]) <==> SL.Enabled(w, a) && SL.Enabled(SL.Apply(w, a), b)
  {
    assert [a, b][1..] == [b];
    RunOne(SL.Apply(w, a), b);
  }

  lemma RunThree(w: SL.World, a: SL.Step, b: SL.Step, c: SL.Step)
    ensures SL.Run(w, [a, b, c]) == SL.Apply(SL.Apply(SL.Apply(w, a), b), c)
    ensures SL.IsRun(w, [a, b, c]) <==>
      SL.Enabled(w, a) && SL.Enabled(SL.Apply(w, a), b) && SL.Enabled(SL.Apply(SL.Apply(w, a), b), c)
  {
    assert [a, b, c][1..] == [b, c];
    RunTwo(SL.Apply(w, a), b, c);
  }

  /** Acquiring a lock is a run of the protocol: it leaves the files `AcquireSessionLock` leaves,
      in as many links as that takes tries, and the token is granted exactly when the call says
      so. */
  lemma AcquireRefines(w: SL.World, files: map<LD.Path, LD.File>, procs: LD.ProcTable, path: LD.Path, rec: LD.Lock, id: Identity)
    requires Agrees(w, files, id) && ProbeIsRight(w, procs, id) && id(rec.pid, rec.pidStart) in w.live
    ensures var steps := AcquireSteps(files, procs, path, rec, id); var end := SL.Run(w, steps);
      && SL.IsRun(w, steps)
      && Agrees(end, if LD.Takeable(files, procs, path, rec.token) then files[path := LD.Parsed(rec)] else files, id)
      && (LD.Takeable(files, procs, path, rec.token) ==> SL.LiveHolder(end, path, rec.token))
      && (!LD.Takeable(files, procs, path, rec.token) ==> end == w)
  {
    var steps := AcquireSteps(files, procs, path, rec, id);
    var w1 := SL.Apply(w, steps[0]);
    assert SL.At(w, path) == AbstractAt(files, path, id);
    if path !in files {
      RunOne(w, steps[0]);
    } else if |steps| == 2 {
      RunTwo(w, steps[0], steps[1]);
    } else {
      RunThree(w, steps[0], steps[1], steps[2]);
    }
    var end := SL.Run(w, steps);
    assert forall p :: p != path ==> SL.At(end, p) == SL.At(w, p);
  }

  /** Releasing and retargeting are single steps; a retarget records a process that was started. */
  lemma ReleaseRefines(w: SL.World, files: map<LD.Path, LD.File>, path: LD.Path, token: string, id: Identity)
    requires Agrees(w, files, id)
    ensures SL.Enabled(w, SL.Release(path, token))
    ensures Agrees(SL.Apply(w, SL.Release(path, token)),
                   if LD.Names(files, path, token) then files - {path} else files, id)
  {
    var end := SL.Apply(w, SL.Release(path, token));
    assert SL.At(w, path) == AbstractAt(files, path, id);
    forall p ensures SL.At(end, p) == AbstractAt(if LD.Names(files, path, token) then files - {path} else files, p, id) {
      assert SL.At(w, p) == AbstractAt(files, p, id);
    }
  }

  lemma RetargetRefines(w: SL.World, files: map<LD.Path, LD.File>, path: LD.Path, token: string, pid: LD.Pid, start: Option<LD.Time>, id: Identity)
    requires Agrees(w, files, id) && id(pid, start) in w.born
    ensures SL.Enabled(w, SL.Retarget(path, token, id(pid, start)))
    ensures Agrees(SL.Apply(w, SL.Retarget(path, token, id(pid, start))),
                   if LD.Names(files, path, token)
                   then files[path := LD.Parsed(files[path].lock.(pid := pid, pidStart := start))] else files, id)
  {
    var end := SL.Apply(w, SL.Retarget(path, token, id(pid, start)));
    assert SL.At(w, path) == AbstractAt(files, path, id);
    assert forall p :: p != path ==> SL.At(end, p) == SL.At(w, p);
  }
}
