/** Commit attribution between runs that overlap in one checkout (commitshare.go). */
module CommitShare {

  import opened Options

  type Time = int                    // nanoseconds
  const SECOND: Time := 1_000_000_000

  /** git keeps whole seconds. */
  function Truncate(t: Time): (r: Time)
    ensures r % 1_000_000_000 == 0 && r <= t < r + 1_000_000_000
  {
    t - t % SECOND
  }

  datatype Commit = Commit(subject: string, at: Time)

  /** Another run's time in the checkout; no end while it runs. */
  datatype Window = Window(run: string, parent: string, start: Time, end: Option<Time>)

  predicate Holds(w: Window, t: Time, now: Time) {
    var end := if w.end.None? then now else w.end.value;
    Truncate(w.start) <= t <= end + SECOND
  }

  datatype Row = Row(run: string, parent: string, cwd: string, startedAt: Time)

  datatype TreeKind = Pipeline | Task | OtherTree

  datatype Manifest = Manifest(
    run: string, parent: string, status: string, startedAt: Option<Time>, endedAt: Option<Time>)

  /** A manifest.yaml found under a run tree; no content when it cannot be read. */
  datatype ManifestFile = ManifestFile(tree: TreeKind, dir: string, content: Option<Manifest>)

  /** What a run reads when it judges: the live rows, then the manifests. */
  datatype Records = Records(rows: seq<Row>, files: seq<ManifestFile>)

  /** The judging run. */
  datatype Judge = Judge(cwd: string, run: string, parent: string)

  predicate Mine(j: Judge, w: Window) {
    w.run == j.run || (j.parent != "" && w.run == j.parent) || w.parent == j.run
  }

  function RowWindow(row: Row): Window { Window(row.run, row.parent, row.startedAt, None) }

  function FinishedRunWindow(f: ManifestFile): Option<Window> {
    if f.content.None? then None
    else
      var m := f.content.value;
      if m.run == "" || m.startedAt.None? || m.endedAt.None? || m.status == "running" then None
      else Some(Window(m.run, m.parent, m.startedAt.value, m.endedAt))
  }

  predicate Counts(j: Judge, row: Row) {
    row.run != "" && row.cwd == j.cwd && !Mine(j, RowWindow(row))
  }

  predicate Considered(f: ManifestFile) { !f.tree.OtherTree? && f.dir != "latest" }

  predicate Finished(j: Judge, f: ManifestFile) {
    Considered(f) && FinishedRunWindow(f).Some? && !Mine(j, FinishedRunWindow(f).value)
  }

  /** A window taken from the records. */
  ghost predicate FromRecords(j: Judge, rec: Records, w: Window) {
    || (exists i :: 0 <= i < |rec.rows| && Counts(j, rec.rows[i]) && w == RowWindow(rec.rows[i]))
    || (exists i :: 0 <= i < |rec.files| && Finished(j, rec.files[i]) && w == FinishedRunWindow(rec.files[i]).value)
  }

  ghost predicate HasRun(out: seq<Window>, run: string) {
    exists k :: 0 <= k < |out| && out[k].run == run
  }

  /** The other runs, exactly: every window comes from the records and is no kin of the judging
      run; every live row is there; every finished run is there under its id, once. */
  ghost predicate OtherRuns(j: Judge, rec: Records, out: seq<Window>) {
    && (forall k :: 0 <= k < |out| ==> FromRecords(j, rec, out[k]))
    && (forall i :: 0 <= i < |rec.rows| && Counts(j, rec.rows[i]) ==> RowWindow(rec.rows[i]) in out)
    && (forall i :: 0 <= i < |rec.files| && Finished(j, rec.files[i]) ==>
          HasRun(out, FinishedRunWindow(rec.files[i]).value.run))
    && OnceEach(out)
  }

  /** A finished run is listed once, and not beside its own live row. */
  predicate OnceEach(out: seq<Window>) {
    forall a, b :: 0 <= a < b < |out| && out[b].end.Some? ==> out[a].run != out[b].run
  }

  method OtherRunWindows(j: Judge, rec: Records) returns (out: seq<Window>)
    ensures OtherRuns(j, rec, out)
  {
    out := [];
    var seen: set<string> := {};
    for i := 0 to |rec.rows|
      invariant forall k :: 0 <= k < |out| ==> FromRecords(j, rec, out[k])
      invariant forall k :: 0 <= k < i && Counts(j, rec.rows[k]) ==> RowWindow(rec.rows[k]) in out
      invariant forall run :: run in seen <==> HasRun(out, run)
      invariant OnceEach(out)
    {
      var row := rec.rows[i];
      var w := RowWindow(row);
      if row.run == "" || row.cwd != j.cwd || Mine(j, w) { continue; }
      out, seen := Append(j, rec, out, seen, w);
    }
    for i := 0 to |rec.files|
      invariant forall k :: 0 <= k < |out| ==> FromRecords(j, rec, out[k])
      invariant forall k :: 0 <= k < |rec.rows| && Counts(j, rec.rows[k]) ==> RowWindow(rec.rows[k]) in out
      invariant forall run :: run in seen <==> HasRun(out, run)
      invariant OnceEach(out)
      invariant forall k :: 0 <= k < i && Finished(j, rec.files[k]) ==>
                  HasRun(out, FinishedRunWindow(rec.files[k]).value.run)
    {
      var f := rec.files[i];
      if f.tree.OtherTree? || f.dir == "latest" { continue; }
      var w := FinishedRunWindow(f);
      if w.None? || w.value.run in seen || Mine(j, w.value) { continue; }
      out, seen := Append(j, rec, out, seen, w.value);
    }
  }

  method Append(j: Judge, rec: Records, out: seq<Window>, seen: set<string>, w: Window)
    returns (out': seq<Window>, seen': set<string>)
    requires forall k :: 0 <= k < |out| ==> FromRecords(j, rec, out[k])
    requires FromRecords(j, rec, w)
    requires forall run :: run in seen <==> HasRun(out, run)
    requires OnceEach(out) && (w.end.Some? ==> w.run !in seen)
    ensures OnceEach(out')
    ensures out' == out + [w] && seen' == seen + {w.run}
    ensures forall k :: 0 <= k < |out'| ==> FromRecords(j, rec, out'[k])
    ensures forall run :: HasRun(out, run) ==> HasRun(out', run)
    ensures forall run :: run in seen' <==> HasRun(out', run)
  {
    out', seen' := out + [w], seen + {w.run};
    assert out'[|out|] == w;
    forall run | HasRun(out, run) ensures HasRun(out', run) {
      var k :| 0 <= k < |out| && out[k].run == run;
      assert out'[k].run == run;
    }
  }

  // ---------------------------------------------------------------------------------------
  // The split.

  ghost predicate Shared(c: Commit, others: seq<Window>, now: Time) {
    exists k :: 0 <= k < |others| && Holds(others[k], c.at, now)
  }

  /** The commits are `claimed` and `shared` merged, each in its own order. */
  ghost predicate MergeOf(commits: seq<Commit>, others: seq<Window>, now: Time, claimed: seq<string>, shared: seq<string>) {
    if commits == [] then claimed == [] && shared == []
    else
      var rest, last := commits[..|commits| - 1], commits[|commits| - 1];
      if Shared(last, others, now) then
        shared != [] && shared[|shared| - 1] == last.subject
        && MergeOf(rest, others, now, claimed, shared[..|shared| - 1])
      else
        claimed != [] && claimed[|claimed| - 1] == last.subject
        && MergeOf(rest, others, now, claimed[..|claimed| - 1], shared)
  }

  /** Claimed and shared partition the commits in order: a commit is shared exactly when another
      run's window holds it.  A run that does not know its own id shares nothing. */
  method SplitSharedCommits(j: Judge, rec: Records, commits: seq<Commit>, now: Time)
    returns (claimed: seq<string>, shared: seq<string>)
    ensures j.run == "" || commits == [] ==> MergeOf(commits, [], now, claimed, shared)
    ensures j.run != "" && commits != [] ==>
      exists others :: OtherRuns(j, rec, others) && MergeOf(commits, others, now, claimed, shared)
  {
    claimed, shared := [], [];
    var windows: seq<Window> := [];
    if j.run != "" && commits != [] {
      windows := OtherRunWindows(j, rec);
    }
    for i := 0 to |commits|
      invariant MergeOf(commits[..i], windows, now, claimed, shared)
    {
      var c := commits[i];
      var isShared := false;
      for k := 0 to |windows|
        invariant !isShared
        invariant forall m :: 0 <= m < k ==> !Holds(windows[m], c.at, now)
      {
        if Holds(windows[k], c.at, now) {
          isShared := true;
          break;
        }
      }
      assert commits[..i + 1][..i] == commits[..i];
      if isShared {
        assert (shared + [c.subject])[..|shared|] == shared;
        shared := shared + [c.subject];
      } else {
        assert (claimed + [c.subject])[..|claimed|] == claimed;
        claimed := claimed + [c.subject];
      }
    }
    assert commits[..|commits|] == commits;
  }

  /** Nothing is lost or made up, and a subject is claimed only for a commit no window holds. */
  lemma {:induction false} SplitIsPartition(commits: seq<Commit>, others: seq<Window>, now: Time,
                                            claimed: seq<string>, shared: seq<string>)
    requires MergeOf(commits, others, now, claimed, shared)
    ensures |claimed| + |shared| == |commits|
    ensures forall s :: s in claimed ==> exists i :: 0 <= i < |commits| && commits[i].subject == s && !Shared(commits[i], others, now)
    ensures forall s :: s in shared ==> exists i :: 0 <= i < |commits| && commits[i].subject == s && Shared(commits[i], others, now)
    decreases |commits|
  {
    if commits != [] {
      var n := |commits| - 1;
      var rest, last := commits[..n], commits[n];
      if Shared(last, others, now) {
        SplitIsPartition(rest, others, now, claimed, shared[..|shared| - 1]);
        assert shared == shared[..|shared| - 1] + [last.subject];
      } else {
        SplitIsPartition(rest, others, now, claimed[..|claimed| - 1], shared);
        assert claimed == claimed[..|claimed| - 1] + [last.subject];
      }
      forall i | 0 <= i < |rest| ensures commits[i] == rest[i] { }
    }
  }

  // ---------------------------------------------------------------------------------------
  // Two runs that overlap.

  /** A run's life: it goes from `from` until `until`; its live row is there from `from` until
      `rowGone`; a pipeline or task run's manifest is final from `finalAt`. */
  datatype Life = Life(
    run: string, parent: string, cwd: string, keepsManifest: bool,
    from: Time, until: Time, rowStart: Time, rowGone: Time,
    manifestStart: Time, manifestEnd: Time, finalAt: Time)

  predicate Going(l: Life, t: Time) { l.from <= t <= l.until }

  /** The recorded bounds cover the run, its end to the second, and its manifest is final before
      its row goes. */
  predicate WellRecorded(l: Life) {
    && l.run != "" && l.from <= l.until <= l.rowGone
    && l.rowStart <= l.from && l.manifestStart <= l.from && l.until <= l.manifestEnd + SECOND
    && l.finalAt <= l.rowGone
  }

  predicate Unrelated(a: Life, b: Life) {
    && a.run != b.run
    && a.parent != b.run && b.parent != a.run
  }

  function JudgeOf(l: Life): Judge { Judge(l.cwd, l.run, l.parent) }

  /** The records as read at `rowsAt` and then `filesAt` show run `l` as it was recorded. */
  ghost predicate Shows(rec: Records, l: Life, rowsAt: Time, filesAt: Time) {
    && rowsAt <= filesAt
    && (l.from <= rowsAt < l.rowGone ==> Row(l.run, l.parent, l.cwd, l.rowStart) in rec.rows)
    && (l.keepsManifest && l.finalAt <= filesAt ==>
          exists i :: 0 <= i < |rec.files| && rec.files[i].tree in {Pipeline, Task} && rec.files[i].dir != "latest"
            && FinishedRunWindow(rec.files[i]) == Some(Window(l.run, l.parent, l.manifestStart, Some(l.manifestEnd))))
    // a run id names one run
    && (forall i :: 0 <= i < |rec.rows| && rec.rows[i].run == l.run ==> rec.rows[i].startedAt == l.rowStart)
    && (forall i :: 0 <= i < |rec.files| ==>
          var w := FinishedRunWindow(rec.files[i]);
          w.Some? && w.value.run == l.run ==> w.value == Window(l.run, l.parent, l.manifestStart, Some(l.manifestEnd)))
  }

  lemma TruncateMonotone(a: Time, b: Time)
    requires a <= b
    ensures Truncate(a) <= Truncate(b) <= b
  {
  }

  /** A window holds a commit made at `made`, whose time git cut to the second, from the second
      the run started to the second after it ended: every one made from its start until a second
      after its end, and none made a second before or two seconds after. */
  lemma WindowHolds(w: Window, made: Time, now: Time)
    ensures var end := if w.end.None? then now else w.end.value;
      && (Holds(w, Truncate(made), now) <==> Truncate(w.start) <= made && Truncate(made) <= end + SECOND)
      && (w.start <= made <= end + SECOND ==> Holds(w, Truncate(made), now))
      && (Holds(w, Truncate(made), now) ==> w.start - SECOND < made < end + 2 * SECOND)
  {
    if Truncate(w.start) <= made { TruncateMonotone(Truncate(w.start), made); }
    if w.start <= made { TruncateMonotone(w.start, made); }
  }

  /** A run never claims a commit made while an unrelated run was going, whichever of the two
      ends first, unless that other run left nothing to see: it keeps no manifest and was gone
      when the registry was read. */
  lemma OverlapIsShared(a: Life, b: Life, rec: Records, others: seq<Window>, c: Commit, made: Time, rowsAt: Time, filesAt: Time, now: Time)
    requires c.at == Truncate(made)
    requires WellRecorded(a) && WellRecorded(b) && Unrelated(a, b) && a.cwd == b.cwd
    requires Going(b, made) && made <= rowsAt && made <= now
    requires Shows(rec, b, rowsAt, filesAt) && OtherRuns(JudgeOf(a), rec, others)
    requires b.keepsManifest || rowsAt < b.rowGone
    ensures Shared(c, others, now)
  {
    TruncateMonotone(b.rowStart, made);
    TruncateMonotone(b.manifestStart, made);
    if rowsAt < b.rowGone {
      var row := Row(b.run, b.parent, b.cwd, b.rowStart);
      var i :| 0 <= i < |rec.rows| && rec.rows[i] == row;
      assert Counts(JudgeOf(a), rec.rows[i]);
      var k :| 0 <= k < |others| && others[k] == RowWindow(row);
      assert Holds(others[k], c.at, now);
    } else {
      var w := Window(b.run, b.parent, b.manifestStart, Some(b.manifestEnd));
      var i :| 0 <= i < |rec.files| && rec.files[i].tree in {Pipeline, Task} && rec.files[i].dir != "latest"
        && FinishedRunWindow(rec.files[i]) == Some(w);
      assert Finished(JudgeOf(a), rec.files[i]);
      var k :| 0 <= k < |others| && others[k].run == b.run;
      assert FromRecords(JudgeOf(a), rec, others[k]);
      assert Holds(others[k], c.at, now);
    }
  }

  /** Exactly then: of a run that keeps no manifest and is gone, the records may show nothing,
      and its commits are claimed. */
  lemma GoneWithoutManifestIsClaimed(a: Life, b: Life, c: Commit, rowsAt: Time, filesAt: Time, now: Time)
    requires !b.keepsManifest && b.rowGone <= rowsAt <= filesAt
    ensures Shows(Records([], []), b, rowsAt, filesAt) && OtherRuns(JudgeOf(a), Records([], []), [])
    ensures !Shared(c, [], now)
  {
  }

  /** What one run reads when it judges, and the windows it judges by. */
  datatype Judgement = Judgement(rec: Records, others: seq<Window>, rowsAt: Time, filesAt: Time, now: Time)

  ghost predicate Judges(j: Judgement, self: Life, other: Life, made: Time) {
    && made <= j.rowsAt && made <= j.now
    && Shows(j.rec, other, j.rowsAt, j.filesAt)
    && OtherRuns(JudgeOf(self), j.rec, j.others)
  }

  /** The run leaves the judge something to see: a manifest, or a row still there when the
      registry is read. */
  predicate CanBeSeen(l: Life, j: Judgement) {
    l.keepsManifest || j.rowsAt < l.rowGone
  }

  /** So a commit made while either of two unrelated runs was going is never claimed by both, when
      a run that was going can be seen by the other. */
  lemma NeverClaimedByBoth(a: Life, b: Life, ja: Judgement, jb: Judgement, c: Commit, made: Time)
    requires c.at == Truncate(made)
    requires WellRecorded(a) && WellRecorded(b) && Unrelated(a, b) && a.cwd == b.cwd
    requires (Going(a, made) && CanBeSeen(a, jb)) || (Going(b, made) && CanBeSeen(b, ja))
    requires Judges(ja, a, b, made) && Judges(jb, b, a, made)
    ensures Shared(c, ja.others, ja.now) || Shared(c, jb.others, jb.now)
  {
    if Going(b, made) && CanBeSeen(b, ja) {
      OverlapIsShared(a, b, ja.rec, ja.others, c, made, ja.rowsAt, ja.filesAt, ja.now);
    } else {
      OverlapIsShared(b, a, jb.rec, jb.others, c, made, jb.rowsAt, jb.filesAt, jb.now);
    }
  }

  /** The judging run itself, its parent, or one of its children. */
  predicate IsKin(j: Judge, run: string, parent: string) {
    run == j.run || (j.parent != "" && run == j.parent) || parent == j.run
  }

  /** None of those is among the others. */
  lemma KinAreNotOthers(j: Judge, rec: Records, others: seq<Window>)
    requires OtherRuns(j, rec, others)
    ensures forall k :: 0 <= k < |others| ==> !IsKin(j, others[k].run, others[k].parent)
  {
    forall k | 0 <= k < |others| ensures !IsKin(j, others[k].run, others[k].parent) {
      assert FromRecords(j, rec, others[k]);
    }
  }

  /** The record is of a run going in the judge's checkout when the commit was made. */
  predicate RowCovers(j: Judge, row: Row, t: Time, now: Time) {
    row.run != "" && row.cwd == j.cwd && Truncate(row.startedAt) <= t <= now + SECOND
  }

  predicate ManifestCovers(f: ManifestFile, t: Time) {
    && f.content.Some? && f.tree in {Pipeline, Task} && f.dir != "latest"
    && var m := f.content.value;
       && m.run != "" && m.status != "running" && m.startedAt.Some? && m.endedAt.Some?
       && Truncate(m.startedAt.value) <= t <= m.endedAt.value + SECOND
  }

  /** So a commit is claimed when every run on record as going then is kin. */
  lemma OnlyKinIsClaimed(j: Judge, rec: Records, others: seq<Window>, c: Commit, now: Time)
    requires OtherRuns(j, rec, others)
    requires forall i :: 0 <= i < |rec.rows| && RowCovers(j, rec.rows[i], c.at, now) ==> IsKin(j, rec.rows[i].run, rec.rows[i].parent)
    requires forall i :: 0 <= i < |rec.files| && ManifestCovers(rec.files[i], c.at) ==>
      IsKin(j, rec.files[i].content.value.run, rec.files[i].content.value.parent)
    ensures !Shared(c, others, now)
  {
    KinAreNotOthers(j, rec, others);
    forall k | 0 <= k < |others| ensures !Holds(others[k], c.at, now) {
      assert FromRecords(j, rec, others[k]);
    }
  }

  /** A live row that covers the commit and is not kin makes it shared. */
  lemma StrangersRowIsShared(j: Judge, rec: Records, others: seq<Window>, c: Commit, now: Time, i: nat)
    requires OtherRuns(j, rec, others) && i < |rec.rows|
    requires RowCovers(j, rec.rows[i], c.at, now) && !IsKin(j, rec.rows[i].run, rec.rows[i].parent)
    ensures Shared(c, others, now)
  {
    var w := RowWindow(rec.rows[i]);
    assert Counts(j, rec.rows[i]);
    var k :| 0 <= k < |others| && others[k] == w;
    assert Holds(others[k], c.at, now);
  }

  /** A finished run's manifest that covers the commit, not kin, is among the others. */
  lemma StrangersManifestIsListed(j: Judge, rec: Records, others: seq<Window>, t: Time, i: nat)
    requires OtherRuns(j, rec, others) && i < |rec.files| && ManifestCovers(rec.files[i], t)
    requires var m := rec.files[i].content.value; !IsKin(j, m.run, m.parent)
    ensures HasRun(others, rec.files[i].content.value.run)
  {
    assert Finished(j, rec.files[i]);
  }
}
