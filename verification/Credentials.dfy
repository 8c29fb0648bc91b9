/** Publishing the operator's credential to the sandbox daemon (sandbox_credentials.go): a hard
    link or a copy beside a marker that says which, over the inodes the two names stand for. */
module Credentials {

  import opened Options

  datatype Mode = Link | Copy

  /** A file's content, and whether the daemon's user is in its access list. */
  datatype Inode = Inode(content: string, granted: bool)

  /** The inodes, and what the source name, the published name and the marker hold.  Inodes from
      `next` on are unused. */
  datatype Host = Host(inodes: map<nat, Inode>, src: Option<nat>, dest: Option<nat>, marker: Option<Mode>, next: nat)
  {
    ghost predicate Valid() {
      && (forall i :: i in inodes ==> i < next)
      && (src.Some? ==> src.value in inodes)
      && (dest.Some? ==> dest.value in inodes)
    }

    /** Both names stand for one inode. */
    predicate SameFile() { src.Some? && dest == src }

    function SourceContent(): Option<string>
      requires Valid()
    {
      if src.Some? then Some(inodes[src.value].content) else None
    }

    predicate SourceGranted()
      requires Valid()
    {
      src.Some? && inodes[src.value].granted
    }

    predicate DestGranted()
      requires Valid()
    {
      dest.Some? && inodes[dest.value].granted
    }
  }

  function SetGrant(h: Host, i: nat, granted: bool): Host
    requires i in h.inodes
  {
    h.(inodes := h.inodes[i := h.inodes[i].(granted := granted)])
  }

  function Write(h: Host, i: nat, content: string): Host
    requires i in h.inodes
  {
    h.(inodes := h.inodes[i := h.inodes[i].(content := content)])
  }

  /** A new file with no grant. */
  function WithNewFile(h: Host, content: string): Host {
    h.(inodes := h.inodes[h.next := Inode(content, false)], next := h.next + 1)
  }

  datatype Op =
    | Login(content: string)                             // replaces the source file
    | Logout                                             // removes it
    | EditSource(content: string)                        // writes in place
    | EditPublished(content: string)                     // a workspace writes in place
    | Publish(mode: Mode, linkOk: bool, grantOk: bool)
    | Repair(linkOk: bool, grantOk: bool)
    | Revoke(aclOk: bool)

  /** `publishCredential`: the old publication goes first, the marker is written last. */
  function Published(h: Host, mode: Mode, linkOk: bool, grantOk: bool): Host
    requires h.Valid() && h.src.Some?
  {
    var bare := h.(dest := None);
    if mode == Link && !linkOk then bare
    else
      var made := if mode == Link then bare.(dest := h.src)
                  else WithNewFile(bare, h.inodes[h.src.value].content).(dest := Some(h.next));
      if grantOk then SetGrant(made, made.dest.value, true).(marker := Some(mode)) else made
  }

  /** `RepairCredentialPublication` has a link to look after. */
  predicate Repairable(h: Host) {
    h.dest.Some? && h.marker == Some(Link) && h.src.Some?
  }

  function Do(h: Host, op: Op): Host
    requires h.Valid()
  {
    match op
    case Login(content) => WithNewFile(h, content).(src := Some(h.next))
    case Logout => h.(src := None)
    case EditSource(content) => if h.src.Some? then Write(h, h.src.value, content) else h
    case EditPublished(content) => if h.dest.Some? then Write(h, h.dest.value, content) else h
    case Publish(mode, linkOk, grantOk) => if h.src.Some? then Published(h, mode, linkOk, grantOk) else h
    case Repair(linkOk, grantOk) =>
      if !Repairable(h) then h
      else if h.SameFile() then if grantOk then SetGrant(h, h.dest.value, true) else h
      else Published(h, Link, linkOk, grantOk)
    case Revoke(aclOk) =>
      if h.dest.None? then h
      else (if aclOk then SetGrant(h, h.dest.value, false) else h).(dest := None, marker := None)
  }

  datatype Status = Status(present: bool, mode: Option<Mode>, live: bool, granted: bool)

  /** The credential command's side of the host. */
  class CredentialHost {
    var inodes: map<nat, Inode>
    var src: Option<nat>
    var dest: Option<nat>
    var marker: Option<Mode>
    var next: nat

    ghost function Now(): Host
      reads this
    {
      Host(inodes, src, dest, marker, next)
    }

    method GrantDaemonAccess(i: nat, works: bool) returns (ok: bool)
      requires i in inodes
      modifies this`inodes
      ensures ok == works
      ensures Now() == if works then SetGrant(old(Now()), i, true) else old(Now())
    {
      ok := works;
      if ok { inodes := inodes[i := inodes[i].(granted := true)]; }
    }

    method PublishCredential(mode: Mode, linkOk: bool, grantOk: bool) returns (ok: bool)
      requires Now().Valid()
      modifies this
      ensures Now() == Do(old(Now()), Publish(mode, linkOk, grantOk))
      ensures ok <==> old(src).Some? && (mode == Link ==> linkOk) && grantOk
    {
      if src.None? { return false; }
      dest := None;
      if mode == Copy {
        inodes := inodes[next := Inode(inodes[src.value].content, false)];
        dest, next := Some(next), next + 1;
      } else {
        if !linkOk { return false; }
        dest := src;
      }
      ok := GrantDaemonAccess(dest.value, grantOk);
      if ok { marker := Some(mode); }
    }

    method RepairCredentialPublication(linkOk: bool, grantOk: bool) returns (repaired: bool, ok: bool)
      requires Now().Valid()
      modifies this
      ensures Now() == Do(old(Now()), Repair(linkOk, grantOk))
      ensures repaired <==> Repairable(old(Now())) && !old(Now()).SameFile() && linkOk && grantOk
      ensures ok <==>
        || old(dest).None? || old(marker) != Some(Link)
        || (Repairable(old(Now())) && if old(Now()).SameFile() then old(Now()).DestGranted() || grantOk else linkOk && grantOk)
    {
      if dest.None? || marker != Some(Link) { return false, true; }
      if src.None? { return false, false; }
      if src == dest {
        if !inodes[dest.value].granted {
          ok := GrantDaemonAccess(dest.value, grantOk);
          return false, ok;
        }
        assert inodes[dest.value := inodes[dest.value].(granted := true)] == inodes;
        return false, true;
      }
      ok := PublishCredential(Link, linkOk, grantOk);
      repaired := ok;
    }

    method RevokeCredential(aclOk: bool)
      requires Now().Valid()
      modifies this
      ensures Now() == Do(old(Now()), Revoke(aclOk))
    {
      if dest.None? { return; }
      if aclOk { inodes := inodes[dest.value := inodes[dest.value].(granted := false)]; }
      dest := None;
      marker := None;
    }

    /** `links` is how many names the published file has. */
    method CredentialStatus(links: nat) returns (st: Status)
      requires Now().Valid()
      ensures st == StatusOf(Now(), links)
    {
      st := Status(false, None, false, false);
      if dest.None? { return; }
      st := st.(present := true, granted := inodes[dest.value].granted);
      if marker.Some? { st := st.(mode := marker); }
      if src.Some? {
        if src == dest { return st.(mode := Some(Link), live := true); }
        if st.mode == Some(Link) { return; }
        if marker.None? && links > 1 { return st.(mode := Some(Link)); }
      }
      if st.mode.None? { st := st.(mode := Some(Copy)); }
    }
  }

  function StatusOf(h: Host, links: nat): (st: Status)
    requires h.Valid()
    ensures st.live <==> h.SameFile()
    ensures st.granted <==> h.DestGranted()
  {
    if h.dest.None? then Status(false, None, false, false)
    else
      var mode := if h.SameFile() then Link
                  else if h.marker.Some? then h.marker.value
                  else if h.src.Some? && links > 1 then Link else Copy;
      Status(true, Some(mode), h.SameFile(), h.DestGranted())
  }

  // ---------------------------------------------------------------------------------------
  // Runs.

  function Run(h: Host, ops: seq<Op>, k: nat): (r: Host)
    requires h.Valid() && k <= |ops|
    ensures r.Valid()
  {
    if k == 0 then h else var m := Run(h, ops, k - 1); StaysValid(m, ops[k - 1]); Do(m, ops[k - 1])
  }

  lemma StaysValid(h: Host, op: Op)
    requires h.Valid()
    ensures Do(h, op).Valid()
  {
  }

  /** What the command of one step really put at the published name, if anything. */
  function PutThere(h: Host, put: Option<Mode>, op: Op): Option<Mode> {
    match op
    case Publish(mode, linkOk, _) => if h.src.None? then put else if mode == Link && !linkOk then None else Some(mode)
    case Repair(linkOk, _) =>
      if !Repairable(h) || h.SameFile() then put else if linkOk then Some(Link) else None
    case Revoke(_) => None
    case _ => put
  }

  /** What stands at the published name after `k` steps: how it was last published. */
  function Standing(h: Host, ops: seq<Op>, k: nat): Option<Mode>
    requires h.Valid() && k <= |ops|
  {
    if k == 0 then None else PutThere(Run(h, ops, k - 1), Standing(h, ops, k - 1), ops[k - 1])
  }

  /** Nothing has been published yet. */
  ghost predicate Unpublished(h: Host) {
    h.Valid() && h.dest.None? && h.marker.None? && !h.SourceGranted()
  }

  predicate GrantWorks(op: Op) {
    (op.Publish? || op.Repair? ==> op.grantOk) && (op.Revoke? ==> op.aclOk)
  }

  predicate GrantsWork(ops: seq<Op>, k: nat)
    requires k <= |ops|
  {
    forall i :: 0 <= i < k ==> GrantWorks(ops[i])
  }

  lemma ApartStep(h: Host, put: Option<Mode>, op: Op)
    requires h.Valid() && (put.Some? <==> h.dest.Some?) && (put == Some(Copy) ==> !h.SameFile())
    ensures var r, put' := Do(h, op), PutThere(h, put, op);
      (put'.Some? <==> r.dest.Some?) && (put' == Some(Copy) ==> !r.SameFile())
  {
  }

  /** Whatever fails: something is published exactly when the name is there, and a copy never
      shares the source's inode. */
  lemma {:induction false} CopyIsApart(h: Host, ops: seq<Op>, k: nat)
    requires Unpublished(h) && k <= |ops|
    ensures var r := Run(h, ops, k); var put := Standing(h, ops, k);
      && (put.Some? <==> r.dest.Some?)
      && (put == Some(Copy) ==> !r.SameFile())
  {
    if k > 0 {
      CopyIsApart(h, ops, k - 1);
      ApartStep(Run(h, ops, k - 1), Standing(h, ops, k - 1), ops[k - 1]);
    }
  }

  /** What a publish that puts something there leaves: the source's content as it is then, in the
      source's own file or in a new one; and neither the source nor its content changes. */
  lemma PublishedIsTheSource(h: Host, op: Op)
    requires h.Valid() && Puts(h, op)
    ensures var r := Do(h, op);
      && r.Valid() && r.dest.Some? && r.src == h.src && r.SourceContent() == h.SourceContent()
      && Some(r.inodes[r.dest.value].content) == h.SourceContent()
      && (r.SameFile() <==> op.Repair? || op.mode == Link)
      && (op.Publish? && op.mode == Copy ==> r.dest.value !in h.inodes)
      && (op.grantOk ==> r.DestGranted())
  {
    StaysValid(h, op);
  }

  /** What the published file should hold: the source's content when it was last published, and
      since then what was written to it, through its own name or, while they are one file, through
      the source's. */
  function ShouldHold(h: Host, held: string, op: Op): string
    requires h.Valid()
  {
    if Puts(h, op) && h.src.Some? then h.SourceContent().value
    else if op.EditPublished? || (op.EditSource? && h.SameFile()) then op.content
    else held
  }

  function Held(h: Host, ops: seq<Op>, k: nat): string
    requires h.Valid() && k <= |ops|
  {
    if k == 0 then "" else ShouldHold(Run(h, ops, k - 1), Held(h, ops, k - 1), ops[k - 1])
  }

  lemma HoldsStep(h: Host, held: string, op: Op)
    requires h.Valid() && (h.dest.Some? ==> h.inodes[h.dest.value].content == held)
    ensures var r := Do(h, op); r.Valid() && (r.dest.Some? ==> r.inodes[r.dest.value].content == ShouldHold(h, held, op))
  {
    StaysValid(h, op);
    if Puts(h, op) { PublishedIsTheSource(h, op); }
  }

  /** Over every run, whatever fails, the published file holds just that; so a standing copy holds
      what was copied last but for edits of its own, and a live link always the source's. */
  lemma {:induction false} PublishedHolds(h: Host, ops: seq<Op>, k: nat)
    requires Unpublished(h) && k <= |ops|
    ensures var r := Run(h, ops, k); r.dest.Some? ==> r.inodes[r.dest.value].content == Held(h, ops, k)
    ensures var r := Run(h, ops, k); r.SameFile() ==> r.SourceContent() == Some(Held(h, ops, k))
  {
    if k > 0 {
      PublishedHolds(h, ops, k - 1);
      HoldsStep(Run(h, ops, k - 1), Held(h, ops, k - 1), ops[k - 1]);
    }
  }

  /** The source itself: what the last login gave it, and what was written to it since, through its
      own name or through a live link's. */
  lemma SourceChangesOnlyByWrites(h: Host, op: Op)
    requires h.Valid()
    ensures Do(h, op).Valid()
    ensures Do(h, op).SourceContent() ==
      match op
      case Login(content) => Some(content)
      case Logout => None
      case EditSource(content) => if h.src.Some? then Some(content) else None
      case EditPublished(content) => if h.SameFile() then Some(content) else h.SourceContent()
      case _ => h.SourceContent()
  {
    StaysValid(h, op);
  }

  /** A copy isolates: what a workspace writes to it leaves the operator's credential as it was. */
  lemma CopyIsolates(h: Host, ops: seq<Op>, k: nat, content: string)
    requires Unpublished(h) && k <= |ops| && Standing(h, ops, k) == Some(Copy)
    ensures var r := Run(h, ops, k);
      Do(r, EditPublished(content)).Valid() && Do(r, EditPublished(content)).SourceContent() == r.SourceContent()
  {
    CopyIsApart(h, ops, k);
  }

  /** With grants that work the marker is what was published, and the daemon can reach it. */
  lemma {:induction false} MarkerIsRight(h: Host, ops: seq<Op>, k: nat)
    requires Unpublished(h) && k <= |ops| && GrantsWork(ops, k)
    ensures var r := Run(h, ops, k); r.dest.Some? ==> r.marker == Standing(h, ops, k) && r.DestGranted()
  {
    if k > 0 {
      MarkerIsRight(h, ops, k - 1);
      CopyIsApart(h, ops, k - 1);
      assert GrantWorks(ops[k - 1]);
    }
  }

  /** After every run with working grants, status reports what is published and how, and "live"
      exactly when source and publication are one file, which only a link is. */
  lemma StatusIsRight(h: Host, ops: seq<Op>, links: nat)
    requires Unpublished(h) && GrantsWork(ops, |ops|)
    ensures var r, put := Run(h, ops, |ops|), Standing(h, ops, |ops|); var st := StatusOf(r, links);
      && st.present == put.Some? && st.mode == put && (st.present ==> st.granted)
      && (st.live <==> r.SameFile()) && (st.live ==> put == Some(Link))
  {
    CopyIsApart(h, ops, |ops|);
    MarkerIsRight(h, ops, |ops|);
    var put := Standing(h, ops, |ops|);
    if put.Some? {
      match put.value case Link => {} case Copy => {}
    }
  }

  // The status of every run, whatever fails in it.

  /** The operation puts something at the published name. */
  predicate Puts(h: Host, op: Op) {
    match op
    case Publish(mode, linkOk, _) => h.src.Some? && (mode == Link ==> linkOk)
    case Repair(linkOk, _) => Repairable(h) && !h.SameFile() && linkOk
    case _ => false
  }

  /** The mode the marker was last written with, since the last revoke that found something. */
  function MarkedAfter(h: Host, mark: Option<Mode>, put: Option<Mode>, op: Op): Option<Mode> {
    if Puts(h, op) && op.grantOk then put
    else if op.Revoke? && h.dest.Some? then None
    else mark
  }

  function Marked(h: Host, ops: seq<Op>, k: nat): Option<Mode>
    requires h.Valid() && k <= |ops|
  {
    if k == 0 then None
    else MarkedAfter(Run(h, ops, k - 1), Marked(h, ops, k - 1), Standing(h, ops, k), ops[k - 1])
  }

  lemma MarkStep(h: Host, put: Option<Mode>, op: Op)
    requires h.Valid()
    ensures Do(h, op).marker == MarkedAfter(h, h.marker, PutThere(h, put, op), op)
  {
  }

  lemma {:induction false} MarkerIsMarked(h: Host, ops: seq<Op>, k: nat)
    requires Unpublished(h) && k <= |ops|
    ensures Run(h, ops, k).marker == Marked(h, ops, k)
  {
    if k > 0 {
      MarkerIsMarked(h, ops, k - 1);
      MarkStep(Run(h, ops, k - 1), Standing(h, ops, k - 1), ops[k - 1]);
    }
  }

  /** Over every run, whatever fails: the mode status reports is the one published exactly when the
      link is live, or the last mode marked is the one published, or, with none marked, the number
      of names tells a link from a copy. */
  lemma ModeIsRightExactly(h: Host, ops: seq<Op>, links: nat)
    requires Unpublished(h)
    ensures var r, put, mark := Run(h, ops, |ops|), Standing(h, ops, |ops|), Marked(h, ops, |ops|);
      StatusOf(r, links).mode == put
      <==> put.None? || r.SameFile() || (if mark.Some? then mark == put else put == Some(if r.src.Some? && links > 1 then Link else Copy))
  {
    CopyIsApart(h, ops, |ops|);
    MarkerIsMarked(h, ops, |ops|);
    var put := Standing(h, ops, |ops|);
    if put.Some? {
      match put.value case Link => {} case Copy => {}
    }
  }

  /** The grant of the operation that last put something there worked. */
  predicate LastGrantWorked(h: Host, ops: seq<Op>, k: nat)
    requires h.Valid() && k <= |ops|
  {
    k > 0 && if Puts(Run(h, ops, k - 1), ops[k - 1]) then ops[k - 1].grantOk else LastGrantWorked(h, ops, k - 1)
  }

  lemma {:induction false} LastGrantMarks(h: Host, ops: seq<Op>, k: nat)
    requires Unpublished(h) && k <= |ops| && LastGrantWorked(h, ops, k) && Standing(h, ops, k).Some?
    ensures Marked(h, ops, k) == Standing(h, ops, k)
  {
    CopyIsApart(h, ops, k - 1);
    if !Puts(Run(h, ops, k - 1), ops[k - 1]) { LastGrantMarks(h, ops, k - 1); }
  }

  /** So one working grant is enough, the last: whatever failed before, the mode is right. */
  lemma LastGrantIsEnough(h: Host, ops: seq<Op>, links: nat)
    requires Unpublished(h) && LastGrantWorked(h, ops, |ops|)
    ensures StatusOf(Run(h, ops, |ops|), links).mode == Standing(h, ops, |ops|)
  {
    ModeIsRightExactly(h, ops, links);
    if Standing(h, ops, |ops|).Some? { LastGrantMarks(h, ops, |ops|); }
  }

  lemma RunStep(h: Host, ops: seq<Op>, k: nat)
    requires h.Valid() && k < |ops|
    ensures Run(h, ops, k + 1) == Do(Run(h, ops, k), ops[k])
    ensures Standing(h, ops, k + 1) == PutThere(Run(h, ops, k), Standing(h, ops, k), ops[k])
  {
  }

  /** Why the grants have to work: a link whose grant failed keeps the copy's marker, so after the
      next login it is reported as a copy and never repaired. */
  lemma FailedGrantMislabels(h: Host, old': string, new': string, links: nat)
    requires Unpublished(h)
    ensures
      var ops := [Login(old'), Publish(Copy, true, true), Publish(Link, true, false), Login(new')];
      var r := Run(h, ops, 4);
      && Standing(h, ops, 4) == Some(Link) && StatusOf(r, links).mode == Some(Copy)
      && Do(r, Repair(true, true)) == r && r.SourceContent() == Some(new')
      && r.inodes[r.dest.value].content == old'
  {
    var ops := [Login(old'), Publish(Copy, true, true), Publish(Link, true, false), Login(new')];
    RunStep(h, ops, 0);
    RunStep(h, ops, 1);
    RunStep(h, ops, 2);
    RunStep(h, ops, 3);
  }

  // ---------------------------------------------------------------------------------------
  // Repair and revoke.

  /** Repair makes a link live and granted, keeps the source's content, and then does nothing. */
  lemma RepairSettles(h: Host)
    requires h.Valid() && Repairable(h)
    ensures var r := Do(h, Repair(true, true));
      && r.Valid() && r.SameFile() && r.DestGranted() && r.marker == Some(Link)
      && r.src == h.src && r.SourceContent() == h.SourceContent()
      && forall linkOk, grantOk :: Do(r, Repair(linkOk, grantOk)) == r
  {
    var r := Do(h, Repair(true, true));
    assert r.inodes[r.dest.value := r.inodes[r.dest.value].(granted := true)] == r.inodes;
  }

  /** Repair, whatever fails in it, never creates a publication, never touches a copy, and does
      nothing without a source; a link it cannot remake is gone afterwards. */
  lemma RepairOnlyRelinks(h: Host, linkOk: bool, grantOk: bool)
    requires h.Valid()
    ensures var r := Do(h, Repair(linkOk, grantOk));
      && (h.dest.None? || h.marker != Some(Link) || h.src.None? ==> r == h)
      && (r.dest.Some? ==> h.dest.Some?)
      && (Repairable(h) && !h.SameFile() && !linkOk ==> r == h.(dest := None))
  {
  }

  /** Over whole runs: repair leaves a standing copy, and an absent publication, as they are. */
  lemma RepairKeepsCopies(h: Host, ops: seq<Op>, linkOk: bool, grantOk: bool)
    requires Unpublished(h) && GrantsWork(ops, |ops|) && Standing(h, ops, |ops|) != Some(Link)
    ensures var r := Run(h, ops, |ops|); Do(r, Repair(linkOk, grantOk)) == r
  {
    CopyIsApart(h, ops, |ops|);
    MarkerIsRight(h, ops, |ops|);
  }

  /** After a login, a standing link is stale, and repair publishes the new credential. */
  lemma RepairFollowsLogin(h: Host, ops: seq<Op>, content: string)
    requires Unpublished(h) && GrantsWork(ops, |ops|) && Standing(h, ops, |ops|) == Some(Link)
    ensures var s := Do(Run(h, ops, |ops|), Login(content));
      && s.Valid() && !s.SameFile()
      && var r := Do(s, Repair(true, true));
      r.dest.Some? && r.dest.value in r.inodes && r.inodes[r.dest.value] == Inode(content, true)
  {
    CopyIsApart(h, ops, |ops|);
    MarkerIsRight(h, ops, |ops|);
  }

  /** Revoke never changes the source's content; it takes back the grant on the file published,
      so the source is left granted exactly when it was and was not that file. */
  lemma RevokeKeepsSource(h: Host)
    requires h.Valid()
    ensures var r := Do(h, Revoke(true));
      && r.Valid() && r.src == h.src && r.SourceContent() == h.SourceContent() && r.dest.None?
      && (r.SourceGranted() <==> h.SourceGranted() && !h.SameFile())
  {
  }

  /** A live link whose name goes without a revoke: replaced by a copy, or by a link that fails. */
  predicate Abandons(h: Host, op: Op) {
    op.Publish? && h.SameFile() && (op.mode == Copy || !op.linkOk)
  }

  /** A live link was abandoned, and since then neither did the source file change nor was it
      linked again. */
  predicate LeftAfter(h: Host, op: Op, left: bool)
    requires h.Valid()
  {
    Abandons(h, op) || (left && !op.Login? && !op.Logout? && !Do(h, op).SameFile())
  }

  predicate LeftOver(h: Host, ops: seq<Op>, k: nat)
    requires h.Valid() && k <= |ops|
  {
    k > 0 && LeftAfter(Run(h, ops, k - 1), ops[k - 1], LeftOver(h, ops, k - 1))
  }

  ghost predicate GrantExplained(h: Host, left: bool) {
    h.Valid() && (h.SourceGranted() <==> h.SameFile() || left) && !(left && h.SameFile())
  }

  lemma GrantStep(h: Host, op: Op, left: bool)
    requires GrantExplained(h, left) && GrantWorks(op)
    ensures GrantExplained(Do(h, op), LeftAfter(h, op, left))
  {
    StaysValid(h, op);
  }

  /** The operator's own credential is granted exactly while it is the published file, or after
      a live link to it was abandoned. */
  lemma {:induction false} GrantFollowsLink(h: Host, ops: seq<Op>, k: nat)
    requires Unpublished(h) && k <= |ops| && GrantsWork(ops, k)
    ensures GrantExplained(Run(h, ops, k), LeftOver(h, ops, k))
  {
    if k > 0 {
      var p := k - 1;
      assert GrantWorks(ops[p]) && GrantsWork(ops, p);
      GrantFollowsLink(h, ops, p);
      GrantStep(Run(h, ops, p), ops[p], LeftOver(h, ops, p));
    }
  }

  /** Abandoning one leaves the operator's own credential granted, and a revoke after that does
      not take it back. */
  lemma AbandonedGrantStays(h: Host, op: Op)
    requires h.Valid() && Abandons(h, op) && h.SourceGranted()
    ensures var r := Do(Do(h, op), Revoke(true)); r.Valid() && r.SourceGranted() && r.dest.None?
  {
  }
}
