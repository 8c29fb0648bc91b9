/** The nesting rule (nesting.go, service_submit.go; the policy is apexv1/nesting.go).

    A command's place in the session tree is found from its environment, which a model can
    rewrite, and from its process ancestry, which it cannot.  The state is every session ape
    ever launched in the project, with the session it was really launched from. */
module NestingRule {
  import LockDirectory
  import opened Options

  const LOOP_SKILL := LockDirectory.LOOP_SKILL
  const OPERATOR_SKILL := "apex-orchestrator"
  const MAX_DEPTH := 2

  predicate IsLoopRun(skill: string) { skill == LOOP_SKILL || skill == OPERATOR_SKILL }

  /** The session a command believes it runs in. */
  datatype SessionAt = SessionAt(depth: int, run: string, skill: string, kind: string)

  const OUTSIDE := SessionAt(0, "", "", "")

  predicate Orchestrator(at: SessionAt) {
    at.depth == 1 && IsLoopRun(at.skill) && (at.kind == "task" || at.kind == "script")
  }

  datatype Refusal = DepthRefused | NotAllowed | Renamed

  datatype Answer = Start(depth: int) | Refuse(why: Refusal)

  function SessionStart(at: SessionAt, skill: string, allow: seq<string>): Answer {
    if at.depth == 0 then Start(1)
    else if at.depth >= MAX_DEPTH then Refuse(DepthRefused)
    else if !Orchestrator(at) then Refuse(DepthRefused)
    else if skill == "" || skill !in allow then Refuse(NotAllowed)
    else Start(at.depth + 1)
  }

  // ---------------------------------------------------------------------------------------
  // Where a command runs.

  /** APE_SESSION, and APE_DEPTH as Atoi reads it. */
  datatype Env = Env(marker: string, depth: Option<int>)

  function Cut(s: string): (r: (string, string))
  {
    if s == "" then ("", "")
    else if s[0] == '/' then ("", s[1..])
    else var (before, after) := Cut(s[1..]); ([s[0]] + before, after)
  }

  /** `<kind>/<run-id>`, or a worker's `<kind>/<run-id>/worker/<id>`. */
  function SessionOfMarker(marker: string): (string, string) {
    var (kind, rest) := Cut(marker);
    (kind, Cut(rest).0)
  }

  function SessionFromEnv(env: Env): SessionAt {
    var d := if env.depth.None? || env.depth.value < 0 then 0 else env.depth.value;
    if env.marker == "" && d == 0 then OUTSIDE
    else
      var (kind, run) := SessionOfMarker(env.marker);
      SessionAt(if d == 0 then 1 else d, run, "", kind)
  }

  /** A live-session registry row. */
  datatype Row = Row(pid: nat, claudePid: nat, run: string, depth: int, skill: string, kind: string)

  function RowDepth(r: Row): int { if r.depth <= 0 then 1 else r.depth }

  predicate RowOfProcess(r: Row, pid: nat) {
    r.run != "" && (r.pid == pid || (r.claudePid != 0 && r.claudePid == pid))
  }

  function FirstRow(rows: seq<Row>, pid: nat): Option<Row> {
    if rows == [] then None
    else if RowOfProcess(rows[0], pid) then Some(rows[0])
    else FirstRow(rows[1..], pid)
  }

  /** The row of the nearest ancestor that is a session's. */
  function AncestorSession(rows: seq<Row>, ancestors: seq<nat>): Option<Row> {
    if ancestors == [] then None
    else if FirstRow(rows, ancestors[0]).Some? then FirstRow(rows, ancestors[0])
    else AncestorSession(rows, ancestors[1..])
  }

  function RowOfRun(rows: seq<Row>, run: string): Option<Row> {
    if rows == [] then None
    else if rows[0].run != "" && rows[0].run == run then Some(rows[0])
    else RowOfRun(rows[1..], run)
  }

  function Max(a: int, b: int): int { if a < b then b else a }

  /** Everything a command reads: its environment, the live rows, its ancestors, and the skill
      of each run whose manifest says it is running. */
  datatype View = View(env: Env, rows: seq<Row>, ancestors: seq<nat>, running: map<string, string>)

  function CurrentSession(v: View): SessionAt {
    var env := SessionFromEnv(v.env);
    var row := AncestorSession(v.rows, v.ancestors);
    if row.Some? then
      SessionAt(Max(RowDepth(row.value), env.depth), row.value.run, row.value.skill, row.value.kind)
    else if env.depth == 0 then OUTSIDE
    else
      var known := RowOfRun(v.rows, env.run);
      if known.Some? then
        env.(skill := known.value.skill, depth := Max(env.depth, RowDepth(known.value)))
      else if (env.kind == "task" || env.kind == "script") && env.run in v.running then
        env.(skill := v.running[env.run])
      else env
  }

  /** The gate every session-starting command goes through. */
  function Gate(v: View, skill: string, allow: seq<string>): Answer {
    if skill == OPERATOR_SKILL then Refuse(Renamed)
    else SessionStart(CurrentSession(v), skill, allow)
  }

  /** The policy, over where the command is found to be: outside every session it starts anything;
      in a loop run's session at depth 1 a child of an allow-listed skill; otherwise nothing.  The
      operator's old name starts nowhere. */
  lemma GateExactly(v: View, skill: string, allow: seq<string>)
    ensures var at := CurrentSession(v);
      var inLoop := at.skill in {"apex-loop", "apex-orchestrator"} && at.kind in {"task", "script"};
      && (Gate(v, skill, allow) == Start(1) <==> skill != "apex-orchestrator" && at.depth == 0)
      && (Gate(v, skill, allow) == Start(2) <==>
            skill != "apex-orchestrator" && skill != "" && at.depth == 1 && inLoop && skill in allow)
      && (Gate(v, skill, allow).Start? ==> Gate(v, skill, allow) in {Start(1), Start(2)} || at.depth < 0)
  {
  }

  /** A marker names a session by its kind and run id; a worker's, with its own run appended, the
      session too.  The depth is the one given, and 1 where only the marker is. */
  lemma EnvExactly(kind: string, run: string, rest: string, depth: Option<int>)
    requires '/' !in kind && '/' !in run
    ensures var d := if depth.Some? && depth.value > 0 then depth.value else 1;
      && SessionFromEnv(Env(kind + ['/'] + run, depth)) == SessionAt(d, run, "", kind)
      && SessionFromEnv(Env(kind + ['/'] + (run + ['/'] + rest), depth)) == SessionAt(d, run, "", kind)
    ensures SessionFromEnv(Env("", depth)).depth == if depth.Some? && depth.value > 0 then depth.value else 0
  {
    CutAt(kind, run);
    CutAt(kind, run + ['/'] + rest);
    CutAt(run, rest);
  }

  // ---------------------------------------------------------------------------------------
  // The session tree.

  /** A launched session: what ape recorded, and the session it was really launched from. */
  datatype Session = Session(depth: int, parent: string, skill: string, kind: string, within: Option<string>)

  type Tree = map<string, Session>

  /** Registry rows and manifests are ape's own records of sessions it launched. */
  ghost predicate Honest(t: Tree, v: View) {
    && (forall i :: 0 <= i < |v.rows| && v.rows[i].run != "" ==>
          && v.rows[i].run in t
          && var s := t[v.rows[i].run];
             v.rows[i].depth == s.depth && v.rows[i].skill == s.skill && v.rows[i].kind == s.kind)
    && (forall run :: run in v.running ==> run in t && v.running[run] == t[run].skill)
  }

  /** `outer` really encloses `inner`. */
  ghost predicate Encloses(t: Tree, outer: string, inner: string) {
    exists chain: seq<string> :: |chain| >= 2 && IsChain(t, chain) && chain[0] == inner && chain[|chain| - 1] == outer
  }

  ghost predicate IsChain(t: Tree, chain: seq<string>) {
    forall i :: 0 <= i < |chain| - 1 ==> chain[i] in t && t[chain[i]].within == Some(chain[i + 1])
  }

  /** A row with a run id names the process: as the ape process that runs the session, or as its
      claude. */
  predicate NamesProcess(r: Row, pid: nat) {
    r.run != "" && (r.pid == pid || (r.claudePid == pid && pid != 0))
  }

  predicate IsNamed(rows: seq<Row>, pid: nat) {
    exists k :: 0 <= k < |rows| && NamesProcess(rows[k], pid)
  }

  /** Ancestor `i` is the nearest that a row names. */
  predicate Nearest(v: View, i: nat) {
    i < |v.ancestors| && IsNamed(v.rows, v.ancestors[i]) && forall j :: 0 <= j < i ==> !IsNamed(v.rows, v.ancestors[j])
  }

  /** The rows of that ancestor are of session `s`. */
  predicate IsRowOf(v: View, i: nat, s: string)
    requires i < |v.ancestors|
  {
    forall k :: 0 <= k < |v.rows| && NamesProcess(v.rows[k], v.ancestors[i]) ==> v.rows[k].run == s
  }

  predicate NoneNamed(v: View) {
    forall i :: 0 <= i < |v.ancestors| ==> !IsNamed(v.rows, v.ancestors[i])
  }

  /** The command is really inside session `s`: the nearest ancestor a row names is that of `s` or
      of something around it, and the row of `s` or the marker of `s` survives.  Outside, no
      ancestor is named; the environment may hold anything. */
  ghost predicate Survives(t: Tree, v: View, inside: Option<string>) {
    match inside
    case None => NoneNamed(v)
    case Some(s) =>
      && s in t
      && (forall i: nat :: Nearest(v, i) ==> IsRowOf(v, i, s) || exists outer :: IsRowOf(v, i, outer) && Encloses(t, outer, s))
      && ((exists i: nat :: Nearest(v, i) && IsRowOf(v, i, s))
          || (var env := SessionFromEnv(v.env);
              env.depth == t[s].depth && env.run == s && env.kind == t[s].kind))
  }

  /** A launch: what the command sees, the session it is really inside, whether it goes through
      the service, and, with --detach, what the run itself sees when it is gated again. */
  datatype Launch = Launch(
    run: string, skill: string, kind: string, view: View, inside: Option<string>, viaService: bool, own: Option<View>)

  /** A detached run has the environment of the command that started it, and no session among its
      ancestors: its supervisor is an orphan. */
  ghost predicate IsOwnView(t: Tree, l: Launch) {
    l.own.Some? ==>
      && !l.viaService && Honest(t, l.own.value) && l.own.value.env == l.view.env
      && NoneNamed(l.own.value)
  }

  /** Every gate the launch comes to lets it through. */
  ghost predicate PassesGates(t: Tree, l: Launch, allow: seq<string>) {
    && l.run != "" && l.run !in t
    && Honest(t, l.view) && Survives(t, l.view, l.inside) && IsOwnView(t, l)
    && Admitted(l, allow).Start?
  }

  /** A detached launch from inside a session has that session's marker: the run's own gate has
      nothing else to go by. */
  predicate KeepsMarker(l: Launch) {
    l.own.Some? && l.inside.Some? ==> SessionFromEnv(l.view.env).run == l.inside.value
  }

  ghost predicate CanLaunch(t: Tree, l: Launch, allow: seq<string>) {
    PassesGates(t, l, allow) && KeepsMarker(l)
  }

  /** The view the recorded place comes from. */
  function DecidingView(l: Launch): View {
    if l.own.Some? then l.own.value else l.view
  }

  /** A direct command is gated on its own view; a detached one there and again in the run, whose
      answer is recorded; a service job is gated by the daemon on the stamp the caller's view
      gives, and again by the job's own command under the environment the daemon hands it. */
  function Admitted(l: Launch, allow: seq<string>): Answer {
    if l.viaService then ServiceJob(CurrentSession(l.view), l.view.rows, l.view.running, l.skill, allow)
    else if Gate(l.view, l.skill, allow).Refuse? then Gate(l.view, l.skill, allow)
    else Gate(DecidingView(l), l.skill, allow)
  }

  function ParentOf(l: Launch, allow: seq<string>): string {
    if Admitted(l, allow) != Start(2) then "" else CurrentSession(DecidingView(l)).run
  }

  predicate IsAlphanumeric(c: char) { 'A' <= c <= 'Z' || 'a' <= c <= 'z' || '0' <= c <= '9' }

  /** The shape of a run id a stamp may name. */
  predicate IsRunId(run: string) {
    run != "" && IsAlphanumeric(run[0]) && forall i :: 0 <= i < |run| ==> IsAlphanumeric(run[i]) || run[i] in {'.', '_', '-'}
  }

  function ServiceEnv(run: string): Env { Env("task/" + run, Some(1)) }

  /** The daemon's check of a stamp, then the job's own gate. */
  function ServiceJob(stamp: SessionAt, rows: seq<Row>, running: map<string, string>,
                      skill: string, allow: seq<string>): Answer {
    if stamp.depth < 0 || stamp.depth >= MAX_DEPTH then Refuse(DepthRefused)
    else if stamp.depth == 0 then
      Gate(View(Env("", None), rows, [], running), skill, allow)
    else if !IsRunId(stamp.run) then Refuse(DepthRefused)
    else
      var at := SessionAt(1, stamp.run, if stamp.run in running then running[stamp.run] else "", "task");
      if !Orchestrator(at) then Refuse(DepthRefused)
      else if SessionStart(at, skill, allow).Refuse? then SessionStart(at, skill, allow)
      else Gate(View(ServiceEnv(stamp.run), rows, [], running), skill, allow)
  }

  function Add(t: Tree, l: Launch, allow: seq<string>): Tree
    requires Admitted(l, allow).Start?
  {
    t[l.run := Session(Admitted(l, allow).depth, ParentOf(l, allow), l.skill, l.kind, l.inside)]
  }

  /** What the rule promises of every session. */
  ghost predicate Lawful(t: Tree, run: string)
    requires run in t
  {
    var s := t[run];
    && run != "" && 1 <= s.depth <= MAX_DEPTH
    && (s.depth == 2 ==> s.parent in t && t[s.parent].depth == 1 && IsLoopRun(t[s.parent].skill))
    && (s.within.Some? ==> s.depth == 2 && s.parent == s.within.value)
  }

  ghost predicate Rule(t: Tree) {
    && (forall run :: run in t ==> Lawful(t, run))
    && (forall run :: run in t && t[run].depth == 2 ==> !IsLoopRun(t[run].skill))
  }

  lemma {:induction false} FirstRowExactly(rows: seq<Row>, pid: nat)
    ensures FirstRow(rows, pid).Some? <==> IsNamed(rows, pid)
    ensures FirstRow(rows, pid).Some? ==> FirstRow(rows, pid).value in rows && NamesProcess(FirstRow(rows, pid).value, pid)
  {
    if rows != [] {
      FirstRowExactly(rows[1..], pid);
      if IsNamed(rows, pid) && !NamesProcess(rows[0], pid) {
        var k :| 0 <= k < |rows| && NamesProcess(rows[k], pid);
        assert rows[1..][k - 1] == rows[k];
      }
      if IsNamed(rows[1..], pid) {
        var k :| 0 <= k < |rows[1..]| && NamesProcess(rows[1..][k], pid);
        assert rows[k + 1] == rows[1..][k];
      }
    }
  }

  predicate NoneNamedAmong(rows: seq<Row>, ancestors: seq<nat>, n: nat)
    requires n <= |ancestors|
  {
    forall j :: 0 <= j < n ==> !IsNamed(rows, ancestors[j])
  }

  lemma {:induction false} AncestorAt(rows: seq<Row>, ancestors: seq<nat>, i: nat)
    requires i <= |ancestors| && NoneNamedAmong(rows, ancestors, i)
    requires i < |ancestors| ==> IsNamed(rows, ancestors[i])
    ensures AncestorSession(rows, ancestors) == if i < |ancestors| then FirstRow(rows, ancestors[i]) else None
  {
    if ancestors != [] {
      FirstRowExactly(rows, ancestors[0]);
      if i > 0 {
        assert !IsNamed(rows, ancestors[0]);
        assert forall j :: 0 <= j < i - 1 ==> ancestors[1..][j] == ancestors[j + 1];
        AncestorAt(rows, ancestors[1..], i - 1);
      }
    }
  }

  /** The answer of the ancestry: a row of the nearest ancestor that any row names, by the pid of
      its ape or of its claude; and none exactly when no row names any ancestor. */
  lemma AncestorExactly(v: View)
    ensures AncestorSession(v.rows, v.ancestors).None? <==> NoneNamed(v)
    ensures forall i: nat :: Nearest(v, i) ==>
      var r := AncestorSession(v.rows, v.ancestors);
      r.Some? && r.value in v.rows && NamesProcess(r.value, v.ancestors[i])
    ensures !NoneNamed(v) ==> exists i: nat :: Nearest(v, i)
  {
    forall i: nat | Nearest(v, i)
      ensures var r := AncestorSession(v.rows, v.ancestors);
        r.Some? && r.value in v.rows && NamesProcess(r.value, v.ancestors[i])
    {
      AncestorAt(v.rows, v.ancestors, i);
      FirstRowExactly(v.rows, v.ancestors[i]);
    }
    if NoneNamed(v) {
      AncestorAt(v.rows, v.ancestors, |v.ancestors|);
    } else {
      var i := NearestOf(v, 0);
      assert Nearest(v, i);
    }
  }

  lemma {:induction false} NearestOf(v: View, from: nat) returns (i: nat)
    requires from <= |v.ancestors| && NoneNamedAmong(v.rows, v.ancestors, from) && !NoneNamed(v)
    ensures Nearest(v, i)
    decreases |v.ancestors| - from
  {
    if from < |v.ancestors| && IsNamed(v.rows, v.ancestors[from]) {
      i := from;
    } else {
      i := NearestOf(v, from + 1);
    }
  }

  lemma {:induction false} RowOfRunIsARow(rows: seq<Row>, run: string)
    ensures var r := RowOfRun(rows, run); r.Some? ==> r.value in rows && r.value.run == run && run != ""
  {
    if rows != [] { RowOfRunIsARow(rows[1..], run); }
  }

  /** What a command that may start a child believes is true: it names a depth-1 loop run, and
      when the command really is inside a session it names that session. */
  lemma BeliefIsTrue(t: Tree, v: View, inside: Option<string>)
    requires Rule(t) && Honest(t, v) && Survives(t, v, inside)
    ensures var at := CurrentSession(v);
      && 0 <= at.depth
      && (Orchestrator(at) ==> at.run in t && t[at.run].depth == 1 && IsLoopRun(t[at.run].skill))
      && (inside.Some? ==> at.depth >= 1 && (at.depth == 1 ==> at.run == inside.value))
  {
    var row := AncestorSession(v.rows, v.ancestors);
    AncestorExactly(v);
    RowOfRunIsARow(v.rows, SessionFromEnv(v.env).run);
    if row.Some? && inside.Some? {
      var i: nat :| Nearest(v, i);
      RowIsOfNearest(v, i);
      if row.value.run != inside.value {
        NearestIsUnique(v, i);
        EnclosedIsAChild(t, row.value.run, inside.value);
      }
    }
  }

  /** Where a command is: in the session of its nearest named ancestor, at the larger of the depths
      the row and the environment give; with none, in the one its marker names, whose skill is
      taken from its row, or else from a manifest that says it runs; with neither, outside. */
  lemma CurrentSessionExactly(v: View)
    ensures var at, env := CurrentSession(v), SessionFromEnv(v.env);
      if NoneNamed(v) then
        if env.depth == 0 then at == SessionAt(0, "", "", "")
        else
          var row := RowOfRun(v.rows, env.run);
          && at.run == env.run && at.kind == env.kind
          && at.depth == (if row.Some? && Largest(row.value.depth, env.depth) then RowDepth(row.value) else env.depth)
          && at.skill == (if row.Some? then row.value.skill
                          else if env.kind in {"task", "script"} && env.run in v.running then v.running[env.run] else "")
      else
        exists r :: r in v.rows && AncestorSession(v.rows, v.ancestors) == Some(r)
          && at.run == r.run && at.skill == r.skill && at.kind == r.kind
          && at.depth >= env.depth && at.depth >= r.depth && at.depth >= 1 && at.depth in {env.depth, r.depth, 1}
  {
    AncestorExactly(v);
  }

  predicate Largest(rowDepth: int, envDepth: int) {
    (if rowDepth < 1 then 1 else rowDepth) >= envDepth
  }

  lemma RowIsOfNearest(v: View, i: nat)
    requires Nearest(v, i)
    ensures AncestorSession(v.rows, v.ancestors).Some?
    ensures forall s :: IsRowOf(v, i, s) ==> AncestorSession(v.rows, v.ancestors).value.run == s
  {
    AncestorExactly(v);
  }

  lemma NearestIsUnique(v: View, i: nat)
    requires Nearest(v, i)
    ensures forall j: nat :: Nearest(v, j) ==> j == i
  {
  }

  /** Under the rule, what really encloses a session is its parent, and the session is at depth 2. */
  lemma EnclosedIsAChild(t: Tree, outer: string, inner: string)
    requires Rule(t) && Encloses(t, outer, inner)
    ensures inner in t && t[inner].depth == 2
  {
    var chain: seq<string> :| |chain| >= 2 && IsChain(t, chain) && chain[0] == inner && chain[|chain| - 1] == outer;
    assert t[chain[0]].within == Some(chain[1]);
    assert Lawful(t, inner);
  }

  lemma {:induction false} CutAt(s: string, rest: string)
    requires '/' !in s
    ensures Cut(s + ['/'] + rest) == (s, rest) && Cut(s) == (s, "")
  {
    if s == "" {
      assert s + ['/'] + rest == ['/'] + rest;
    } else {
      CutAt(s[1..], rest);
      var whole := s + ['/'] + rest;
      assert whole[1..] == s[1..] + ['/'] + rest && whole[0] == s[0];
      assert [s[0]] + s[1..] == s;
    }
  }

  /** The environment a service job gets is read back as the run that submitted it. */
  lemma ServiceEnvNamesRun(run: string)
    requires IsRunId(run)
    ensures SessionFromEnv(ServiceEnv(run)) == SessionAt(1, run, "", "task")
  {
    CutAt("task", run);
    CutAt(run, "");
    assert "task" + ['/'] + run == "task/" + run;
  }

  /** What the daemon answers: from outside, whatever a terminal may start; from depth 1, for a run
      that its own manifest says is a running loop's, an allow-listed skill that the job's own gate
      lets through; and from anywhere else nothing. */
  lemma ServiceJobExactly(stamp: SessionAt, rows: seq<Row>, running: map<string, string>, skill: string, allow: seq<string>)
    ensures var a := ServiceJob(stamp, rows, running, skill, allow);
      var fromLoop := stamp.depth == 1 && IsRunId(stamp.run)
        && stamp.run in running && running[stamp.run] in {"apex-loop", "apex-orchestrator"};
      && (stamp.depth == 0 ==> a == if skill == "apex-orchestrator" then Refuse(Renamed) else Start(1))
      && (stamp.depth != 0 && !fromLoop ==> a == Refuse(DepthRefused))
      && (fromLoop && (skill == "" || skill !in allow) ==> a == Refuse(NotAllowed))
      && (fromLoop && skill != "" && skill in allow ==>
            a == Gate(View(ServiceEnv(stamp.run), rows, [], running), skill, allow))
  {
  }

  /** A service job that is admitted from depth 1 starts as the submitting loop run's child. */
  lemma ServiceJobIsAChild(t: Tree, v: View, inside: Option<string>, skill: string, allow: seq<string>)
    requires Rule(t) && Honest(t, v) && Survives(t, v, inside)
    requires ServiceJob(CurrentSession(v), v.rows, v.running, skill, allow).Start?
    ensures var stamp := CurrentSession(v);
      if stamp.depth == 0 then
        inside.None? && ServiceJob(stamp, v.rows, v.running, skill, allow) == Start(1)
      else
        && ServiceJob(stamp, v.rows, v.running, skill, allow) == Start(2)
        && stamp.depth == 1 && skill in allow
        && stamp.run in t && t[stamp.run].depth == 1 && IsLoopRun(t[stamp.run].skill)
        && (inside.Some? ==> inside.value == stamp.run)
  {
    var stamp := CurrentSession(v);
    BeliefIsTrue(t, v, inside);
    if stamp.depth == 1 {
      ServiceEnvNamesRun(stamp.run);
      var job := View(ServiceEnv(stamp.run), v.rows, [], v.running);
      BeliefIsTrue(t, job, None);
      RowOfRunIsARow(v.rows, stamp.run);
      assert Lawful(t, stamp.run);
    }
  }

  /** A launch of its own is admitted exactly when its command's gate lets it through and, detached,
      the run's gate does too, whose answer it is given. */
  lemma AdmittedExactly(l: Launch, allow: seq<string>)
    requires !l.viaService
    ensures Admitted(l, allow).Start? <==>
      Gate(l.view, l.skill, allow).Start? && (l.own.Some? ==> Gate(l.own.value, l.skill, allow).Start?)
    ensures Admitted(l, allow).Start? ==>
      Admitted(l, allow) == Gate(if l.own.Some? then l.own.value else l.view, l.skill, allow)
  {
  }

  /** An admitted launch keeps the rule exactly when, detached from inside a session, it has that
      session's marker. */
  lemma LaunchKeepsRuleExactly(t: Tree, l: Launch, allow: seq<string>)
    requires Rule(t) && PassesGates(t, l, allow)
    requires LOOP_SKILL !in allow
    ensures Rule(Add(t, l, allow)) <==> KeepsMarker(l)
  {
    if KeepsMarker(l) {
      LaunchKeepsRule(t, l, allow);
    } else {
      MarkedIsInside(l.own.value);
      assert !Lawful(Add(t, l, allow), l.run);
    }
  }

  lemma LaunchKeepsRule(t: Tree, l: Launch, allow: seq<string>)
    requires Rule(t) && CanLaunch(t, l, allow)
    requires LOOP_SKILL !in allow
    ensures Rule(Add(t, l, allow))
  {
    var t' := Add(t, l, allow);
    PlaceIsRight(t, l, allow);
    forall run | run in t' ensures Lawful(t', run) {
      if run != l.run { assert Lawful(t, run); }
    }
  }

  /** The place a launch is given: depth 1 outside every session, or depth 2 as the child of a
      depth-1 loop run, which is the session it is inside if it is in one. */
  ghost predicate RightPlace(t: Tree, inside: Option<string>, skill: string, allow: seq<string>, a: Answer, parent: string) {
    || (a == Start(1) && inside.None?)
    || (&& a == Start(2) && skill in allow && skill != OPERATOR_SKILL
        && parent in t && t[parent].depth == 1 && IsLoopRun(t[parent].skill)
        && (inside.Some? ==> inside.value == parent))
  }

  lemma PlaceIsRight(t: Tree, l: Launch, allow: seq<string>)
    requires Rule(t) && CanLaunch(t, l, allow)
    ensures RightPlace(t, l.inside, l.skill, allow, Admitted(l, allow), ParentOf(l, allow))
  {
    if l.viaService {
      ServiceJobIsAChild(t, l.view, l.inside, l.skill, allow);
    } else if l.own.Some? {
      DetachedPlace(t, l, allow);
    } else {
      BeliefIsTrue(t, l.view, l.inside);
    }
  }

  lemma DetachedPlace(t: Tree, l: Launch, allow: seq<string>)
    requires Rule(t) && CanLaunch(t, l, allow) && l.own.Some?
    ensures RightPlace(t, l.inside, l.skill, allow, Admitted(l, allow), ParentOf(l, allow))
  {
    BeliefIsTrue(t, l.own.value, None);
    MarkedIsInside(l.own.value);
    if l.inside.Some? {
      assert Lawful(t, l.inside.value);
    } else {
      MarkedIsInside(l.view);
    }
  }

  /** With no session among its ancestors a command believes what its marker says. */
  lemma MarkedIsInside(v: View)
    requires NoneNamed(v)
    ensures CurrentSession(v).run == SessionFromEnv(v.env).run
    ensures SessionFromEnv(v.env).run != "" ==> CurrentSession(v).depth >= 1
  {
    AncestorExactly(v);
  }

  /** The marker scrubbed from the environment of a detached launch alone: the command is gated as
      the loop run's child, and its run records itself at depth 1 with no parent. */
  lemma ScrubbedDetachLosesParent(t: Tree, parent: string, run: string, skill: string, allow: seq<string>)
    returns (l: Launch)
    requires Rule(t) && parent in t && parent != "" && run != "" && run !in t
    requires t[parent].depth == 1 && t[parent].skill == LOOP_SKILL && t[parent].kind == "task"
    requires skill in allow && skill != "" && skill != OPERATOR_SKILL
    ensures l.run == run && l.inside == Some(parent) && PassesGates(t, l, allow)
    ensures Gate(l.view, skill, allow) == Start(2)
    ensures Add(t, l, allow)[run] == Session(1, "", skill, "task", Some(parent))
  {
    var row := Row(1, 0, parent, 1, LOOP_SKILL, "task");
    var scrubbed := Env("", None);
    var view := View(scrubbed, [row], [1], map[]);
    assert NamesProcess([row][0], 1);
    assert Nearest(view, 0) && IsRowOf(view, 0, parent);
    assert FirstRow([row], 1) == Some(row) && AncestorSession(view.rows, view.ancestors) == Some(row);
    l := Launch(run, skill, "task", view, Some(parent), false, Some(View(scrubbed, [], [], map[])));
  }

  function Grow(t: Tree, launches: seq<Launch>, allow: seq<string>): Tree
    requires AllAdmitted(launches, allow)
    decreases |launches|
  {
    if launches == [] then t else Grow(Add(t, launches[0], allow), launches[1..], allow)
  }

  predicate AllAdmitted(launches: seq<Launch>, allow: seq<string>) {
    forall i :: 0 <= i < |launches| ==> Admitted(launches[i], allow).Start?
  }

  ghost predicate IsGrowth(t: Tree, launches: seq<Launch>, allow: seq<string>)
    requires AllAdmitted(launches, allow)
    decreases |launches|
  {
    launches == []
    || (CanLaunch(t, launches[0], allow) && IsGrowth(Add(t, launches[0], allow), launches[1..], allow))
  }

  lemma {:induction false} GrowthKeepsRule(t: Tree, launches: seq<Launch>, allow: seq<string>)
    requires Rule(t) && LOOP_SKILL !in allow
    requires AllAdmitted(launches, allow) && IsGrowth(t, launches, allow)
    ensures Rule(Grow(t, launches, allow))
    decreases |launches|
  {
    if launches != [] {
      LaunchKeepsRule(t, launches[0], allow);
      GrowthKeepsRule(Add(t, launches[0], allow), launches[1..], allow);
    }
  }

  /** The real nesting of a session: how many sessions enclose it, itself included. */
  ghost predicate RealDepthAtMost(t: Tree, run: string, n: nat)
    decreases n
  {
    run in t ==> n > 0 && (t[run].within.Some? ==> RealDepthAtMost(t, t[run].within.value, n - 1))
  }

  /** Over every sequence of launches, with any environments: no session is deeper than two,
      in ape's records or in fact, and a depth-2 session's parent is a depth-1 loop run. */
  lemma DepthIsAtMostTwo(launches: seq<Launch>, allow: seq<string>, run: string)
    requires LOOP_SKILL !in allow
    requires AllAdmitted(launches, allow) && IsGrowth(map[], launches, allow)
    ensures var t := Grow(map[], launches, allow);
      run in t ==> Lawful(t, run) && RealDepthAtMost(t, run, t[run].depth) && RealDepthAtMost(t, run, 2)
  {
    GrowthKeepsRule(map[], launches, allow);
    var t := Grow(map[], launches, allow);
    if run in t && t[run].within.Some? {
      assert Lawful(t, t[run].within.value);
    }
  }

  /** The allow-list must not hold the loop skill itself: then a command whose marker names a loop
      run whose registry row is gone starts a loop run at depth 2, and one whose marker names that
      run is recorded as its child, although it claims depth 1 for it. */
  lemma LoopInAllowListBreaksRule(a: string, b: string, c: string, allow: seq<string>)
    returns (launches: seq<Launch>)
    requires LOOP_SKILL in allow
    requires IsRunId(a) && IsRunId(b) && IsRunId(c) && a != b && a != c && b != c
    ensures AllAdmitted(launches, allow) && IsGrowth(map[], launches, allow)
    ensures var t := Grow(map[], launches, allow); b in t && c in t && t[c].depth == 2 && t[c].parent == b && t[b].depth == 2
  {
    ServiceEnvNamesRun(a);
    ServiceEnvNamesRun(b);
    var outside := View(Env("", None), [], [], map[]);
    var la := Launch(a, LOOP_SKILL, "task", outside, None, false, None);
    var lb := Launch(b, LOOP_SKILL, "task", View(ServiceEnv(a), [], [], map[a := LOOP_SKILL]), None, false, None);
    var lc := Launch(c, LOOP_SKILL, "task", View(ServiceEnv(b), [], [], map[b := LOOP_SKILL]), None, false, None);
    assert LOOP_SKILL != OPERATOR_SKILL by { assert |LOOP_SKILL| != |OPERATOR_SKILL|; }
    var ta := Add(map[], la, allow);
    var tb := Add(ta, lb, allow);
    var tc := Add(tb, lc, allow);
    PrependLaunch(tb, lc, [], allow);
    PrependLaunch(ta, lb, [lc] + [], allow);
    PrependLaunch(map[], la, [lb] + ([lc] + []), allow);
    launches := [la] + ([lb] + ([lc] + []));
    assert Grow(tc, [], allow) == tc;
  }

  lemma PrependLaunch(t: Tree, l: Launch, rest: seq<Launch>, allow: seq<string>)
    requires CanLaunch(t, l, allow) && AllAdmitted(rest, allow) && IsGrowth(Add(t, l, allow), rest, allow)
    ensures AllAdmitted([l] + rest, allow) && IsGrowth(t, [l] + rest, allow)
    ensures Grow(t, [l] + rest, allow) == Grow(Add(t, l, allow), rest, allow)
  {
    assert ([l] + rest)[1..] == rest;
  }
}
