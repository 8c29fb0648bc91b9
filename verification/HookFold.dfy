/** Which transcript a step is charged for (pipeline_interactive.go:98-126, 308-418, 550-596,
    625-671): the hook events of a stage, folded into the main transcript and the sub-agent
    captures. */
module HookFold {

  import opened Options
  import opened StageUsage

  datatype Kind = UserPromptSubmit | SubagentStart | SubagentStop | Stop | OtherKind

  /** A hook event: the step and agent it was sent with, and what its payload says. */
  datatype Hook = Hook(kind: Kind, step: string, agentID: string,
                       path: string, session: string, payloadAgent: string, agentPath: string)
  {
    predicate OfSubagent() { kind == SubagentStart || kind == SubagentStop }

    function Agent(): string { if agentID != "" then agentID else payloadAgent }
  }

  datatype SubSession = SubSession(transcript: string, parent: string)

  datatype Event =
    | Fed(hook: Hook)
    | StepStarted(name: string)
    | StepEnded
    | Measured(total: Option<Totals>)

  datatype State = State(step: string, transcript: string, session: string,
                         subs: map<string, SubSession>, baseline: Baseline)

  /** A stage begins: only the active step's label is kept. */
  function Begin(step: string): State {
    State(step, "", "", map[], NoBaseline)
  }

  /** One event's effect. */
  function Next(s: State, e: Event): State {
    match e
    case Fed(h) => AfterHook(s, h)
    case StepStarted(name) => s.(step := name, subs := map[])
    case StepEnded => s.(step := "")
    case Measured(total) => s.(baseline := Charge(s.baseline, Scan(s.transcript, total)).1)
  }

  predicate NamesMain(h: Hook, activeStep: string) {
    h.kind == UserPromptSubmit && h.path != "" && (h.step != "" || activeStep != "")
  }

  predicate SeedsMain(h: Hook) {
    (h.kind == Stop || h.kind == OtherKind) && h.path != ""
  }

  predicate Captures(h: Hook, id: string) {
    h.OfSubagent() && h.Agent() == id && id != "" && h.agentPath != ""
  }

  function AfterHook(s: State, h: Hook): State {
    if NamesMain(h, s.step) || (SeedsMain(h) && s.transcript == "") then
      s.(transcript := h.path, session := if h.session != "" then h.session else s.session)
    else if Captures(h, h.Agent()) then
      var parent := if h.Agent() in s.subs then s.subs[h.Agent()].parent else "";
      s.(subs := s.subs[h.Agent() := SubSession(h.agentPath, if h.session != "" then h.session else parent)])
    else s
  }

  /** The runner's per-stage state, changed by hooks, step boundaries and scans. */
  class InteractiveCore {
    var activeStep: string
    var activeTranscript: string
    var activeSessionID: string
    var cumulativeFor: string
    var stageCumulative: Totals
    var subSessions: map<string, SubSession>

    ghost function Now(): State
      reads this
    {
      State(activeStep, activeTranscript, activeSessionID, subSessions, Baseline(cumulativeFor, stageCumulative))
    }

    constructor ()
      ensures Now() == Begin("")
    {
      activeStep, activeTranscript, activeSessionID, cumulativeFor := "", "", "", "";
      stageCumulative, subSessions := Zero, map[];
    }

    method ResetStageTelemetry()
      modifies this
      ensures Now() == Begin(old(activeStep))
    {
      activeTranscript, activeSessionID, cumulativeFor := "", "", "";
      stageCumulative, subSessions := Zero, map[];
    }

    method OnStepStart(name: string)
      modifies this
      ensures Now() == Next(old(Now()), StepStarted(name))
    {
      activeStep := name;
      subSessions := map[];
    }

    method OnStepEnd()
      modifies this
      ensures Now() == Next(old(Now()), StepEnded)
    {
      activeStep := "";
    }

    method FeedHook(h: Hook)
      modifies this
      ensures Now() == Next(old(Now()), Fed(h))
    {
      var step := h.step;
      if step == "" { step := activeStep; }
      match h.kind {
        case UserPromptSubmit =>
          if h.path != "" && step != "" {
            activeTranscript := h.path;
            if h.session != "" { activeSessionID := h.session; }
          }
        case SubagentStart =>
          CaptureSubagent(h);
        case SubagentStop =>
          CaptureSubagent(h);
        case _ =>
          if h.path != "" && activeTranscript == "" {
            activeTranscript := h.path;
            if h.session != "" { activeSessionID := h.session; }
          }
      }
    }

    method CaptureSubagent(h: Hook)
      requires h.OfSubagent()
      modifies this
      ensures Now() == Next(old(Now()), Fed(h))
    {
      var agentID := h.agentID;
      if agentID == "" { agentID := h.payloadAgent; }
      if agentID != "" && h.agentPath != "" {
        var sub := if agentID in subSessions then subSessions[agentID] else SubSession("", "");
        sub := sub.(transcript := h.agentPath);
        if h.session != "" { sub := sub.(parent := h.session); }
        subSessions := subSessions[agentID := sub];
      }
    }

    /** The main session's usage for the step; `total` is what the scan of the transcript gives,
        if it succeeds. */
    method StepTelemetry(total: Option<Totals>) returns (used: Totals)
      modifies this
      ensures Now() == Next(old(Now()), Measured(total))
      ensures used == Charge(old(Now()).baseline, Scan(old(activeTranscript), total)).0
    {
      if activeTranscript == "" || total.None? { return Zero; }
      var prev := stageCumulative;
      if activeTranscript != cumulativeFor { prev := Zero; }
      used := Minus(total.value, prev);
      stageCumulative := total.value;
      cumulativeFor := activeTranscript;
    }
  }

  // ---------------------------------------------------------------------------------------
  // A stage is a sequence of events; `step` is the label active when it began.

  function After(step: string, es: seq<Event>, k: nat): State
    requires k <= |es|
  {
    if k == 0 then Begin(step) else Next(After(step, es, k - 1), es[k - 1])
  }

  /** A step is active before event `k`: the last boundary before it was a start. */
  function ActiveStep(step: string, es: seq<Event>, k: nat): string
    requires k <= |es|
  {
    if k == 0 then step
    else if es[k - 1].StepStarted? then es[k - 1].name
    else if es[k - 1].StepEnded? then ""
    else ActiveStep(step, es, k - 1)
  }

  /** Event `i` is a prompt that names a transcript within a step. */
  predicate NamesAt(step: string, es: seq<Event>, i: nat)
    requires i < |es|
  {
    && es[i].Fed? && es[i].hook.kind == UserPromptSubmit && es[i].hook.path != ""
    && (es[i].hook.step != "" || ActiveStep(step, es, i) != "")
  }

  predicate SeedsAt(es: seq<Event>, i: nat)
    requires i < |es|
  {
    es[i].Fed? && es[i].hook.kind in {Stop, OtherKind} && es[i].hook.path != ""
  }

  predicate NoNameIn(step: string, es: seq<Event>, lo: nat, hi: nat)
    requires hi <= |es|
  {
    forall j: nat :: lo <= j < hi ==> !NamesAt(step, es, j)
  }

  predicate NoSeedBefore(es: seq<Event>, hi: nat)
    requires hi <= |es|
  {
    forall j: nat :: j < hi ==> !SeedsAt(es, j)
  }

  /** Event `i` decides the main transcript of the first `k` events: the last prompt to name one
      within a step, or, if none does, the first other main-session event to carry one. */
  predicate Decides(step: string, es: seq<Event>, k: nat, i: nat)
    requires k <= |es|
  {
    i < k && (
      || (NamesAt(step, es, i) && NoNameIn(step, es, i + 1, k))
      || (NoNameIn(step, es, 0, k) && SeedsAt(es, i) && NoSeedBefore(es, i)))
  }

  lemma {:induction false} StepIsActive(step: string, es: seq<Event>, k: nat)
    requires k <= |es|
    ensures After(step, es, k).step == ActiveStep(step, es, k)
  {
    if k > 0 { StepIsActive(step, es, k - 1); }
  }

  lemma {:induction false} NothingYet(step: string, es: seq<Event>, k: nat)
    requires k <= |es| && NoNameIn(step, es, 0, k) && NoSeedBefore(es, k)
    ensures After(step, es, k).transcript == ""
  {
    if k > 0 {
      NothingYet(step, es, k - 1);
      StepIsActive(step, es, k - 1);
      assert !NamesAt(step, es, k - 1) && !SeedsAt(es, k - 1);
    }
  }

  lemma {:induction false} DecidesMain(step: string, es: seq<Event>, k: nat, i: nat)
    requires k <= |es| && Decides(step, es, k, i)
    ensures After(step, es, k).transcript == es[i].hook.path
    decreases k
  {
    var p := k - 1;
    StepIsActive(step, es, p);
    if i < p {
      assert !NamesAt(step, es, p);
      DecidesMain(step, es, p, i);
    } else if !NamesAt(step, es, p) {
      NothingYet(step, es, p);
    }
  }

  lemma {:induction false} SomethingDecides(step: string, es: seq<Event>, k: nat)
    requires k <= |es| && (forall i: nat :: !Decides(step, es, k, i))
    ensures NoNameIn(step, es, 0, k) && NoSeedBefore(es, k)
    decreases k
  {
    if k > 0 {
      var p := k - 1;
      assert !Decides(step, es, k, p);
      forall i: nat ensures !Decides(step, es, p, i) {
        assert !Decides(step, es, k, i);
      }
      SomethingDecides(step, es, p);
    }
  }

  /** The main transcript of a stage so far: the one the deciding event names, and none at all
      exactly when no event decides. */
  lemma MainTranscript(step: string, es: seq<Event>, k: nat)
    requires k <= |es|
    ensures forall i: nat :: Decides(step, es, k, i) ==> After(step, es, k).transcript == es[i].hook.path
    ensures After(step, es, k).transcript != "" <==> exists i: nat :: Decides(step, es, k, i)
  {
    forall i: nat | Decides(step, es, k, i) ensures After(step, es, k).transcript == es[i].hook.path {
      DecidesMain(step, es, k, i);
    }
    if forall i: nat :: !Decides(step, es, k, i) {
      SomethingDecides(step, es, k);
      NothingYet(step, es, k);
    }
  }

  /** Once a transcript is known, nothing but a prompt within a step replaces it. */
  lemma OnlyPromptsReplace(step: string, es: seq<Event>, k: nat)
    requires k < |es| && After(step, es, k).transcript != ""
    ensures After(step, es, k + 1).transcript != After(step, es, k).transcript ==> NamesAt(step, es, k)
  {
    StepIsActive(step, es, k);
  }

  /** A prompt outside any step is the one main-session event that carries a path and yet decides
      nothing: a stage that has seen only such prompts has no transcript. */
  lemma PromptOutsideStepIsIgnored(step: string, es: seq<Event>)
    requires forall i: nat :: i < |es| && es[i].Fed? ==>
      es[i].hook.kind == UserPromptSubmit && es[i].hook.step == "" && ActiveStep(step, es, i) == ""
    ensures After(step, es, |es|).transcript == ""
  {
    NothingYet(step, es, |es|);
  }

  // The session id kept with it.

  /** Event `i` sets the main transcript: it names one, or seeds it when nothing has. */
  predicate SetsMain(step: string, es: seq<Event>, i: nat)
    requires i < |es|
  {
    NamesAt(step, es, i) || (SeedsAt(es, i) && NoSeedBefore(es, i) && NoNameIn(step, es, 0, i))
  }

  predicate SetsSession(step: string, es: seq<Event>, i: nat)
    requires i < |es|
  {
    SetsMain(step, es, i) && es[i].hook.session != ""
  }

  predicate NoSessionIn(step: string, es: seq<Event>, lo: nat, hi: nat)
    requires hi <= |es|
  {
    forall j: nat :: lo <= j < hi ==> !SetsSession(step, es, j)
  }

  predicate LastSession(step: string, es: seq<Event>, k: nat, i: nat)
    requires k <= |es|
  {
    i < k && SetsSession(step, es, i) && NoSessionIn(step, es, i + 1, k)
  }

  /** The session id is that of the last event to set the transcript and carry one. */
  lemma {:induction false} MainSession(step: string, es: seq<Event>, k: nat)
    requires k <= |es|
    ensures forall i: nat :: LastSession(step, es, k, i) ==> After(step, es, k).session == es[i].hook.session
    ensures NoSessionIn(step, es, 0, k) ==> After(step, es, k).session == ""
  {
    if k > 0 {
      var p := k - 1;
      MainSession(step, es, p);
      SetsExactly(step, es, p);
      assert SetsSession(step, es, p) <==> SetsMain(step, es, p) && es[p].hook.session != "";
      forall i: nat | LastSession(step, es, k, i) ensures After(step, es, k).session == es[i].hook.session {
        if i < p {
          assert !SetsSession(step, es, p);
          assert LastSession(step, es, p, i);
        }
      }
    }
  }

  lemma SetsExactly(step: string, es: seq<Event>, i: nat)
    requires i < |es|
    ensures SetsMain(step, es, i) <==>
      es[i].Fed? && (NamesMain(es[i].hook, After(step, es, i).step) || (SeedsMain(es[i].hook) && After(step, es, i).transcript == ""))
  {
    MainTranscript(step, es, i);
    StepIsActive(step, es, i);
    if NoNameIn(step, es, 0, i) && NoSeedBefore(es, i) {
      NothingYet(step, es, i);
    } else if forall j: nat :: !Decides(step, es, i, j) {
      SomethingDecides(step, es, i);
    }
  }

  // ---------------------------------------------------------------------------------------
  // The sub-agent captures.

  predicate CapturesAt(es: seq<Event>, i: nat, id: string)
    requires i < |es|
  {
    && es[i].Fed? && es[i].hook.kind in {SubagentStart, SubagentStop} && es[i].hook.agentPath != ""
    && id != "" && (es[i].hook.agentID == id || (es[i].hook.agentID == "" && es[i].hook.payloadAgent == id))
  }

  /** Event `i` and none after it starts a step before `k`. */
  predicate SameStep(es: seq<Event>, i: nat, k: nat)
    requires k <= |es|
  {
    forall j: nat :: i <= j < k ==> !es[j].StepStarted?
  }

  predicate NoCaptureIn(es: seq<Event>, lo: nat, hi: nat, id: string)
    requires hi <= |es|
  {
    forall j: nat :: lo <= j < hi ==> !CapturesAt(es, j, id)
  }

  /** Event `i` is the last to capture `id` in the step going on at `k`. */
  predicate LastCapture(es: seq<Event>, k: nat, i: nat, id: string)
    requires k <= |es|
  {
    i < k && CapturesAt(es, i, id) && SameStep(es, i, k) && NoCaptureIn(es, i + 1, k, id)
  }

  /** A sub-agent is on record exactly when this step captured it, with the last path captured. */
  lemma {:induction false} SubIsLastCapture(step: string, es: seq<Event>, k: nat, id: string)
    requires k <= |es|
    ensures id in After(step, es, k).subs <==> exists i: nat :: LastCapture(es, k, i, id)
    ensures forall i: nat :: LastCapture(es, k, i, id) ==>
      id in After(step, es, k).subs && After(step, es, k).subs[id].transcript == es[i].hook.agentPath
  {
    if k > 0 {
      var p := k - 1;
      SubIsLastCapture(step, es, p, id);
      forall i: nat | LastCapture(es, k, i, id)
        ensures id in After(step, es, k).subs && After(step, es, k).subs[id].transcript == es[i].hook.agentPath
      {
        if i < p {
          assert !es[p].StepStarted? && !CapturesAt(es, p, id);
          assert LastCapture(es, p, i, id);
        }
      }
      if id in After(step, es, k).subs {
        if CapturesAt(es, p, id) {
          assert LastCapture(es, k, p, id);
        } else {
          var i: nat :| LastCapture(es, p, i, id);
          assert LastCapture(es, k, i, id);
        }
      }
    }
  }

  predicate ParentAt(es: seq<Event>, i: nat, id: string)
    requires i < |es|
  {
    CapturesAt(es, i, id) && es[i].hook.session != ""
  }

  predicate NoParentIn(es: seq<Event>, lo: nat, hi: nat, id: string)
    requires hi <= |es|
  {
    forall j: nat :: lo <= j < hi ==> !ParentAt(es, j, id)
  }

  predicate LastParent(es: seq<Event>, k: nat, i: nat, id: string)
    requires k <= |es|
  {
    i < k && ParentAt(es, i, id) && SameStep(es, i, k) && NoParentIn(es, i + 1, k, id)
  }

  /** Its parent session is the last one a capture of this step carried. */
  lemma {:induction false} SubParent(step: string, es: seq<Event>, k: nat, id: string)
    requires k <= |es|
    ensures forall i: nat :: LastParent(es, k, i, id) ==>
      id in After(step, es, k).subs && After(step, es, k).subs[id].parent == es[i].hook.session
    ensures id in After(step, es, k).subs && After(step, es, k).subs[id].parent != "" ==>
      exists i: nat :: LastParent(es, k, i, id)
  {
    if k > 0 {
      var p := k - 1;
      SubParent(step, es, p, id);
      forall i: nat | LastParent(es, k, i, id)
        ensures id in After(step, es, k).subs && After(step, es, k).subs[id].parent == es[i].hook.session
      {
        if i < p {
          assert !es[p].StepStarted? && !ParentAt(es, p, id);
          assert LastParent(es, p, i, id);
        }
      }
      if id in After(step, es, k).subs && After(step, es, k).subs[id].parent != "" {
        if ParentAt(es, p, id) {
          assert LastParent(es, k, p, id);
        } else {
          var i: nat :| LastParent(es, p, i, id);
          assert LastParent(es, k, i, id);
        }
      }
    }
  }

  // ---------------------------------------------------------------------------------------
  // What the stage is charged.

  /** The scans of the first `k` events: each of the transcript known by then. */
  function Scans(step: string, es: seq<Event>, k: nat): seq<Scan>
    requires k <= |es|
  {
    if k == 0 then []
    else if es[k - 1].Measured? then
      Scans(step, es, k - 1) + [Scan(After(step, es, k - 1).transcript, es[k - 1].total)]
    else Scans(step, es, k - 1)
  }

  /** What `StepTelemetry` returned in the first `k` events, added up in one field. */
  function Returned(step: string, es: seq<Event>, k: nat, f: Field): real
    requires k <= |es|
  {
    if k == 0 then 0.0
    else
      var s := After(step, es, k - 1);
      Returned(step, es, k - 1, f) +
        if es[k - 1].Measured? then Get(Charge(s.baseline, Scan(s.transcript, es[k - 1].total)).0, f) else 0.0
  }

  lemma {:induction false} PrefixCharges(a: seq<Scan>, s: Scan, k: nat, f: Field)
    requires k <= |a|
    ensures BaselineAfter(a + [s], k) == BaselineAfter(a, k)
    ensures Charged(a + [s], k, f) == Charged(a, k, f)
  {
    if k > 0 { PrefixCharges(a, s, k - 1, f); }
  }

  lemma {:induction false} ReturnedIsCharged(step: string, es: seq<Event>, k: nat, f: Field)
    requires k <= |es|
    ensures var scans := Scans(step, es, k);
      Returned(step, es, k, f) == Charged(scans, |scans|, f)
      && After(step, es, k).baseline == BaselineAfter(scans, |scans|)
  {
    if k > 0 {
      ReturnedIsCharged(step, es, k - 1, f);
      if es[k - 1].Measured? {
        var s, before := After(step, es, k - 1), Scans(step, es, k - 1);
        var scan := Scan(s.transcript, es[k - 1].total);
        PrefixCharges(before, scan, |before|, f);
        assert Scans(step, es, k) == before + [scan];
        assert BaselineAfter(before + [scan], |before|) == s.baseline;
        assert ChargeAt(before + [scan], |before|, f) == Get(Charge(s.baseline, scan).0, f);
      }
    }
  }

  /** Over a whole stage of hooks, steps and scans, what the steps are charged is what the
      transcripts held when last scanned, plus what returns to an earlier transcript count
      twice, and nothing when there is none. */
  lemma StageChargesTelescope(step: string, es: seq<Event>, f: Field)
    ensures var scans := Scans(step, es, |es|);
      Returned(step, es, |es|, f) == Used(scans, |scans|, f) + Twice(scans, |scans|, f)
    ensures var scans := Scans(step, es, |es|);
      NeverReturns(scans, |scans|) ==> Returned(step, es, |es|, f) == Used(scans, |scans|, f)
  {
    var scans := Scans(step, es, |es|);
    ReturnedIsCharged(step, es, |es|, f);
    ChargesTelescope(scans, |scans|, f);
    if NeverReturns(scans, |scans|) { NothingTwice(scans, |scans|, f); }
  }
}
