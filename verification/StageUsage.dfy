/** What a stage's steps are charged for their main transcripts (sessiondriver/scan.go:135-182 and
    the baseline advance in pipeline_interactive.go:661-668): each step reports the transcript's
    running total less the total at the last scan, when that was of the same transcript. */
module StageUsage {

  import opened Options

  /** Costs are exact here: rounding is not the point. */
  datatype Totals = Totals(costUSD: real, input: int, output: int, cacheRead: int, cacheCreation: int,
                           cacheCreation5m: int, cacheCreation1h: int, turns: int)

  const Zero := Totals(0.0, 0, 0, 0, 0, 0, 0, 0)

  datatype Field = CostUSD | Input | Output | CacheRead | CacheCreation | CacheCreation5m | CacheCreation1h | Turns

  function Get(t: Totals, f: Field): real {
    match f
    case CostUSD => t.costUSD
    case Input => t.input as real
    case Output => t.output as real
    case CacheRead => t.cacheRead as real
    case CacheCreation => t.cacheCreation as real
    case CacheCreation5m => t.cacheCreation5m as real
    case CacheCreation1h => t.cacheCreation1h as real
    case Turns => t.turns as real
  }

  function Minus(a: Totals, b: Totals): Totals {
    Totals(a.costUSD - b.costUSD, a.input - b.input, a.output - b.output, a.cacheRead - b.cacheRead,
           a.cacheCreation - b.cacheCreation, a.cacheCreation5m - b.cacheCreation5m,
           a.cacheCreation1h - b.cacheCreation1h, a.turns - b.turns)
  }

  /** Each field is taken from itself, and nothing is left out. */
  lemma MinusIsFieldwise(a: Totals, b: Totals, f: Field)
    ensures Get(Minus(a, b), f) == Get(a, f) - Get(b, f)
    ensures Get(Zero, f) == 0.0
  {
    match f case _ => {}
  }

  /** One step's scan: the transcript, and its total so far unless the scan failed. */
  datatype Scan = Scan(path: string, total: Option<Totals>)
  {
    predicate Succeeds() { path != "" && total.Some? }
  }

  /** The transcript last scanned and its total then. */
  datatype Baseline = Baseline(path: string, totals: Totals)

  const NoBaseline := Baseline("", Zero)

  /** The main session's part of a step's telemetry, and the baseline for the next one. */
  function Charge(b: Baseline, s: Scan): (Totals, Baseline) {
    if !s.Succeeds() then (Zero, b)
    else (Minus(s.total.value, if s.path == b.path then b.totals else Zero), Baseline(s.path, s.total.value))
  }

  function BaselineAfter(scans: seq<Scan>, k: nat): Baseline
    requires k <= |scans|
  {
    if k == 0 then NoBaseline else Charge(BaselineAfter(scans, k - 1), scans[k - 1]).1
  }

  /** What step `k` is charged in one field. */
  function ChargeAt(scans: seq<Scan>, k: nat, f: Field): real
    requires k < |scans|
  {
    Get(Charge(BaselineAfter(scans, k), scans[k]).0, f)
  }

  /** What the first `k` steps are charged together. */
  function Charged(scans: seq<Scan>, k: nat, f: Field): real
    requires k <= |scans|
  {
    if k == 0 then 0.0 else Charged(scans, k - 1, f) + ChargeAt(scans, k - 1, f)
  }

  // ---------------------------------------------------------------------------------------
  // What the stage used: each transcript's last total, once.

  /** The last successful scan of `path` among the first `k`, if there is one. */
  function LastTotal(scans: seq<Scan>, k: nat, path: string): Option<Totals>
    requires k <= |scans|
  {
    if k == 0 then None
    else if scans[k - 1].Succeeds() && scans[k - 1].path == path then scans[k - 1].total
    else LastTotal(scans, k - 1, path)
  }

  function GetLast(scans: seq<Scan>, k: nat, path: string, f: Field): real
    requires k <= |scans|
  {
    var t := LastTotal(scans, k, path);
    if t.Some? then Get(t.value, f) else 0.0
  }

  /** The transcripts of the first `k` scans, each once. */
  function Transcripts(scans: seq<Scan>, k: nat): (ps: seq<string>)
    requires k <= |scans|
    ensures forall p :: p in ps <==> LastTotal(scans, k, p).Some?
    ensures forall i, j :: 0 <= i < j < |ps| ==> ps[i] != ps[j]
  {
    if k == 0 then []
    else
      var ps := Transcripts(scans, k - 1);
      if scans[k - 1].Succeeds() && scans[k - 1].path !in ps then ps + [scans[k - 1].path] else ps
  }

  function SumOver(scans: seq<Scan>, k: nat, ps: seq<string>, f: Field): real
    requires k <= |scans|
  {
    if ps == [] then 0.0
    else SumOver(scans, k, ps[..|ps| - 1], f) + GetLast(scans, k, ps[|ps| - 1], f)
  }

  function Used(scans: seq<Scan>, k: nat, f: Field): real
    requires k <= |scans|
  {
    SumOver(scans, k, Transcripts(scans, k), f)
  }

  /** The transcript of the last successful scan among the first `k`; "" if there is none. */
  function LastPath(scans: seq<Scan>, k: nat): string
    requires k <= |scans|
  {
    if k == 0 then "" else if scans[k - 1].Succeeds() then scans[k - 1].path else LastPath(scans, k - 1)
  }

  /** Scan `i` goes back to a transcript that was scanned before, but not last. */
  predicate Returns(scans: seq<Scan>, i: nat)
    requires i < |scans|
  {
    scans[i].Succeeds() && scans[i].path != LastPath(scans, i) && LastTotal(scans, i, scans[i].path).Some?
  }

  /** No scan goes back to a transcript left before. */
  predicate NeverReturns(scans: seq<Scan>, k: nat)
    requires k <= |scans|
  {
    forall i: nat :: i < k ==> !Returns(scans, i)
  }

  /** What step `k` is charged for a second time: on a return, the total the transcript was left
      at. */
  function TwiceAt(scans: seq<Scan>, k: nat, f: Field): real
    requires k < |scans|
  {
    if Returns(scans, k) then GetLast(scans, k, scans[k].path, f) else 0.0
  }

  function Twice(scans: seq<Scan>, k: nat, f: Field): real
    requires k <= |scans|
  {
    if k == 0 then 0.0 else Twice(scans, k - 1, f) + TwiceAt(scans, k - 1, f)
  }

  lemma {:induction false} BaselineIsLast(scans: seq<Scan>, k: nat)
    requires k <= |scans|
    ensures var b := BaselineAfter(scans, k); b.path != "" ==> LastTotal(scans, k, b.path) == Some(b.totals)
    ensures BaselineAfter(scans, k).path == LastPath(scans, k)
    ensures LastPath(scans, k) == "" ==> BaselineAfter(scans, k) == NoBaseline
  {
    if k > 0 { BaselineIsLast(scans, k - 1); }
  }

  /** What scan `k` adds to its transcript's total. */
  function Growth(scans: seq<Scan>, k: nat, f: Field): real
    requires k < |scans|
  {
    if scans[k].Succeeds() then Get(scans[k].total.value, f) - GetLast(scans, k, scans[k].path, f) else 0.0
  }

  lemma {:induction false} SumGrows(scans: seq<Scan>, k: nat, ps: seq<string>, f: Field)
    requires k < |scans|
    requires forall i, j :: 0 <= i < j < |ps| ==> ps[i] != ps[j]
    ensures SumOver(scans, k + 1, ps, f) == SumOver(scans, k, ps, f) + if scans[k].path in ps then Growth(scans, k, f) else 0.0
    decreases |ps|
  {
    if ps != [] {
      var rest, p := ps[..|ps| - 1], ps[|ps| - 1];
      assert forall i :: 0 <= i < |rest| ==> rest[i] == ps[i];
      SumGrows(scans, k, rest, f);
      assert scans[k].path in ps <==> scans[k].path in rest || scans[k].path == p;
      assert p !in rest;
    }
  }

  lemma UsedGrows(scans: seq<Scan>, k: nat, f: Field)
    requires k < |scans|
    ensures Used(scans, k + 1, f) == Used(scans, k, f) + Growth(scans, k, f)
  {
    var ps := Transcripts(scans, k);
    SumGrows(scans, k, ps, f);
    if scans[k].Succeeds() && scans[k].path !in ps {
      assert (ps + [scans[k].path])[..|ps|] == ps;
    }
  }

  /** What a step is charged: what it added to its transcript, and on a return also the total the
      transcript was left at. */
  lemma ChargeIsGrowth(scans: seq<Scan>, k: nat, f: Field)
    requires k < |scans|
    ensures ChargeAt(scans, k, f) == Growth(scans, k, f) + TwiceAt(scans, k, f)
  {
    var b := BaselineAfter(scans, k);
    BaselineIsLast(scans, k);
    MinusIsFieldwise(Zero, Zero, f);
    if scans[k].Succeeds() {
      MinusIsFieldwise(scans[k].total.value, if scans[k].path == b.path then b.totals else Zero, f);
    }
  }

  /** The charges of a stage are what its transcripts hold, each at its last scan and counted
      once, and besides that only what the returns count twice. */
  lemma {:induction false} ChargesTelescope(scans: seq<Scan>, k: nat, f: Field)
    requires k <= |scans|
    ensures Charged(scans, k, f) == Used(scans, k, f) + Twice(scans, k, f)
  {
    if k > 0 {
      var p := k - 1;
      ChargesTelescope(scans, p, f);
      UsedGrows(scans, p, f);
      ChargeIsGrowth(scans, p, f);
      calc {
        Charged(scans, k, f);
        Charged(scans, p, f) + ChargeAt(scans, p, f);
        Used(scans, p, f) + Growth(scans, p, f) + (Twice(scans, p, f) + TwiceAt(scans, p, f));
        Used(scans, k, f) + Twice(scans, k, f);
      }
    }
  }

  /** In a stage that never returns to a transcript, the charges are the transcripts' totals. */
  lemma NeverReturnsChargesOnce(scans: seq<Scan>, k: nat, f: Field)
    requires k <= |scans| && NeverReturns(scans, k)
    ensures Charged(scans, k, f) == Used(scans, k, f)
  {
    ChargesTelescope(scans, k, f);
    NothingTwice(scans, k, f);
  }

  lemma {:induction false} NothingTwice(scans: seq<Scan>, k: nat, f: Field)
    requires k <= |scans| && NeverReturns(scans, k)
    ensures Twice(scans, k, f) == 0.0
  {
    if k > 0 { NothingTwice(scans, k - 1, f); }
  }

  /** Where every scan finds something in a field (a turn, say), the charges in that field are
      the transcripts' totals exactly when no scan goes back to a transcript left before. */
  lemma ChargedOnceExactly(scans: seq<Scan>, k: nat, f: Field)
    requires k <= |scans|
    requires forall i: nat :: i < k && scans[i].Succeeds() ==> Get(scans[i].total.value, f) > 0.0
    ensures Charged(scans, k, f) == Used(scans, k, f) <==> NeverReturns(scans, k)
  {
    ChargesTelescope(scans, k, f);
    TwiceIsPositive(scans, k, f);
    if NeverReturns(scans, k) { NothingTwice(scans, k, f); }
  }

  lemma {:induction false} TwiceIsPositive(scans: seq<Scan>, k: nat, f: Field)
    requires k <= |scans|
    requires forall i: nat :: i < k && scans[i].Succeeds() ==> Get(scans[i].total.value, f) > 0.0
    ensures Twice(scans, k, f) >= 0.0
    ensures !NeverReturns(scans, k) ==> Twice(scans, k, f) > 0.0
  {
    if k > 0 {
      TwiceIsPositive(scans, k - 1, f);
      if Returns(scans, k - 1) { LastIsPositive(scans, k - 1, scans[k - 1].path, f); }
    }
  }

  lemma {:induction false} LastIsPositive(scans: seq<Scan>, k: nat, path: string, f: Field)
    requires k <= |scans|
    requires forall i: nat :: i < k && scans[i].Succeeds() ==> Get(scans[i].total.value, f) > 0.0
    ensures LastTotal(scans, k, path).Some? ==> Get(LastTotal(scans, k, path).value, f) > 0.0
  {
    if k > 0 { LastIsPositive(scans, k - 1, path, f); }
  }

  /** A step on `a`, one on `b` and one on `a` again: what `a` held first is charged twice. */
  lemma ReturnIsChargedTwice(a: string, b: string, t: Totals, u: Totals, t': Totals, f: Field)
    requires a != b && a != "" && b != ""
    ensures
      var scans := [Scan(a, Some(t)), Scan(b, Some(u)), Scan(a, Some(t'))];
      Charged(scans, 3, f) == Used(scans, 3, f) + Get(t, f)
  {
    var scans := [Scan(a, Some(t)), Scan(b, Some(u)), Scan(a, Some(t'))];
    assert BaselineAfter(scans, 1) == Baseline(a, t);
    assert BaselineAfter(scans, 2) == Baseline(b, u);
    assert LastTotal(scans, 1, b) == None;
    assert LastTotal(scans, 1, a) == Some(t);
    assert LastTotal(scans, 2, a) == Some(t);
    assert Twice(scans, 1, f) == 0.0;
    assert Twice(scans, 2, f) == 0.0;
    ChargesTelescope(scans, 3, f);
  }
}
