/** Masking inline code spans in Markdown prose (check-docs-links.py; section 6.1 of the
    CommonMark Spec 0.31.2, cut off at a blank line). */
module CodeSpans {

  import opened Options
  import opened Scanning

  const TICK := '`'
  const MARK := '\U{E000}'

  function Backticks(n: nat): string { seq(n, _ => TICK) }

  /** Where the run of backticks at `i` ends. */
  function RunEnd(s: string, i: nat): (e: nat)
    requires i <= |s|
    ensures i <= e <= |s|
    ensures forall k :: i <= k < e ==> s[k] == TICK
    ensures e < |s| ==> s[e] != TICK
  {
    SkipRun(s, i, TICK)
  }

  predicate BlankLineAt(s: string, i: int) { 0 <= i && i + 1 < |s| && s[i] == '\n' && s[i + 1] == '\n' }

  predicate NoBlankLine(s: string, from: nat, to: nat) {
    forall i :: from <= i < to && i + 1 < |s| ==> !(s[i] == s[i + 1] == '\n')
  }

  /** `s` has a whole run of exactly `n` backticks at `i`, when nothing before `i` joins it. */
  predicate RunAt(s: string, i: nat, n: nat) {
    && n > 0 && i + n <= |s|
    && (forall k :: i <= k < i + n ==> s[k] == TICK)
    && (i + n < |s| ==> s[i + n] != TICK)
  }

  /** Looking on from `from`, a run of exactly `n` backticks stands at `j`, before a blank line. */
  predicate ClosesAt(s: string, from: nat, j: nat, n: nat) {
    && from <= j && RunAt(s, j, n)
    && (from < j ==> s[j - 1] != TICK)
    && NoBlankLine(s, from, j)
  }

  ghost predicate NeverCloses(s: string, from: nat, n: nat) {
    forall j: nat :: !ClosesAt(s, from, j, n)
  }

  ghost predicate ClosesFirstAt(s: string, from: nat, j: nat, n: nat) {
    ClosesAt(s, from, j, n) && forall k :: from <= k < j ==> !ClosesAt(s, from, k, n)
  }

  /** Scanning for the closer. */
  function Find(s: string, i: nat, n: nat): (r: Option<nat>)
    requires i <= |s| && n > 0
    ensures r.Some? ==> i <= r.value && r.value + n <= |s|
    decreases |s| - i
  {
    if i == |s| || BlankLineAt(s, i) then None
    else
      var e := RunEnd(s, i);
      if e - i == n then Some(i) else Find(s, if e == i then i + 1 else e, n)
  }

  lemma RunEndIs(s: string, i: nat, n: nat)
    requires RunAt(s, i, n)
    ensures RunEnd(s, i) == i + n
  {
  }

  /** One step of the scan passes no closer. */
  lemma StepPassesNoCloser(s: string, i: nat, k: nat, n: nat, j: nat)
    requires i < |s| && n > 0 && !BlankLineAt(s, i) && RunEnd(s, i) - i != n
    requires k == if RunEnd(s, i) == i then i + 1 else RunEnd(s, i)
    ensures ClosesAt(s, i, j, n) <==> ClosesAt(s, k, j, n)
  {
    if ClosesAt(s, i, j, n) {
      if j == i { RunEndIs(s, i, n); }
    }
    if ClosesAt(s, k, j, n) {
      assert s[j] == TICK;
      forall p | i <= p < j ensures !BlankLineAt(s, p) { }
    }
  }

  /** The scan finds the first closer, or there is none. */
  lemma {:induction false} FindIsFirst(s: string, i: nat, n: nat)
    requires i <= |s| && n > 0
    ensures Find(s, i, n).Some? ==> ClosesFirstAt(s, i, Find(s, i, n).value, n)
    ensures Find(s, i, n).None? ==> NeverCloses(s, i, n)
    decreases |s| - i
  {
    if i < |s| && !BlankLineAt(s, i) {
      var e := RunEnd(s, i);
      if e - i != n {
        var k := if e == i then i + 1 else e;
        FindIsFirst(s, k, n);
        forall j: nat ensures ClosesAt(s, i, j, n) <==> ClosesAt(s, k, j, n) {
          StepPassesNoCloser(s, i, k, n, j);
        }
      }
    } else if i < |s| {
      assert s[i] != TICK;
    }
  }

  lemma FirstCloserIsFound(s: string, i: nat, j: nat, n: nat)
    requires ClosesFirstAt(s, i, j, n)
    ensures Find(s, i, n) == Some(j)
  {
    FindIsFirst(s, i, n);
  }

  /** The text from `i` on with every span replaced by one mark. */
  function MaskFrom(s: string, i: nat): string
    requires i <= |s|
    decreases |s| - i
  {
    if i == |s| then ""
    else if s[i] != TICK then [s[i]] + MaskFrom(s, i + 1)
    else
      var e := RunEnd(s, i);
      var end := Find(s, e, e - i);
      if end.None? then Backticks(e - i) + MaskFrom(s, e)
      else [MARK] + MaskFrom(s, end.value + (e - i))
  }

  function Mask(s: string): string { MaskFrom(s, 0) }

  /** The mask from `i` on is `shown` and then the mask from `k` on. */
  predicate GoesOn(s: string, i: nat, shown: string, k: nat) {
    i < k <= |s| && MaskFrom(s, i) == shown + MaskFrom(s, k)
  }

  lemma GoesOnLiteral(s: string, i: nat)
    requires i < |s| && s[i] != TICK
    ensures GoesOn(s, i, [s[i]], i + 1)
  {
  }

  lemma GoesOnUnfound(s: string, i: nat, n: nat)
    requires RunAt(s, i, n) && Find(s, i + n, n).None?
    ensures GoesOn(s, i, Backticks(n), i + n)
  {
    RunEndIs(s, i, n);
  }

  lemma GoesOnFound(s: string, i: nat, n: nat, j: nat)
    requires RunAt(s, i, n) && Find(s, i + n, n) == Some(j)
    ensures GoesOn(s, i, [MARK], j + n)
  {
    RunEndIs(s, i, n);
  }

  // ---------------------------------------------------------------------------------------
  // The loops.

  method FindBlankLine(s: string, start: nat) returns (limit: nat)
    requires start <= |s|
    ensures start <= limit <= |s| && NoBlankLine(s, start, limit)
    ensures limit < |s| ==> BlankLineAt(s, limit)
  {
    limit := start;
    while limit < |s| && !BlankLineAt(s, limit)
      invariant start <= limit <= |s| && NoBlankLine(s, start, limit)
    {
      limit := limit + 1;
    }
  }

  /** The loop that looks for a span's closer, stopping at the end of the paragraph. */
  method ClosingRun(s: string, start: nat, n: nat) returns (r: Option<nat>)
    requires start <= |s| && n > 0
    ensures r == Find(s, start, n)
  {
    var limit := FindBlankLine(s, start);
    var i := start;
    while i < limit
      invariant start <= i <= limit
      invariant Find(s, start, n) == Find(s, i, n)
      decreases limit - i
    {
      if s[i] != TICK {
        i := i + 1;
        continue;
      }
      var m := RunEnd(s, i) - i;
      assert limit < |s| ==> s[limit] != TICK;
      if m == n && i + m <= limit {
        return Some(i);
      }
      i := i + m;
    }
    r := None;
  }

  /** `out` is the mask of the text up to `i`. */
  predicate MaskedSoFar(s: string, i: nat, out: string) {
    i <= |s| && out + MaskFrom(s, i) == Mask(s)
  }

  lemma Advance(s: string, i: nat, out: string, shown: string, k: nat)
    requires MaskedSoFar(s, i, out) && GoesOn(s, i, shown, k)
    ensures MaskedSoFar(s, k, out + shown)
  {
    var rest := MaskFrom(s, k);
    assert out + (shown + rest) == (out + shown) + rest;
  }

  lemma MaskedToTheEnd(s: string, out: string)
    requires MaskedSoFar(s, |s|, out)
    ensures out == Mask(s)
  {
    assert MaskFrom(s, |s|) == "" && out + "" == out;
  }

  /** What the mask shows at `i`, and where it goes on. */
  method NextPiece(prose: string, i: nat) returns (shown: string, k: nat)
    requires i < |prose|
    ensures GoesOn(prose, i, shown, k)
  {
    if prose[i] != TICK {
      GoesOnLiteral(prose, i);
      return [prose[i]], i + 1;
    }
    var e := RunEnd(prose, i);
    var n := e - i;
    assert RunAt(prose, i, n);
    var end := ClosingRun(prose, e, n);
    if end.None? {
      GoesOnUnfound(prose, i, n);
      return Backticks(n), e;   // nothing closes them, so they stay
    }
    GoesOnFound(prose, i, n, end.value);
    return [MARK], end.value + n;
  }

  method MaskCodeSpans(prose: string) returns (out: string)
    ensures out == Mask(prose)
  {
    out := "";
    var i := 0;
    assert out + Mask(prose) == Mask(prose);
    while i < |prose|
      invariant 0 <= i <= |prose| && MaskedSoFar(prose, i, out)
    {
      var shown, k := NextPiece(prose, i);
      Advance(prose, i, out, shown, k);
      out, i := out + shown, k;
    }
    MaskedToTheEnd(prose, out);
  }

  // ---------------------------------------------------------------------------------------
  // What the mask means: the one way to split a text into pieces.

  datatype Piece =
    | Literal(c: char)
    | Unclosed(n: nat)
    | Span(n: nat, inner: nat)     // n backticks, inner characters, n backticks

  function Length(p: Piece): nat {
    match p
    case Literal(_) => 1
    case Unclosed(n) => n
    case Span(n, inner) => n + inner + n
  }

  function Shown(p: Piece): string {
    match p
    case Literal(c) => [c]
    case Unclosed(n) => Backticks(n)
    case Span(_, _) => [MARK]
  }

  function ShownText(ps: seq<Piece>): string { if ps == [] then "" else Shown(ps[0]) + ShownText(ps[1..]) }

  /** The piece at `i`: a character that is no backtick; a whole run that nothing after it
      closes; or a whole run up to the first run that closes it. */
  ghost predicate PieceAt(s: string, i: nat, p: Piece) {
    match p
    case Literal(c) => i < |s| && s[i] == c && c != TICK
    case Unclosed(n) => RunAt(s, i, n) && NeverCloses(s, i + n, n)
    case Span(n, inner) => RunAt(s, i, n) && ClosesFirstAt(s, i + n, i + n + inner, n)
  }

  /** The pieces, laid end to end from `i`, are the text from `i` on. */
  ghost predicate Splits(s: string, i: nat, ps: seq<Piece>)
    decreases |ps|
  {
    if ps == [] then i == |s|
    else PieceAt(s, i, ps[0]) && Splits(s, i + Length(ps[0]), ps[1..])
  }

  function FirstPiece(s: string, i: nat): (p: Piece)
    requires i < |s|
    ensures 0 < Length(p) <= |s| - i
  {
    if s[i] != TICK then Literal(s[i])
    else
      var e := RunEnd(s, i);
      var end := Find(s, e, e - i);
      if end.None? then Unclosed(e - i) else Span(e - i, end.value - e)
  }

  lemma FirstPieceIsThere(s: string, i: nat)
    requires i < |s|
    ensures PieceAt(s, i, FirstPiece(s, i))
  {
    if s[i] == TICK { FindIsFirst(s, RunEnd(s, i), RunEnd(s, i) - i); }
  }

  lemma PieceIsFirst(s: string, i: nat, p: Piece)
    requires PieceAt(s, i, p)
    ensures i < |s| && FirstPiece(s, i) == p
  {
    if !p.Literal? {
      RunEndIs(s, i, p.n);
      FindIsFirst(s, i + p.n, p.n);
      if p.Span? { FirstCloserIsFound(s, i + p.n, i + p.n + p.inner, p.n); }
    }
  }

  /** Every text splits. */
  lemma {:induction false} EveryTextSplits(s: string, i: nat) returns (ps: seq<Piece>)
    requires i <= |s|
    ensures Splits(s, i, ps)
    decreases |s| - i
  {
    if i == |s| {
      ps := [];
    } else {
      var p := FirstPiece(s, i);
      FirstPieceIsThere(s, i);
      var rest := EveryTextSplits(s, i + Length(p));
      ps := [p] + rest;
      assert ps[1..] == rest;
    }
  }

  lemma GoesOnUnclosed(s: string, i: nat, n: nat)
    requires RunAt(s, i, n) && NeverCloses(s, i + n, n)
    ensures GoesOn(s, i, Backticks(n), i + n)
  {
    NeverClosesIsNotFound(s, i + n, n);
    GoesOnUnfound(s, i, n);
  }

  lemma NeverClosesIsNotFound(s: string, i: nat, n: nat)
    requires i <= |s| && n > 0 && NeverCloses(s, i, n)
    ensures Find(s, i, n).None?
  {
    FindIsFirst(s, i, n);
  }

  lemma GoesOnSpan(s: string, i: nat, n: nat, j: nat)
    requires RunAt(s, i, n) && ClosesFirstAt(s, i + n, j, n)
    ensures GoesOn(s, i, [MARK], j + n)
  {
    FirstCloserIsFound(s, i + n, j, n);
    GoesOnFound(s, i, n, j);
  }

  lemma MaskAtPiece(s: string, i: nat, p: Piece)
    requires PieceAt(s, i, p)
    ensures GoesOn(s, i, Shown(p), i + Length(p))
  {
    match p
    case Literal(_) => GoesOnLiteral(s, i);
    case Unclosed(n) => GoesOnUnclosed(s, i, n);
    case Span(n, inner) => GoesOnSpan(s, i, n, i + n + inner);
  }

  /** The mask shows the split: everything outside spans survives in order, and each span is
      one mark. */
  lemma {:induction false} MaskShowsTheSplit(s: string, i: nat, ps: seq<Piece>)
    requires i <= |s| && Splits(s, i, ps)
    ensures MaskFrom(s, i) == ShownText(ps)
    decreases |ps|
  {
    if ps == [] {
      assert i == |s|;
    } else {
      var k := i + Length(ps[0]);
      MaskAtPiece(s, i, ps[0]);
      var rest := MaskFrom(s, k);
      MaskShowsTheSplit(s, k, ps[1..]);
      assert rest == ShownText(ps[1..]);
    }
  }

  /** There is only one split. */
  lemma {:induction false} SplitIsUnique(s: string, i: nat, ps: seq<Piece>, qs: seq<Piece>)
    requires Splits(s, i, ps) && Splits(s, i, qs)
    ensures ps == qs
    decreases |ps|
  {
    if ps != [] { PieceIsFirst(s, i, ps[0]); }
    if qs != [] { PieceIsFirst(s, i, qs[0]); }
    if ps != [] && qs != [] {
      SplitIsUnique(s, i + Length(ps[0]), ps[1..], qs[1..]);
      assert ps == [ps[0]] + ps[1..] && qs == [qs[0]] + qs[1..];
    }
  }

  /** So a text has exactly one split, and its mask is what that split shows. */
  lemma MaskIsTheOnlyReading(s: string) returns (ps: seq<Piece>)
    ensures forall qs :: Splits(s, 0, qs) <==> qs == ps
    ensures ShownText(ps) == Mask(s)
  {
    ps := EveryTextSplits(s, 0);
    forall qs | Splits(s, 0, qs) ensures qs == ps { SplitIsUnique(s, 0, qs, ps); }
    MaskShowsTheSplit(s, 0, ps);
  }

  // ---------------------------------------------------------------------------------------
  // Masking twice.

  /** `u` from `k` on is the mask of `s` from `i` on, told character by character. */
  predicate Masked(s: string, i: nat, u: string, k: nat)
    requires i <= |s|
    decreases |s| - i
  {
    if i == |s| then k == |u|
    else if s[i] != TICK then k < |u| && u[k] == s[i] && Masked(s, i + 1, u, k + 1)
    else
      var e := RunEnd(s, i);
      var end := Find(s, e, e - i);
      if end.None? then Ticks(u, k, k + (e - i)) && Masked(s, e, u, k + (e - i))
      else k < |u| && u[k] == MARK && Masked(s, end.value + (e - i), u, k + 1)
  }

  predicate Ticks(u: string, k: nat, e: nat) {
    e <= |u| && forall p :: k <= p < e ==> u[p] == TICK
  }

  lemma SliceGoesOn(u: string, k: nat, shown: string, rest: string)
    requires k <= |u| && u[k..] == shown + rest
    ensures k + |shown| <= |u| && u[k + |shown|..] == rest
    ensures forall p :: 0 <= p < |shown| ==> u[k + p] == shown[p]
  {
    assert u[k + |shown|..] == u[k..][|shown|..];
    forall p | 0 <= p < |shown| ensures u[k + p] == shown[p] { assert u[k + p] == u[k..][p]; }
  }

  lemma {:induction false} MaskIsMasked(s: string, i: nat, u: string, k: nat)
    requires i <= |s| && k <= |u| && u[k..] == MaskFrom(s, i)
    ensures Masked(s, i, u, k)
    decreases |s| - i
  {
    if i < |s| {
      var p := FirstPiece(s, i);
      var next := i + Length(p);
      FirstPieceIsThere(s, i);
      MaskAtPiece(s, i, p);
      SliceGoesOn(u, k, Shown(p), MaskFrom(s, next));
      MaskIsMasked(s, next, u, k + |Shown(p)|);
      MaskedPiece(s, i, u, k);
    }
  }

  lemma MaskedPiece(s: string, i: nat, u: string, k: nat)
    requires i < |s|
    requires var shown := Shown(FirstPiece(s, i));
      && k + |shown| <= |u| && (forall p :: 0 <= p < |shown| ==> u[k + p] == shown[p])
      && Masked(s, i + Length(FirstPiece(s, i)), u, k + |shown|)
    ensures Masked(s, i, u, k)
  {
    var shown := Shown(FirstPiece(s, i));
    assert u[k] == shown[0];
    forall p | k <= p < k + |shown| ensures u[p] == shown[p - k] { assert u[k + (p - k)] == shown[p - k]; }
  }

  lemma MaskedStart(s: string, i: nat, u: string, k: nat)
    requires i <= |s| && Masked(s, i, u, k)
    ensures k <= |u| && (i == |s| <==> k == |u|)
    ensures i < |s| && s[i] != TICK ==> u[k] == s[i] && Masked(s, i + 1, u, k + 1)
    ensures i < |s| && s[i] == TICK ==> u[k] == TICK || u[k] == MARK
  {
    if i < |s| && s[i] == TICK { assert RunEnd(s, i) > i; }
  }

  lemma MaskedBlankLine(s: string, i: nat, u: string, k: nat)
    requires i <= |s| && Masked(s, i, u, k)
    ensures BlankLineAt(u, k) <==> BlankLineAt(s, i)
  {
    MaskedStart(s, i, u, k);
    if i < |s| && s[i] == '\n' { MaskedStart(s, i + 1, u, k + 1); }
  }

  /** An unclosed run of the text stands in its mask as it was. */
  lemma MaskedUnclosed(s: string, i: nat, u: string, k: nat, n: nat)
    requires i <= |s| && Masked(s, i, u, k) && RunAt(s, i, n) && Find(s, i + n, n).None?
    ensures RunAt(u, k, n) && Masked(s, i + n, u, k + n)
  {
    RunEndIs(s, i, n);
    MaskedStart(s, i + n, u, k + n);
  }

  /** A span of the text is a mark. */
  lemma MaskedSpan(s: string, i: nat, u: string, k: nat, n: nat)
    requires i <= |s| && Masked(s, i, u, k) && RunAt(s, i, n) && Find(s, i + n, n).Some?
    ensures k < |u| && u[k] == MARK && Masked(s, Find(s, i + n, n).value + n, u, k + 1)
  {
    RunEndIs(s, i, n);
  }

  /** A closer seen from beyond a span or a run is seen from before it. */
  lemma FindFromEarlier(s: string, i: nat, k: nat, n: nat)
    requires i <= k <= |s| && n > 0 && NoBlankLine(s, i, k)
    requires k == i || s[k - 1] != TICK || (k < |s| ==> s[k] != TICK)
    requires Find(s, k, n).Some?
    ensures Find(s, i, n).Some?
  {
    FindIsFirst(s, k, n);
    FindIsFirst(s, i, n);
    var j := Find(s, k, n).value;
    assert ClosesAt(s, k, j, n) && s[j] == TICK;
    assert ClosesAt(s, i, j, n);
  }

  // One step of the scan.

  lemma FindEnds(s: string, i: nat, n: nat)
    requires i <= |s| && n > 0 && (i == |s| || BlankLineAt(s, i))
    ensures Find(s, i, n).None?
  {
  }

  lemma FindPastChar(s: string, i: nat, n: nat)
    requires i < |s| && n > 0 && s[i] != TICK && !BlankLineAt(s, i)
    ensures Find(s, i, n) == Find(s, i + 1, n)
  {
    assert RunEnd(s, i) == i;
  }

  lemma FindAtRun(s: string, i: nat, m: nat, n: nat)
    requires RunAt(s, i, m) && n > 0
    ensures Find(s, i, n) == if m == n then Some(i) else Find(s, i + m, n)
  {
    RunEndIs(s, i, m);
    assert s[i] == TICK;
  }

  lemma PastSameRun(s: string, i: nat, u: string, k: nat, m: nat, n: nat)
    requires RunAt(s, i, m) && RunAt(u, k, m) && n > 0 && Find(u, k, n).Some?
    ensures m == n ==> Find(s, i, n).Some?
    ensures m != n ==> Find(u, k + m, n).Some? && Find(s, i, n) == Find(s, i + m, n)
  {
    FindAtRun(s, i, m, n);
    FindAtRun(u, k, m, n);
  }

  /** Masking makes no closer. */
  lemma {:induction false} MaskMakesNoCloser(s: string, i: nat, u: string, k: nat, n: nat)
    requires i <= |s| && Masked(s, i, u, k) && n > 0 && Find(u, k, n).Some?
    ensures Find(s, i, n).Some?
    decreases |s| - i, 2
  {
    MaskedStart(s, i, u, k);
    MaskedBlankLine(s, i, u, k);
    if k == |u| || BlankLineAt(u, k) {
      FindEnds(u, k, n);
      assert false;
    }
    if s[i] != TICK {
      CharMakesNoCloser(s, i, u, k, n);
    } else {
      var m := RunEnd(s, i) - i;
      if Find(s, i + m, m).None? {
        UnclosedMakesNoCloser(s, i, u, k, m, n);
      } else {
        MaskedSpanMakesNoCloser(s, i, u, k, m, n);
      }
    }
  }

  lemma {:induction false} CharMakesNoCloser(s: string, i: nat, u: string, k: nat, n: nat)
    requires i <= |s| && Masked(s, i, u, k) && n > 0 && Find(u, k, n).Some?
    requires i < |s| && s[i] != TICK && k < |u| && !BlankLineAt(u, k)
    ensures Find(s, i, n).Some?
    decreases |s| - i, 1
  {
    MaskedStart(s, i, u, k);
    MaskedBlankLine(s, i, u, k);
    FindPastChar(u, k, n);
    FindPastChar(s, i, n);
    MaskMakesNoCloser(s, i + 1, u, k + 1, n);
  }

  lemma {:induction false} UnclosedMakesNoCloser(s: string, i: nat, u: string, k: nat, m: nat, n: nat)
    requires i <= |s| && Masked(s, i, u, k) && RunAt(s, i, m) && Find(s, i + m, m).None?
    requires n > 0 && Find(u, k, n).Some?
    ensures Find(s, i, n).Some?
    decreases |s| - i, 0
  {
    MaskedUnclosed(s, i, u, k, m);
    PastSameRun(s, i, u, k, m, n);
    if m != n { MaskMakesNoCloser(s, i + m, u, k + m, n); }
  }

  lemma {:induction false} MaskedSpanMakesNoCloser(s: string, i: nat, u: string, k: nat, m: nat, n: nat)
    requires i <= |s| && Masked(s, i, u, k) && RunAt(s, i, m) && Find(s, i + m, m).Some?
    requires n > 0 && Find(u, k, n).Some?
    ensures Find(s, i, n).Some?
    decreases |s| - i, 0
  {
    MaskedSpan(s, i, u, k, m);
    FindIsFirst(s, i + m, m);
    var j := Find(s, i + m, m).value;
    MaskMakesNoCloser(s, j + m, u, k + 1, n);
    SpanHasNoBlankLine(s, i, m, j);
    FindFromEarlier(s, i, j + m, n);
  }

  lemma SpanHasNoBlankLine(s: string, i: nat, m: nat, j: nat)
    requires RunAt(s, i, m) && ClosesAt(s, i + m, j, m)
    ensures NoBlankLine(s, i, j + m)
  {
  }

  lemma {:induction false} MaskedIsItsOwnMask(s: string, i: nat, u: string, k: nat)
    requires i <= |s| && Masked(s, i, u, k)
    ensures k <= |u| && MaskFrom(u, k) == u[k..]
    decreases |s| - i, 1
  {
    MaskedStart(s, i, u, k);
    if i < |s| {
      if s[i] != TICK {
        MaskedIsItsOwnMask(s, i + 1, u, k + 1);
        assert u[k..] == [u[k]] + u[k + 1..];
      } else {
        var n := RunEnd(s, i) - i;
        if Find(s, i + n, n).None? {
          UnclosedIsItsOwnMask(s, i, u, k, n);
        } else {
          MaskedSpan(s, i, u, k, n);
          MaskedIsItsOwnMask(s, Find(s, i + n, n).value + n, u, k + 1);
          MarkIsItsOwnMask(u, k);
        }
      }
    }
  }

  lemma MarkIsItsOwnMask(u: string, k: nat)
    requires k < |u| && u[k] == MARK && MaskFrom(u, k + 1) == u[k + 1..]
    ensures MaskFrom(u, k) == u[k..]
  {
    assert u[k..] == [u[k]] + u[k + 1..];
  }

  lemma UnclosedGlue(u: string, k: nat, n: nat)
    requires RunAt(u, k, n) && Find(u, k + n, n).None? && MaskFrom(u, k + n) == u[k + n..]
    ensures MaskFrom(u, k) == u[k..]
  {
    GoesOnUnfound(u, k, n);
    assert u[k..k + n] == Backticks(n);
    assert u[k..] == u[k..k + n] + u[k + n..];
  }

  lemma {:induction false} UnclosedIsItsOwnMask(s: string, i: nat, u: string, k: nat, n: nat)
    requires i <= |s| && Masked(s, i, u, k) && RunAt(s, i, n) && Find(s, i + n, n).None?
    ensures k <= |u| && MaskFrom(u, k) == u[k..]
    decreases |s| - i, 0
  {
    MaskedUnclosed(s, i, u, k, n);
    if Find(u, k + n, n).Some? {
      MaskMakesNoCloser(s, i + n, u, k + n, n);
      assert false;
    }
    MaskedIsItsOwnMask(s, i + n, u, k + n);
    UnclosedGlue(u, k, n);
  }

  /** Masking twice equals masking once. */
  lemma MaskTwice(s: string)
    ensures Mask(Mask(s)) == Mask(s)
  {
    var u := Mask(s);
    assert u[0..] == u;
    MaskIsMasked(s, 0, u, 0);
    MaskedIsItsOwnMask(s, 0, u, 0);
  }
}
