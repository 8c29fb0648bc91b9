/** The text outside fenced code blocks (check-docs-links.py; section 4.5 of the CommonMark
    Spec 0.31.2, with block quotes followed as the script's own comments say). */
module Fences {

  import opened Options
  import opened Scanning

  predicate IsSpace(c: char) {
    || '\t' <= c <= '\r' || '\U{1C}' <= c <= '\U{20}' || c == '\U{85}' || c == '\U{A0}' || c == '\U{1680}'
    || '\U{2000}' <= c <= '\U{200A}' || c == '\U{2028}' || c == '\U{2029}' || c == '\U{202F}'
    || c == '\U{205F}' || c == '\U{3000}'
  }

  function Strip(s: string): string {
    if s != "" && IsSpace(s[0]) then Strip(s[1..])
    else if s != "" && IsSpace(s[|s| - 1]) then Strip(s[..|s| - 1])
    else s
  }

  /** A line that opens or closes a fence. */
  datatype Marker = Marker(c: char, length: nat, info: string)

  function FenceMarker(line: string): Option<Marker> {
    var k := SkipRun(line, 0, ' ');
    if k > 3 || |line| - k < 3 then None
    else
      var c := line[k];
      if c != '`' && c != '~' then None
      else
        var e := SkipRun(line, k, c);
        if e - k < 3 then None
        else
          var info := Strip(line[e..]);
          if c == '`' && '`' in info then None else Some(Marker(c, e - k, info))
  }

  /** `line` is at most three spaces, then a run of exactly `n` of `c` from `i` on, then the rest,
      which for a backtick fence holds no backtick: section 4.5 of the CommonMark Spec. */
  predicate MarksFence(line: string, i: nat, c: char, n: nat) {
    && i <= 3 <= n && i + n <= |line| && c in {'`', '~'}
    && (forall k :: 0 <= k < i ==> line[k] == ' ')
    && (forall k :: i <= k < i + n ==> line[k] == c)
    && (i + n < |line| ==> line[i + n] != c)
    && (c == '`' ==> forall k :: i + n <= k < |line| ==> line[k] != '`')
  }

  lemma {:induction false} StripKeeps(s: string)
    ensures Strip(s) == "" <==> forall k :: 0 <= k < |s| ==> IsSpace(s[k])
    ensures forall c :: !IsSpace(c) ==> (c in Strip(s) <==> c in s)
    ensures Strip(s) != "" ==> !IsSpace(Strip(s)[0]) && !IsSpace(Strip(s)[|Strip(s)| - 1])
    decreases |s|
  {
    if s != "" && IsSpace(s[0]) {
      StripKeeps(s[1..]);
      assert s == [s[0]] + s[1..];
    } else if s != "" && IsSpace(s[|s| - 1]) {
      StripKeeps(s[..|s| - 1]);
      assert s == s[..|s| - 1] + [s[|s| - 1]];
    }
  }

  lemma StripFrom(line: string, e: nat)
    requires e <= |line|
    ensures Strip(line[e..]) == "" <==> forall k :: e <= k < |line| ==> IsSpace(line[k])
    ensures '`' in Strip(line[e..]) <==> exists k :: e <= k < |line| && line[k] == '`'
  {
    var rest := line[e..];
    StripKeeps(rest);
    assert forall j :: e <= j < |line| ==> line[j] == rest[j - e];
    assert forall j :: 0 <= j < |rest| ==> rest[j] == line[j + e];
  }

  /** A line of a fence's form is read as that marker, and as a possible closer exactly when only
      white space follows the run. */
  lemma FenceIsRead(line: string, i: nat, c: char, n: nat)
    requires MarksFence(line, i, c, n)
    ensures var m := FenceMarker(line); m.Some? && m.value.c == c && m.value.length == n
    ensures FenceMarker(line).value.info == "" <==> forall k :: i + n <= k < |line| ==> IsSpace(line[k])
  {
    assert line[i] == c;
    assert SkipRun(line, 0, ' ') == i;
    assert SkipRun(line, i, c) == i + n;
    StripFrom(line, i + n);
  }

  /** Only a line of a fence's form is read as a marker. */
  lemma FenceMarkerExactly(line: string)
    ensures FenceMarker(line).Some? <==> exists i: nat, c, n: nat :: MarksFence(line, i, c, n)
  {
    if FenceMarker(line).Some? {
      var k := SkipRun(line, 0, ' ');
      var e := SkipRun(line, k, line[k]);
      StripFrom(line, e);
      assert MarksFence(line, k, line[k], e - k);
    }
    if i: nat, c, n: nat :| MarksFence(line, i, c, n) {
      FenceIsRead(line, i, c, n);
    }
  }

  /** Where the block-quote marker at `i` ends: up to three spaces, `>`, and a space if there is
      one. */
  function QuoteEnd(line: string, i: nat): (r: Option<nat>)
    requires i <= |line|
    ensures r.Some? ==> i < r.value <= |line|
  {
    var k := SkipRun(line, i, ' ');
    if k - i > 3 || k == |line| || line[k] != '>' then None
    else if k + 1 < |line| && line[k + 1] == ' ' then Some(k + 2)
    else Some(k + 1)
  }

  /** From `i` to `e` the line is a block-quote marker: at most three spaces, `>`, and the one
      space after it if there is one. */
  predicate MarksQuote(line: string, i: nat, n: nat, e: nat) {
    && n <= 3 && i + n < |line| && line[i + n] == '>'
    && (forall k :: i <= k < i + n ==> line[k] == ' ')
    && e == if i + n + 1 < |line| && line[i + n + 1] == ' ' then i + n + 2 else i + n + 1
  }

  lemma QuoteEndExactly(line: string, i: nat, e: nat)
    requires i <= |line|
    ensures QuoteEnd(line, i) == Some(e) <==> exists n: nat :: MarksQuote(line, i, n, e)
  {
    var k := SkipRun(line, i, ' ');
    if QuoteEnd(line, i) == Some(e) {
      assert MarksQuote(line, i, k - i, e);
    }
    if n: nat :| MarksQuote(line, i, n, e) {
      assert line[i + n] == '>';
      assert k == i + n;
    }
  }

  /** How many block-quote markers the line has from `i` on, and where they end. */
  function Quotes(line: string, i: nat): (r: (nat, nat))
    requires i <= |line|
    ensures i <= r.1 <= |line| && QuoteEnd(line, r.1).None?
    decreases |line| - i
  {
    var q := QuoteEnd(line, i);
    if q.None? then (0, i) else var r := Quotes(line, q.value); (r.0 + 1, r.1)
  }

  /** `ends` are where the block-quote markers from `i` on end, one after the other, with no further
      one after the last. */
  ghost predicate AreQuotes(line: string, i: nat, ends: seq<nat>)
    requires i <= |line|
    decreases |ends|
  {
    if ends == [] then forall n: nat, e: nat :: !MarksQuote(line, i, n, e)
    else (exists n: nat :: MarksQuote(line, i, n, ends[0])) && ends[0] <= |line| && AreQuotes(line, ends[0], ends[1..])
  }

  /** The depth of a line is how many markers it begins with, and the rest what follows the last. */
  lemma {:induction false} QuotesExactly(line: string, i: nat) returns (ends: seq<nat>)
    requires i <= |line|
    ensures AreQuotes(line, i, ends) && Quotes(line, i).0 == |ends|
    ensures Quotes(line, i).1 == if ends == [] then i else ends[|ends| - 1]
    decreases |line| - i
  {
    var q := QuoteEnd(line, i);
    if q.None? {
      ends := [];
      forall n: nat, e: nat ensures !MarksQuote(line, i, n, e) { QuoteEndExactly(line, i, e); }
    } else {
      QuoteEndExactly(line, i, q.value);
      var rest := QuotesExactly(line, q.value);
      ends := [q.value] + rest;
      assert ends[1..] == rest;
    }
  }

  method Unquote(line: string) returns (depth: nat, rest: string)
    ensures depth == Quotes(line, 0).0 && rest == line[Quotes(line, 0).1..]
  {
    depth := 0;
    var i := 0;
    while true
      invariant i <= |line|
      invariant Quotes(line, 0) == (depth + Quotes(line, i).0, Quotes(line, i).1)
      decreases |line| - i
    {
      var q := QuoteEnd(line, i);
      if q.None? { return depth, line[i..]; }
      depth, i := depth + 1, q.value;
    }
  }

  // ---------------------------------------------------------------------------------------
  // The fence machine, over what each line is.

  datatype Line = Line(depth: nat, marker: Option<Marker>)

  function LineOf(text: string): Line {
    var q := Quotes(text, 0);
    Line(q.0, FenceMarker(text[q.1..]))
  }

  function LinesOf(texts: seq<string>): (r: seq<Line>)
    ensures |r| == |texts|
  {
    seq(|texts|, i requires 0 <= i < |texts| => LineOf(texts[i]))
  }

  datatype Fence = Fence(c: char, length: nat, depth: nat)

  predicate ClosesFence(m: Option<Marker>, f: Fence) {
    m.Some? && m.value.c == f.c && m.value.length >= f.length && m.value.info == ""
  }

  function FenceOf(l: Line): Fence
    requires l.marker.Some?
  {
    Fence(l.marker.value.c, l.marker.value.length, l.depth)
  }

  /** The open fence before line `k`. */
  function FenceAt(ls: seq<Line>, k: nat): Option<Fence>
    requires k <= |ls|
  {
    if k == 0 then None
    else
      var l, f := ls[k - 1], FenceAt(ls, k - 1);
      if f.Some? && l.depth >= f.value.depth then
        if ClosesFence(l.marker, f.value) then None else f
      else if l.marker.Some? then Some(FenceOf(l)) else None
  }

  predicate Inside(ls: seq<Line>, k: nat)
    requires k < |ls|
  {
    FenceAt(ls, k).Some? && ls[k].depth >= FenceAt(ls, k).value.depth
  }

  predicate Opener(ls: seq<Line>, k: nat)
    requires k < |ls|
  {
    !Inside(ls, k) && ls[k].marker.Some?
  }

  predicate Hidden(ls: seq<Line>, k: nat)
    requires k < |ls|
  {
    Inside(ls, k) || Opener(ls, k)
  }

  // What the machine means, said of the lines alone.

  /** Line `j` opens a fence: it has a marker and no opening fence above still covers it. */
  ghost predicate Opens(ls: seq<Line>, j: nat)
    requires j < |ls|
    decreases j, 1
  {
    ls[j].marker.Some? && !Covered(ls, j)
  }

  /** An opening fence above line `k`, at some quote depth: every line since, this one too, is at
      least that deep, and none strictly between closes it. */
  ghost predicate Covered(ls: seq<Line>, k: nat)
    requires k < |ls|
    decreases k, 0
  {
    exists j :: 0 <= j < k && Opens(ls, j) && Unclosed(ls, j, k) && ls[k].depth >= ls[j].depth
  }

  /** A closer of an opening line: a run of the same character, at least as long, and nothing after
      it. */
  predicate IsCloser(l: Line, opening: Line)
    requires opening.marker.Some?
  {
    l.marker.Some? &&
    var a, b := l.marker.value, opening.marker.value;
    a.c == b.c && !(a.length < b.length) && |a.info| == 0
  }

  /** Nothing strictly between `j` and `k` ends the fence of line `j`. */
  predicate Unclosed(ls: seq<Line>, j: nat, k: nat)
    requires j < k <= |ls| && ls[j].marker.Some?
  {
    forall i :: j < i < k ==> ls[i].depth >= ls[j].depth && !IsCloser(ls[i], ls[j])
  }

  ghost predicate OpenFrom(ls: seq<Line>, j: nat, k: nat)
    requires k <= |ls|
  {
    j < k && Opens(ls, j) && Unclosed(ls, j, k)
  }

  /** The fence the machine holds is that of an opener nothing has ended, and there is one
      whenever such an opener is there. */
  lemma {:induction false} FenceIsOpen(ls: seq<Line>, k: nat)
    requires k <= |ls|
    ensures FenceAt(ls, k).Some? ==> exists j: nat :: OpenFrom(ls, j, k) && FenceAt(ls, k).value == FenceOf(ls[j])
    ensures forall j: nat :: OpenFrom(ls, j, k) ==> FenceAt(ls, k) == Some(FenceOf(ls[j]))
    decreases k
  {
    if k > 0 {
      var p := k - 1;
      FenceIsOpen(ls, p);
      InsideIsCovered(ls, p);
      if FenceAt(ls, k).Some? {
        if Inside(ls, p) {
          var j: nat :| OpenFrom(ls, j, p) && FenceAt(ls, p).value == FenceOf(ls[j]);
          assert OpenFrom(ls, j, k);
        } else {
          assert OpenFrom(ls, p, k);
        }
      }
      forall j: nat | OpenFrom(ls, j, k) ensures FenceAt(ls, k) == Some(FenceOf(ls[j])) {
        if j < p {
          assert OpenFrom(ls, j, p);
          assert ls[p].depth >= ls[j].depth && !IsCloser(ls[p], ls[j]);
        }
      }
    }
  }

  lemma InsideIsCovered(ls: seq<Line>, k: nat)
    requires k < |ls|
    requires FenceAt(ls, k).Some? ==> exists j: nat :: OpenFrom(ls, j, k) && FenceAt(ls, k).value == FenceOf(ls[j])
    requires forall j: nat :: OpenFrom(ls, j, k) ==> FenceAt(ls, k) == Some(FenceOf(ls[j]))
    ensures Inside(ls, k) <==> Covered(ls, k)
  {
    if Inside(ls, k) {
      var j: nat :| OpenFrom(ls, j, k) && FenceAt(ls, k).value == FenceOf(ls[j]);
    }
    if Covered(ls, k) {
      var j :| 0 <= j < k && Opens(ls, j) && Unclosed(ls, j, k) && ls[k].depth >= ls[j].depth;
      assert OpenFrom(ls, j, k);
    }
  }

  /** A line is hidden exactly when it opens a fence or one above covers it. */
  lemma HiddenExactly(ls: seq<Line>, k: nat)
    requires k < |ls|
    ensures Hidden(ls, k) <==> Opens(ls, k) || Covered(ls, k)
    ensures Opener(ls, k) <==> Opens(ls, k)
  {
    FenceIsOpen(ls, k);
    InsideIsCovered(ls, k);
  }

  /** A fence never outlives its block quote: if the fence held before line `i` is deeper than that
      line, every fence held later was opened at line `i` or after. */
  lemma FenceEndsWithQuote(ls: seq<Line>, i: nat, k: nat)
    requires i < k <= |ls| && FenceAt(ls, i).Some? && FenceAt(ls, i).value.depth > ls[i].depth
    ensures FenceAt(ls, k).Some? ==>
      exists j: nat :: i <= j && OpenFrom(ls, j, k) && FenceAt(ls, k).value == FenceOf(ls[j])
  {
    FenceIsOpen(ls, k);
    if FenceAt(ls, k).Some? {
      var j: nat :| OpenFrom(ls, j, k) && FenceAt(ls, k).value == FenceOf(ls[j]);
      if j < i {
        FenceIsOpen(ls, i);
        assert OpenFrom(ls, j, i);
        assert false;
      }
    }
  }

  // ---------------------------------------------------------------------------------------
  // The runs.

  /** The first `k` lines without the hidden ones. */
  function Visible(texts: seq<string>, ls: seq<Line>, k: nat): seq<string>
    requires k <= |ls| == |texts|
  {
    if k == 0 then []
    else if Hidden(ls, k - 1) then Visible(texts, ls, k - 1)
    else Visible(texts, ls, k - 1) + [texts[k - 1]]
  }

  /** The visible lines in groups, the last one still open: a fence that opens ends it. */
  datatype Grouped = Grouped(done: seq<seq<string>>, current: seq<string>)

  function Groups(texts: seq<string>, ls: seq<Line>, k: nat): Grouped
    requires k <= |ls| == |texts|
  {
    if k == 0 then Grouped([], [])
    else
      var g := Groups(texts, ls, k - 1);
      if Opener(ls, k - 1) then Grouped(AllGroups(g), [])
      else if Hidden(ls, k - 1) then g
      else g.(current := g.current + [texts[k - 1]])
  }

  function AllGroups(g: Grouped): seq<seq<string>> {
    if g.current == [] then g.done else g.done + [g.current]
  }

  function Flatten(gs: seq<seq<string>>): seq<string> {
    if gs == [] then [] else Flatten(gs[..|gs| - 1]) + gs[|gs| - 1]
  }

  lemma FlattenAll(g: Grouped)
    ensures Flatten(AllGroups(g)) == Flatten(g.done) + g.current
  {
    if g.current != [] { assert (g.done + [g.current])[..|g.done|] == g.done; }
  }

  lemma {:induction false} GroupsAreVisible(texts: seq<string>, ls: seq<Line>, k: nat)
    requires k <= |ls| == |texts|
    ensures var g := Groups(texts, ls, k); Flatten(g.done) + g.current == Visible(texts, ls, k)
  {
    if k > 0 {
      GroupsAreVisible(texts, ls, k - 1);
      FlattenAll(Groups(texts, ls, k - 1));
    }
  }

  /** Every line that is not hidden is in the runs once, in order, and nothing else is. */
  lemma RunsAreTheVisibleLines(texts: seq<string>)
    ensures var ls := LinesOf(texts);
      Flatten(AllGroups(Groups(texts, ls, |texts|))) == Visible(texts, ls, |texts|)
  {
    var ls := LinesOf(texts);
    GroupsAreVisible(texts, ls, |texts|);
    FlattenAll(Groups(texts, ls, |texts|));
  }

  /** The visible lines from `j` up to `k`. */
  function VisibleFrom(texts: seq<string>, ls: seq<Line>, j: nat, k: nat): seq<string>
    requires j <= k <= |ls| == |texts|
    decreases k
  {
    if k == j then []
    else if Hidden(ls, k - 1) then VisibleFrom(texts, ls, j, k - 1)
    else VisibleFrom(texts, ls, j, k - 1) + [texts[k - 1]]
  }

  /** A run is what is visible between two openings of fences: an opening ends the run before it
      and starts the next one. */
  lemma {:induction false} RunsEndAtFences(texts: seq<string>, ls: seq<Line>, j: nat, k: nat)
    requires j < k <= |ls| == |texts| && Opener(ls, j)
    requires forall i :: j < i < k ==> !Opener(ls, i)
    ensures Groups(texts, ls, k) == Grouped(AllGroups(Groups(texts, ls, j)), VisibleFrom(texts, ls, j + 1, k))
    decreases k
  {
    if j + 1 < k { RunsEndAtFences(texts, ls, j, k - 1); }
  }

  function Join(g: seq<string>): string {
    if g == [] then "" else if |g| == 1 then g[0] else g[0] + ['\n'] + Join(g[1..])
  }

  /** Splitting a run at its line ends gives its lines back. */
  lemma {:induction false} SplitUndoesJoin(g: seq<string>)
    requires g != [] && forall i :: 0 <= i < |g| ==> '\n' !in g[i]
    ensures SplitOn(Join(g), '\n') == g
  {
    if |g| == 1 {
      SplitOnOne(g[0], '\n');
    } else {
      SplitUndoesJoin(g[1..]);
      SplitOnField(g[0], Join(g[1..]), '\n');
      assert [g[0]] + g[1..] == g;
    }
  }

  function JoinAll(gs: seq<seq<string>>): seq<string> {
    seq(|gs|, i requires 0 <= i < |gs| => Join(gs[i]))
  }

  /** What the line is, as the loop below reads it. */
  method ReadLine(text: string) returns (l: Line)
    ensures l == LineOf(text)
  {
    var depth, inner := Unquote(text);
    l := Line(depth, FenceMarker(inner));
  }

  /** One turn of the loop: the fence after line `k`, and the groups. */
  method Feed(texts: seq<string>, ghost ls: seq<Line>, k: nat, l: Line, fence: Option<Fence>, g: Grouped)
    returns (fence': Option<Fence>, g': Grouped)
    requires k < |ls| == |texts| && l == ls[k]
    requires fence == FenceAt(ls, k) && g == Groups(texts, ls, k)
    ensures fence' == FenceAt(ls, k + 1) && g' == Groups(texts, ls, k + 1)
  {
    fence', g' := fence, g;
    if fence'.Some? {
      if l.depth >= fence'.value.depth {
        if ClosesFence(l.marker, fence'.value) { fence' := None; }
        return;
      }
      fence' := None;   // the line is outside the fence's quote
    }
    if l.marker.Some? {
      fence' := Some(FenceOf(l));
      g' := Grouped(AllGroups(g), []);
      return;
    }
    g' := g.(current := g.current + [texts[k]]);
  }

  method GroupLines(texts: seq<string>, ghost ls: seq<Line>) returns (g: Grouped)
    requires |ls| == |texts| && forall i :: 0 <= i < |ls| ==> ls[i] == LineOf(texts[i])
    ensures g == Groups(texts, ls, |texts|)
  {
    g := Grouped([], []);
    var fence: Option<Fence> := None;
    for k := 0 to |texts|
      invariant fence == FenceAt(ls, k) && g == Groups(texts, ls, k)
    {
      var l := ReadLine(texts[k]);
      fence, g := Feed(texts, ls, k, l, fence, g);
    }
  }

  method ProseRuns(text: string) returns (runs: seq<string>)
    ensures var texts := SplitOn(text, '\n'); runs == JoinAll(AllGroups(Groups(texts, LinesOf(texts), |texts|)))
  {
    var texts := SplitOn(text, '\n');
    var g := GroupLines(texts, LinesOf(texts));
    runs := JoinAll(AllGroups(g));
  }

  predicate CleanGroup(g: seq<string>) {
    forall i :: 0 <= i < |g| ==> '\n' !in g[i]
  }

  lemma {:induction false} GroupsAreClean(texts: seq<string>, ls: seq<Line>, k: nat)
    requires k <= |ls| == |texts| && CleanGroup(texts)
    ensures CleanGroup(Groups(texts, ls, k).current)
    ensures forall i :: 0 <= i < |Groups(texts, ls, k).done| ==>
      Groups(texts, ls, k).done[i] != [] && CleanGroup(Groups(texts, ls, k).done[i])
  {
    if k > 0 { GroupsAreClean(texts, ls, k - 1); }
  }

  /** Every run of a text reads back as the group of its lines. */
  lemma RunsReadBack(text: string, i: nat)
    requires var texts := SplitOn(text, '\n'); i < |AllGroups(Groups(texts, LinesOf(texts), |texts|))|
    ensures var texts := SplitOn(text, '\n'); var gs := AllGroups(Groups(texts, LinesOf(texts), |texts|));
      SplitOn(JoinAll(gs)[i], '\n') == gs[i]
  {
    var texts := SplitOn(text, '\n');
    FieldsAreClean(text, '\n');
    GroupsAreClean(texts, LinesOf(texts), |texts|);
    SplitUndoesJoin(AllGroups(Groups(texts, LinesOf(texts), |texts|))[i]);
  }
}
