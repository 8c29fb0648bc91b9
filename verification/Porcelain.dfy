/** Parsing `git status --porcelain=v1 -z` (framework_release.go). */
module Porcelain {

  import opened Options
  import opened Scanning

  const NUL := '\0'
  const PREFIX := 3      // "XY "

  datatype StatusEntry = StatusEntry(path: string, untracked: bool)

  /** The NUL-separated fields. */
  function Split(s: string): (r: seq<string>)
    ensures |r| >= 1
  {
    SplitOn(s, NUL)
  }

  predicate Moves(c: char) { c == 'R' || c == 'C' }

  function EntryOf(field: string): StatusEntry
    requires |field| > PREFIX
  {
    StatusEntry(field[PREFIX..], field[..2] == "??")
  }

  /** What a list of fields says: a field too short for an entry is passed over, and an
      index-column rename or copy takes the field after it with it. */
  function Parse(fields: seq<string>): seq<StatusEntry>
    decreases |fields|
  {
    if fields == [] then []
    else if |fields[0]| <= PREFIX then Parse(fields[1..])
    else
      var f := fields[0];
      var skip := if Moves(f[0]) && |fields| > 1 then 2 else 1;
      [EntryOf(f)] + Parse(fields[skip..])
  }

  /** The fields from `i` on, one step at a time. */
  lemma ParseFrom(fields: seq<string>, i: nat)
    requires i < |fields|
    ensures |fields[i]| <= PREFIX ==> Parse(fields[i..]) == Parse(fields[i + 1..])
    ensures |fields[i]| > PREFIX ==> Parse(fields[i..]) == [EntryOf(fields[i])] + Parse(Beyond(fields, i))
  {
    var from := fields[i..];
    assert from[0] == fields[i] && from[1..] == fields[i + 1..];
    if |from| > 1 { assert from[2..] == fields[i + 2..]; }
  }

  /** What is left after the entry at `i`. */
  function Beyond(fields: seq<string>, i: nat): seq<string>
    requires i < |fields| && |fields[i]| > PREFIX
  {
    if !Moves(fields[i][0]) then fields[i + 1..]
    else if i + 2 <= |fields| then fields[i + 2..]
    else []
  }

  method ParsePorcelain(out: string) returns (entries: seq<StatusEntry>)
    ensures entries == Parse(Split(out))
  {
    entries := [];
    var fields := Split(out);
    var i := 0;
    assert fields[0..] == fields;
    while i < |fields|
      invariant 0 <= i
      invariant entries + Parse(if i <= |fields| then fields[i..] else []) == Parse(fields)
    {
      var f := fields[i];
      ParseFrom(fields, i);
      if |f| <= PREFIX {
        i := i + 1;
        continue;
      }
      var xy, path := f[..2], f[PREFIX..];
      Snoc(entries, StatusEntry(path, xy == "??"), Parse(Beyond(fields, i)));
      entries := entries + [StatusEntry(path, xy == "??")];
      if Moves(xy[0]) {
        i := i + 1;
      }
      i := i + 1;
    }
    assert Parse([]) == [];
  }

  lemma Snoc(a: seq<StatusEntry>, e: StatusEntry, b: seq<StatusEntry>)
    ensures a + ([e] + b) == (a + [e]) + b
  {
  }

  // ---------------------------------------------------------------------------------------
  // What git prints.

  /** One entry: two status letters, the path, and the source path of a rename or copy. */
  datatype Printed = Printed(x: char, y: char, path: string, source: Option<string>)

  predicate PathOk(path: string) { path != "" && NUL !in path }

  /** git follows an entry with its source path when either column is a rename or a copy. */
  predicate WellFormed(e: Printed) {
    && e.x != NUL && e.y != NUL && PathOk(e.path)
    && (e.source.Some? <==> e.x in {'R', 'C'} || e.y in {'R', 'C'})
    && (e.source.Some? ==> PathOk(e.source.value))
  }

  predicate AllWellFormed(es: seq<Printed>) { forall i :: 0 <= i < |es| ==> WellFormed(es[i]) }

  function Head(e: Printed): string { [e.x, e.y, ' '] + e.path }

  function Print(e: Printed): string {
    Head(e) + [NUL] + (if e.source.Some? then e.source.value + [NUL] else "")
  }

  function PrintAll(es: seq<Printed>): string {
    if es == [] then "" else Print(es[0]) + PrintAll(es[1..])
  }

  function Meant(e: Printed): StatusEntry { StatusEntry(e.path, e.x == '?' && e.y == '?') }

  function MeantAll(es: seq<Printed>): seq<StatusEntry> {
    if es == [] then [] else [Meant(es[0])] + MeantAll(es[1..])
  }

  /** A rename git saw only in the work tree, whose source path is long enough to be read as an
      entry of its own. */
  predicate Misread(e: Printed) {
    e.source.Some? && e.x !in {'R', 'C'} && |e.source.value| > 3
  }

  /** The fields of one printed entry, then those of the rest. */
  lemma SplitEntry(e: Printed, rest: string)
    requires WellFormed(e)
    ensures Split(Print(e) + rest)
         == [Head(e)] + (if e.source.Some? then [e.source.value] else []) + Split(rest)
  {
    if e.source.Some? {
      SplitOnField(e.source.value, rest, NUL);
      SplitOnField(Head(e), e.source.value + [NUL] + rest, NUL);
      assert Print(e) + rest == Head(e) + [NUL] + (e.source.value + [NUL] + rest);
    } else {
      SplitOnField(Head(e), rest, NUL);
      assert Print(e) + rest == Head(e) + [NUL] + rest;
    }
  }

  lemma HeadIsEntry(e: Printed)
    requires WellFormed(e)
    ensures |Head(e)| > PREFIX && Head(e)[0] == e.x && EntryOf(Head(e)) == Meant(e)
  {
    assert Head(e)[PREFIX..] == e.path && Head(e)[..2] == [e.x, e.y];
    assert Head(e)[..2] == "??" <==> e.x == '?' && e.y == '?';
  }

  lemma ParseEntry(e: Printed, rest: seq<string>)
    requires WellFormed(e) && !Misread(e)
    ensures Parse([Head(e)] + (if e.source.Some? then [e.source.value] else []) + rest) == [Meant(e)] + Parse(rest)
  {
    var fields := [Head(e)] + (if e.source.Some? then [e.source.value] else []) + rest;
    HeadIsEntry(e);
    assert fields[0..] == fields;
    ParseFrom(fields, 0);
    if e.source.None? {
      assert fields[1..] == rest;
    } else {
      assert fields[1] == e.source.value && fields[2..] == rest;
      ParseFrom(fields, 1);
    }
  }

  /** Parsing undoes printing: every list of entries comes back in order with the right flags,
      a source path that looks like an entry included. */
  lemma {:induction false} ParseUndoesPrint(es: seq<Printed>)
    requires AllWellFormed(es)
    requires forall i :: 0 <= i < |es| ==> !Misread(es[i])
    ensures Parse(Split(PrintAll(es))) == MeantAll(es)
    decreases |es|
  {
    if es == [] {
      assert Split("") == [""];
      assert Parse([""]) == Parse([""][1..]);
    } else {
      SplitEntry(es[0], PrintAll(es[1..]));
      ParseEntry(es[0], Split(PrintAll(es[1..])));
      ParseUndoesPrint(es[1..]);
    }
  }

  function MisreadCount(es: seq<Printed>): nat {
    if es == [] then 0 else (if Misread(es[0]) then 1 else 0) + MisreadCount(es[1..])
  }

  /** The source path of a misread entry does not itself read as a rename or copy. */
  predicate PlainSource(e: Printed) { Misread(e) ==> e.source.value[0] !in {'R', 'C'} }

  lemma ParseMisread(e: Printed, rest: seq<string>)
    requires WellFormed(e) && Misread(e) && PlainSource(e)
    ensures |Parse([Head(e)] + [e.source.value] + rest)| == 2 + |Parse(rest)|
  {
    var fields := [Head(e)] + [e.source.value] + rest;
    assert fields[1..] == [e.source.value] + rest;
    assert ([e.source.value] + rest)[1..] == rest;
    assert |Parse([e.source.value] + rest)| == 1 + |Parse(rest)|;
  }

  /** Every misread rename adds one entry no file has. */
  lemma {:induction false} MisreadsAddUp(es: seq<Printed>)
    requires AllWellFormed(es) && forall i :: 0 <= i < |es| ==> PlainSource(es[i])
    ensures |Parse(Split(PrintAll(es)))| == |es| + MisreadCount(es)
    decreases |es|
  {
    if es == [] {
      ParseUndoesPrint(es);
    } else {
      var rest := Split(PrintAll(es[1..]));
      SplitEntry(es[0], PrintAll(es[1..]));
      MisreadsAddUp(es[1..]);
      if Misread(es[0]) { ParseMisread(es[0], rest); } else { ParseEntry(es[0], rest); }
    }
  }

  lemma {:induction false} MeantLength(es: seq<Printed>)
    ensures |MeantAll(es)| == |es|
    decreases |es|
  {
    if es != [] { MeantLength(es[1..]); }
  }

  // ---------------------------------------------------------------------------------------
  // Exactly when the entries come back.

  function FieldsOf(es: seq<Printed>): seq<string> { Split(PrintAll(es)) }

  predicate LongSource(e: Printed) { e.source.Some? && |e.source.value| > PREFIX }

  /** The printed list is read back: a misread source path must stand for what follows it. */
  predicate Restored(es: seq<Printed>)
    decreases |es|
  {
    es == [] || if Misread(es[0]) then StandsFor(es[0].source.value, es[1..]) else Restored(es[1..])
  }

  /** A source path read as an entry takes the place of the next one: it reads as a rename itself,
      so that it swallows that entry's own field, and it names that entry's path.  If the entry
      swallowed leaves a source path behind, that one must do the same. */
  predicate StandsFor(source: string, es: seq<Printed>)
    requires |source| > PREFIX
    decreases |es|
  {
    && es != [] && source[0] in {'R', 'C'} && EntryOf(source) == Meant(es[0])
    && if LongSource(es[0]) then StandsFor(es[0].source.value, es[1..]) else Restored(es[1..])
  }

  lemma ParseSource(source: string, fields: seq<string>)
    requires |source| > PREFIX && fields != []
    ensures Parse([source] + fields) == [EntryOf(source)] + Parse(if Moves(source[0]) then fields[1..] else fields)
  {
    var all := [source] + fields;
    assert all[0..] == all && all[1..] == fields && all[2..] == fields[1..];
    ParseFrom(all, 0);
  }

  /** The first entry of a list, and then its source path as an entry if it is misread. */
  lemma ParseFirst(es: seq<Printed>)
    requires AllWellFormed(es) && es != []
    ensures Parse(FieldsOf(es)) ==
      [Meant(es[0])] + Parse((if Misread(es[0]) then [es[0].source.value] else []) + FieldsOf(es[1..]))
  {
    var e, rest := es[0], FieldsOf(es[1..]);
    SplitEntry(e, PrintAll(es[1..]));
    assert [] + rest == rest;
    if Misread(e) {
      HeadIsEntry(e);
      ParseSource(Head(e), [e.source.value] + rest);
      assert [Head(e)] + ([e.source.value] + rest) == [Head(e)] + [e.source.value] + rest;
    } else {
      ParseEntry(e, rest);
    }
  }

  /** A list whose first field is swallowed. */
  lemma ParseSwallowed(es: seq<Printed>)
    requires AllWellFormed(es) && es != []
    ensures Parse(FieldsOf(es)[1..]) ==
      Parse((if LongSource(es[0]) then [es[0].source.value] else []) + FieldsOf(es[1..]))
  {
    var e, rest := es[0], FieldsOf(es[1..]);
    SplitEntry(e, PrintAll(es[1..]));
    assert [] + rest == rest;
    if e.source.Some? {
      assert FieldsOf(es)[1..] == [e.source.value] + rest;
      assert ([e.source.value] + rest)[1..] == rest;
    } else {
      assert FieldsOf(es)[1..] == rest;
    }
  }

  /** Nothing is ever read short: what is swallowed was replaced. */
  lemma {:induction false} ReadsAtLeast(es: seq<Printed>)
    requires AllWellFormed(es)
    ensures |Parse(FieldsOf(es))| >= |es| && |Parse(FieldsOf(es)[1..])| >= |es| - 1
    decreases |es|, 0
  {
    if es != [] {
      ParseFirst(es);
      ParseSwallowed(es);
      ReadsAtLeast(es[1..]);
      assert [] + FieldsOf(es[1..]) == FieldsOf(es[1..]);
      if LongSource(es[0]) { SourceReadsAtLeast(es[0].source.value, es[1..]); }
    }
  }

  lemma {:induction false} SourceReadsAtLeast(source: string, es: seq<Printed>)
    requires |source| > PREFIX && AllWellFormed(es)
    ensures |Parse([source] + FieldsOf(es))| >= |es|
    decreases |es|, 1
  {
    ParseSource(source, FieldsOf(es));
    ReadsAtLeast(es);
  }

  lemma {:induction false} StandsExactly(source: string, es: seq<Printed>)
    requires |source| > PREFIX && AllWellFormed(es)
    ensures Parse([source] + FieldsOf(es)) == MeantAll(es) <==> StandsFor(source, es)
    decreases |es|, 0
  {
    ParseSource(source, FieldsOf(es));
    if es != [] {
      MeantLength(es);
      if Moves(source[0]) {
        ParseSwallowed(es);
        assert [] + FieldsOf(es[1..]) == FieldsOf(es[1..]);
        if LongSource(es[0]) { StandsExactly(es[0].source.value, es[1..]); } else { ParseExactly(es[1..]); }
        Cons(EntryOf(source), Parse(FieldsOf(es)[1..]), Meant(es[0]), MeantAll(es[1..]));
      } else {
        ReadsAtLeast(es);
      }
    }
  }

  lemma Cons(a: StatusEntry, s: seq<StatusEntry>, b: StatusEntry, t: seq<StatusEntry>)
    ensures [a] + s == [b] + t <==> a == b && s == t
  {
    if [a] + s == [b] + t {
      assert ([a] + s)[0] == ([b] + t)[0] && ([a] + s)[1..] == ([b] + t)[1..];
      assert ([a] + s)[1..] == s && ([b] + t)[1..] == t;
    }
  }

  /** For every printed list, the entries come back exactly when each misread source path stands
      for the next entry; with no misread entry they always do. */
  lemma {:induction false} ParseExactly(es: seq<Printed>)
    requires AllWellFormed(es)
    ensures Parse(FieldsOf(es)) == MeantAll(es) <==> Restored(es)
    decreases |es|, 1
  {
    if es == [] {
      ParseUndoesPrint(es);
    } else {
      ParseFirst(es);
      var rest := FieldsOf(es[1..]);
      assert [] + rest == rest;
      if Misread(es[0]) { StandsExactly(es[0].source.value, es[1..]); } else { ParseExactly(es[1..]); }
      Cons(Meant(es[0]), Parse((if Misread(es[0]) then [es[0].source.value] else []) + rest), Meant(es[0]), MeantAll(es[1..]));
    }
  }

  /** Such a list: a source path that reads as a rename swallows the next entry and stands for
      it. */
  lemma SwallowedEntryHidesMisread(p: string, q: string)
    requires PathOk(p) && PathOk(q)
    ensures
      var a, b := Printed(' ', 'R', q, Some(['R', ' ', ' '] + p)), Printed(' ', 'M', p, None);
      && AllWellFormed([a, b]) && Misread(a)
      && Parse(Split(PrintAll([a, b]))) == MeantAll([a, b])
  {
    var source := ['R', ' ', ' '] + p;
    var a, b := Printed(' ', 'R', q, Some(source)), Printed(' ', 'M', p, None);
    assert [a, b][1..] == [b] && [b][1..] == [];
    assert source[PREFIX..] == p && source[..2] == ['R', ' '];
    assert StandsFor(source, [b]);
    ParseExactly([a, b]);
  }
}
