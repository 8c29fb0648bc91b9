/** Runs of one character in a text, and the fields between separators. */
module Scanning {

  /** Where the run of `c` at `i` ends. */
  function SkipRun(s: string, i: nat, c: char): (e: nat)
    requires i <= |s|
    ensures i <= e <= |s|
    ensures forall k :: i <= k < e ==> s[k] == c
    ensures e < |s| ==> s[e] != c
    decreases |s| - i
  {
    if i < |s| && s[i] == c then SkipRun(s, i + 1, c) else i
  }

  /** The fields of `s` between separators: one more than there are separators. */
  function SplitOn(s: string, sep: char): (r: seq<string>)
    ensures |r| >= 1
  {
    if s == "" then [""]
    else
      var rest := SplitOn(s[1..], sep);
      if s[0] == sep then [""] + rest else [[s[0]] + rest[0]] + rest[1..]
  }

  lemma {:induction false} SplitOnField(a: string, b: string, sep: char)
    requires sep !in a
    ensures SplitOn(a + [sep] + b, sep) == [a] + SplitOn(b, sep)
  {
    var s := a + [sep] + b;
    if a == "" {
      assert s == [sep] + b;
    } else {
      assert s[1..] == a[1..] + [sep] + b;
      SplitOnField(a[1..], b, sep);
      assert [a[0]] + a[1..] == a;
      assert ([a[1..]] + SplitOn(b, sep))[1..] == SplitOn(b, sep);
    }
  }

  lemma {:induction false} SplitOnOne(a: string, sep: char)
    requires sep !in a
    ensures SplitOn(a, sep) == [a]
  {
    if a != "" {
      SplitOnOne(a[1..], sep);
      assert [a[0]] + a[1..] == a;
    }
  }

  /** No field holds the separator. */
  lemma {:induction false} FieldsAreClean(s: string, sep: char)
    ensures forall i :: 0 <= i < |SplitOn(s, sep)| ==> sep !in SplitOn(s, sep)[i]
  {
    if s != "" { FieldsAreClean(s[1..], sep); }
  }
}
