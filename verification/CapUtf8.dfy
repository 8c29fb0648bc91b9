/** Cutting a result text to a number of bytes (detach.go:580-590), over UTF-8 as sections 3 and 4
    of RFC 3629 define it. */
module CapUtf8 {

  type Byte = b: int | 0 <= b < 256

  predicate IsTail(b: Byte) { 0x80 <= b <= 0xBF }

  /** The byte may begin a character: it is not a continuation byte. */
  predicate RuneStart(b: Byte) { !IsTail(b) }

  /** How many bytes the character at `i` has within the first `j` bytes; 0 if there is none. */
  function CharLength(s: seq<Byte>, i: nat, j: nat): (n: nat)
    requires i < j <= |s|
    ensures n <= 4 && i + n <= j
    ensures n > 0 ==> RuneStart(s[i])
    ensures forall k :: i < k < i + n ==> IsTail(s[k])
  {
    var b := s[i];
    if b <= 0x7F then 1
    else if 0xC2 <= b <= 0xDF then if i + 2 <= j && IsTail(s[i + 1]) then 2 else 0
    else if 0xE0 <= b <= 0xEF then
      if i + 3 <= j && SecondOf3(b, s[i + 1]) && IsTail(s[i + 2]) then 3 else 0
    else if 0xF0 <= b <= 0xF4 then
      if i + 4 <= j && SecondOf4(b, s[i + 1]) && IsTail(s[i + 2]) && IsTail(s[i + 3]) then 4 else 0
    else 0
  }

  /** No overlong form and no surrogate. */
  predicate SecondOf3(first: Byte, b: Byte) {
    IsTail(b) && (first == 0xE0 ==> b >= 0xA0) && (first == 0xED ==> b <= 0x9F)
  }

  /** No overlong form and nothing past U+10FFFF. */
  predicate SecondOf4(first: Byte, b: Byte) {
    IsTail(b) && (first == 0xF0 ==> b >= 0x90) && (first == 0xF4 ==> b <= 0x8F)
  }

  /** The bytes from `i` up to `j` are whole characters. */
  predicate Chars(s: seq<Byte>, i: nat, j: nat)
    requires i <= j <= |s|
    decreases j - i
  {
    i == j || (CharLength(s, i, j) > 0 && Chars(s, i + CharLength(s, i, j), j))
  }

  predicate ValidUtf8(s: seq<Byte>) {
    Chars(s, 0, |s|)
  }

  lemma {:induction false} PrefixChars(s: seq<Byte>, i: nat, j: nat)
    requires i <= j <= |s|
    ensures Chars(s[..j], i, j) <==> Chars(s, i, j)
    decreases j - i
  {
    if i < j {
      var n := CharLength(s, i, j);
      assert n == CharLength(s[..j], i, j);
      if n > 0 { PrefixChars(s, i + n, j); }
    }
  }

  /** Valid text may be cut before any byte that may begin a character. */
  lemma {:induction false} CutAtStart(s: seq<Byte>, i: nat, cut: nat)
    requires i <= cut < |s| && Chars(s, i, |s|) && RuneStart(s[cut])
    ensures Chars(s, i, cut)
    decreases |s| - i
  {
    if i < cut {
      var n := CharLength(s, i, |s|);
      assert i + n <= cut;
      assert CharLength(s, i, cut) == n;
      CutAtStart(s, i + n, cut);
    }
  }

  /** Whole characters end where the next one begins. */
  lemma {:induction false} CutsAreStarts(s: seq<Byte>, i: nat, cut: nat)
    requires i <= cut < |s| && Chars(s, i, |s|) && Chars(s, i, cut)
    ensures RuneStart(s[cut])
    decreases |s| - i
  {
    if i < cut {
      var n := CharLength(s, i, cut);
      assert CharLength(s, i, |s|) == n;
      CutsAreStarts(s, i + n, cut);
    }
  }

  /** The character that holds byte `n` begins at most three bytes before it. */
  lemma {:induction false} StartIsNear(s: seq<Byte>, i: nat, n: nat) returns (c: nat)
    requires i <= n < |s| && Chars(s, i, |s|)
    ensures i <= c <= n <= c + 3 && RuneStart(s[c])
    decreases |s| - i
  {
    var k := CharLength(s, i, |s|);
    if n < i + k { c := i; } else { c := StartIsNear(s, i + k, n); }
  }

  /** What the cut keeps of valid text: whole characters, all that fit, losing at most three
      bytes. */
  ghost predicate IsLongestFit(s: seq<Byte>, n: nat, r: seq<Byte>) {
    && ValidUtf8(r) && n <= |r| + 3
    && forall j: nat :: j <= n && j <= |s| && ValidUtf8(s[..j]) ==> j <= |r|
  }

  method Cap(s: seq<Byte>, n: nat) returns (r: seq<Byte>, truncated: bool)
    ensures |r| <= n && r <= s
    ensures truncated <==> |s| > n
    ensures truncated <==> r != s
    ensures ValidUtf8(s) && truncated ==> IsLongestFit(s, n, r)
  {
    if |s| <= n { return s, false; }
    var cut := n;
    while cut > 0 && !RuneStart(s[cut])
      invariant 0 <= cut <= n < |s|
      invariant forall k :: cut < k <= n ==> !RuneStart(s[k])
    {
      cut := cut - 1;
    }
    if ValidUtf8(s) { CutIsLongest(s, n, cut); }
    return s[..cut], true;
  }

  lemma CutIsLongest(s: seq<Byte>, n: nat, cut: nat)
    requires ValidUtf8(s) && cut <= n < |s|
    requires cut == 0 || RuneStart(s[cut])
    requires forall k :: cut < k <= n ==> !RuneStart(s[k])
    ensures IsLongestFit(s, n, s[..cut])
  {
    PrefixChars(s, 0, cut);
    if cut > 0 { CutAtStart(s, 0, cut); }
    var c := StartIsNear(s, 0, n);
    forall j: nat | j <= n && ValidUtf8(s[..j]) ensures j <= cut {
      PrefixChars(s, 0, j);
      CutsAreStarts(s, 0, j);
    }
  }

  // Validity is what section 3 of RFC 3629 says: the encodings of Unicode scalar values.

  predicate IsScalar(u: int) { 0 <= u <= 0x10FFFF && !(0xD800 <= u <= 0xDFFF) }

  function Encode(u: int): (r: seq<Byte>)
    requires IsScalar(u)
  {
    if u < 0x80 then [u]
    else if u < 0x800 then [0xC0 + u / 64, 0x80 + u % 64]
    else if u < 0x1_0000 then [0xE0 + u / 64 / 64, 0x80 + u / 64 % 64, 0x80 + u % 64]
    else [0xF0 + u / 64 / 64 / 64, 0x80 + u / 64 / 64 % 64, 0x80 + u / 64 % 64, 0x80 + u % 64]
  }

  lemma Digits(x: int, y: int)
    requires 0 <= y < 64
    ensures (x * 64 + y) / 64 == x && (x * 64 + y) % 64 == y
  {
  }

  lemma EncodesTwo(a: Byte, b: Byte)
    requires 0xC2 <= a <= 0xDF && IsTail(b)
    ensures var u := (a as int - 0xC0) * 64 + (b as int - 0x80); IsScalar(u) && Encode(u) == [a, b]
  {
    Digits(a as int - 0xC0, b as int - 0x80);
  }

  lemma EncodesThree(a: Byte, b: Byte, c: Byte)
    requires 0xE0 <= a <= 0xEF && SecondOf3(a, b) && IsTail(c)
    ensures var u := ((a as int - 0xE0) * 64 + (b as int - 0x80)) * 64 + (c as int - 0x80);
      IsScalar(u) && Encode(u) == [a, b, c]
  {
    var v := (a as int - 0xE0) * 64 + (b as int - 0x80);
    Digits(a as int - 0xE0, b as int - 0x80);
    Digits(v, c as int - 0x80);
    assert 0x20 <= v < 0x400;
  }

  lemma EncodesFour(a: Byte, b: Byte, c: Byte, d: Byte)
    requires 0xF0 <= a <= 0xF4 && SecondOf4(a, b) && IsTail(c) && IsTail(d)
    ensures var u := (((a as int - 0xF0) * 64 + (b as int - 0x80)) * 64 + (c as int - 0x80)) * 64 + (d as int - 0x80);
      IsScalar(u) && Encode(u) == [a, b, c, d]
  {
    var v := (a as int - 0xF0) * 64 + (b as int - 0x80);
    var w := v * 64 + (c as int - 0x80);
    Digits(a as int - 0xF0, b as int - 0x80);
    Digits(v, c as int - 0x80);
    Digits(w, d as int - 0x80);
    assert 0x10 <= v < 0x110;
  }

  /** The encoding of a scalar value is one whole character. */
  lemma EncodedIsChar(u: int)
    requires IsScalar(u)
    ensures CharLength(Encode(u), 0, |Encode(u)|) == |Encode(u)|
  {
    var v := u / 64;
    var w := v / 64;
    assert u == v * 64 + u % 64 && v == w * 64 + v % 64;
    if 0x800 <= u < 0x1_0000 {
      assert SecondOf3(0xE0 + w, 0x80 + v % 64);
    } else if 0x1_0000 <= u {
      assert w == w / 64 * 64 + w % 64;
      assert SecondOf4(0xF0 + w / 64, 0x80 + w % 64);
    }
  }

  /** And every character is the encoding of one. */
  lemma CharIsEncoded(s: seq<Byte>, i: nat, j: nat)
    requires i < j <= |s| && CharLength(s, i, j) > 0
    ensures exists u :: IsScalar(u) && s[i..i + CharLength(s, i, j)] == Encode(u)
  {
    var n := CharLength(s, i, j);
    var one := s[i..i + n];
    if n == 1 {
      assert one == Encode(s[i]);
    } else if n == 2 {
      EncodesTwo(s[i], s[i + 1]);
      assert one == [s[i], s[i + 1]];
    } else if n == 3 {
      EncodesThree(s[i], s[i + 1], s[i + 2]);
      assert one == [s[i], s[i + 1], s[i + 2]];
    } else {
      EncodesFour(s[i], s[i + 1], s[i + 2], s[i + 3]);
      assert one == [s[i], s[i + 1], s[i + 2], s[i + 3]];
    }
  }
}
