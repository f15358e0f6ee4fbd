/**
  The handful of Python `str` primitives the extractor relies on: whitespace as
  `str.isspace` / regex `\s` see it, `strip`, `find`, `splitlines`, ASCII case
  mapping and decimal conversion between numbers and digit strings.
 */
module Strings {
  import opened Options

  /** `str.isspace()` on one code point; regex `\s` and `str.strip()` use the same set. */
  predicate IsSpace(c: char) {
    || ('\t' <= c <= '\r')
    || ('\U{1C}' <= c <= ' ')
    || c == '\U{85}' || c == '\U{A0}' || c == '\U{1680}'
    || ('\U{2000}' <= c <= '\U{200A}')
    || c == '\U{2028}' || c == '\U{2029}' || c == '\U{202F}' || c == '\U{205F}' || c == '\U{3000}'
  }

  /** The code points at which `str.splitlines()` ends a line. */
  predicate IsLineBreak(c: char) {
    || c == '\n' || c == '\r' || c == '\U{0B}' || c == '\U{0C}'
    || ('\U{1C}' <= c <= '\U{1E}')
    || c == '\U{85}' || c == '\U{2028}' || c == '\U{2029}'
  }

  predicate IsLineChar(c: char) { !IsLineBreak(c) }

  /** Whitespace other than `\n`. */
  predicate IsSpaceNotNewline(c: char) { IsSpace(c) && c != '\n' }

  predicate IsDigit(c: char) { '0' <= c <= '9' }

  predicate IsAsciiUpper(c: char) { 'A' <= c <= 'Z' }

  predicate IsAsciiLetter(c: char) { 'A' <= c <= 'Z' || 'a' <= c <= 'z' }

  /** Upper-casing restricted to ASCII letters. */
  function UpperChar(c: char): char {
    if 'a' <= c <= 'z' then (c as int - 32) as char else c
  }

  function Upper(s: string): string {
    seq(|s|, k requires 0 <= k < |s| => UpperChar(s[k]))
  }

  predicate AllSpace(s: string) { forall k :: 0 <= k < |s| ==> IsSpace(s[k]) }

  predicate AllDigits(s: string) { forall k :: 0 <= k < |s| ==> IsDigit(s[k]) }

  predicate NoLineBreak(s: string) { forall k :: 0 <= k < |s| ==> IsLineChar(s[k]) }

  /** No whitespace at either end: what `strip()` leaves behind. */
  predicate IsStripped(s: string) { s == [] || (!IsSpace(s[0]) && !IsSpace(s[|s| - 1])) }

  /** Case-insensitive (ASCII) match of the upper-case `word` at position `i` of `s`. */
  predicate StartsWithAt(s: string, i: nat, word: string) {
    i + |word| <= |s| && forall k :: 0 <= k < |word| ==> UpperChar(s[i + k]) == word[k]
  }

  /** The end of the longest run of characters satisfying `p` that starts at `i`. */
  function SkipWhile(s: string, i: nat, p: char -> bool): (j: nat)
    requires i <= |s|
    ensures i <= j <= |s|
    ensures forall k :: i <= k < j ==> p(s[k])
    ensures j < |s| ==> !p(s[j])
    decreases |s| - i
  {
    if i == |s| || !p(s[i]) then i else SkipWhile(s, i + 1, p)
  }

  /** The start of the longest run of characters satisfying `p` that ends at `j`, not going below `lo`. */
  function SkipBackWhile(s: string, lo: nat, j: nat, p: char -> bool): (i: nat)
    requires lo <= j <= |s|
    ensures lo <= i <= j
    ensures forall k :: i <= k < j ==> p(s[k])
    ensures lo < i ==> !p(s[i - 1])
    decreases j - lo
  {
    if j == lo || !p(s[j - 1]) then j else SkipBackWhile(s, lo, j - 1, p)
  }

  /** A run that ends where `p` first fails is the one `SkipWhile` finds. */
  lemma SkipWhileExact(s: string, i: nat, j: nat, p: char -> bool)
    requires i <= j <= |s|
    requires forall k :: i <= k < j ==> p(s[k])
    requires j < |s| ==> !p(s[j])
    ensures SkipWhile(s, i, p) == j
    decreases j - i
  {
    if i < j {
      SkipWhileExact(s, i + 1, j, p);
    }
  }

  /** `r` sits at offset `i` of `s` with only whitespace around it. */
  ghost predicate StrippedAt(s: string, r: string, i: nat) {
    i + |r| <= |s| && s[i..i + |r|] == r && AllSpace(s[..i]) && AllSpace(s[i + |r|..])
  }

  /** Python's `s.strip()`. */
  function Strip(s: string): (r: string)
    ensures IsStripped(r)
    ensures exists i: nat :: StrippedAt(s, r, i)
    ensures r == [] <==> AllSpace(s)
  {
    var i := SkipWhile(s, 0, IsSpace);
    var j := SkipBackWhile(s, i, |s|, IsSpace);
    assert StrippedAt(s, s[i..j], i);
    s[i..j]
  }

  /** Stripping only removes characters, so a property of every character survives it. */
  lemma StripKeepsClass(s: string, p: char -> bool)
    requires forall k :: 0 <= k < |s| ==> p(s[k])
    ensures forall k :: 0 <= k < |Strip(s)| ==> p(Strip(s)[k])
  {
    var r := Strip(s);
    var i: nat :| StrippedAt(s, r, i);
    assert forall k :: 0 <= k < |r| ==> r[k] == s[i + k];
  }

  /** Stripping a piece of a text leaves a (smaller) piece of the same text. */
  lemma StripOfSliceIsSlice(s: string, a: nat, b: nat)
    requires a <= b <= |s|
    ensures exists i: nat, j: nat :: a <= i <= j <= b && Strip(s[a..b]) == s[i..j]
  {
    var r := Strip(s[a..b]);
    var i: nat :| StrippedAt(s[a..b], r, i);
    assert r == s[a..b][i..i + |r|];
    assert r == s[a + i..a + i + |r|] by {
      forall k | 0 <= k < |r| ensures r[k] == s[a + i + k] {
        assert r[k] == s[a..b][i + k];
      }
    }
    assert a <= a + i <= a + i + |r| <= b;
  }

  /** A text that starts with a non-blank keeps that first character when stripped. */
  lemma StripKeepsHead(s: string)
    requires s != [] && !IsSpace(s[0])
    ensures Strip(s) != [] && Strip(s)[0] == s[0]
  {
    var r := Strip(s);
    assert !AllSpace(s) by {
      assert !IsSpace(s[0]);
    }
  }

  lemma StripKeepsStripped(s: string)
    requires IsStripped(s)
    ensures Strip(s) == s
  {
    var i := SkipWhile(s, 0, IsSpace);
    var j := SkipBackWhile(s, i, |s|, IsSpace);
    if s != [] {
      assert i == 0;
      assert j == |s|;
    }
  }

  /** A slice bound as Python reads it: negative bounds count from the end, and both are clamped to the string. */
  function SliceBound(n: nat, x: int): (b: nat)
    ensures b <= n
    ensures 0 <= x <= n ==> b == x
  {
    if x < 0 then (if x + n < 0 then 0 else x + n) else if x > n then n else x
  }

  /** Python's `s[lo:hi]`. */
  function PySlice(s: string, lo: int, hi: int): (r: string)
    ensures |r| <= |s|
  {
    var a := SliceBound(|s|, lo);
    var b := SliceBound(|s|, hi);
    if a < b then s[a..b] else []
  }

  /** Within bounds, a Python slice is the plain sub-sequence; a high bound past the end is clipped. */
  lemma PySliceInRange(s: string, lo: nat, hi: int)
    requires lo <= |s| && lo <= hi
    ensures PySlice(s, lo, hi) == s[lo..if hi <= |s| then hi else |s|]
  {
  }

  /** `pat` occurs in `s` starting at index `i`. */
  predicate OccursAt(s: string, pat: string, i: nat) {
    i + |pat| <= |s| && s[i..i + |pat|] == pat
  }

  /** `i` is the first occurrence of `pat` in `s` at or after `from`. */
  ghost predicate IsFirstFrom(s: string, pat: string, from: nat, i: nat) {
    from <= i && OccursAt(s, pat, i) && forall k :: from <= k < i ==> !OccursAt(s, pat, k)
  }

  /** Python's `s.find(pat, from)`, with `None` for -1. */
  function Find(s: string, pat: string, from: nat): (r: Option<nat>)
    ensures r.Some? ==> IsFirstFrom(s, pat, from, r.value)
    ensures r.None? <==> forall k :: from <= k ==> !OccursAt(s, pat, k)
    decreases |s| - from
  {
    if from + |pat| > |s| then None
    else if s[from..from + |pat|] == pat then Some(from)
    else Find(s, pat, from + 1)
  }

  /** The first occurrence is unique, so any declared first occurrence is what `Find` returns. */
  lemma FindIsFirst(s: string, pat: string, from: nat, i: nat)
    requires IsFirstFrom(s, pat, from, i)
    ensures Find(s, pat, from) == Some(i)
  {
  }

  /** `find` only looks at the text up to the end of the occurrence it reports. */
  lemma FindPrefixLocal(s: string, t: string, pat: string, n: nat)
    requires n <= |s| && n <= |t| && s[..n] == t[..n]
    requires Find(s, pat, 0).Some? && Find(s, pat, 0).value + |pat| <= n
    ensures Find(t, pat, 0) == Find(s, pat, 0)
  {
    var i := Find(s, pat, 0).value;
    forall k | 0 <= k <= i
      ensures OccursAt(t, pat, k) == OccursAt(s, pat, k)
    {
      assert k + |pat| <= n;
      assert s[k..k + |pat|] == s[..n][k..k + |pat|];
      assert t[k..k + |pat|] == t[..n][k..k + |pat|];
    }
    FindIsFirst(t, pat, 0, i);
  }

  /** Python's `s.splitlines()` (separators dropped, no entry after a final break). */
  function SplitLines(s: string): (lines: seq<string>)
    ensures forall k :: 0 <= k < |lines| ==> NoLineBreak(lines[k])
    ensures lines == [] <==> s == []
    decreases |s|
  {
    if s == [] then []
    else
      var i := SkipWhile(s, 0, IsLineChar);
      if i == |s| then [s]
      else
        var next := if s[i] == '\r' && i + 1 < |s| && s[i + 1] == '\n' then i + 2 else i + 1;
        [s[..i]] + SplitLines(s[next..])
  }

  /** Each line followed by a newline. */
  function JoinLines(lines: seq<string>): string {
    if lines == [] then [] else lines[0] + "\n" + JoinLines(lines[1..])
  }

  /** Splitting newline-terminated lines gives the lines back. */
  lemma {:induction false} SplitJoinLines(lines: seq<string>)
    requires forall k :: 0 <= k < |lines| ==> NoLineBreak(lines[k])
    ensures SplitLines(JoinLines(lines)) == lines
  {
    if lines != [] {
      var s := JoinLines(lines);
      var l := lines[0];
      assert s == l + "\n" + JoinLines(lines[1..]);
      var i := SkipWhile(s, 0, IsLineChar);
      assert s[|l|] == '\n';
      assert forall k :: 0 <= k < |l| ==> s[k] == l[k];
      assert i == |l|;
      assert s[..i] == l;
      assert s[i + 1..] == JoinLines(lines[1..]);
      SplitJoinLines(lines[1..]);
    }
  }

  function DigitValue(c: char): nat
    requires IsDigit(c)
  {
    c as int - '0' as int
  }

  function DigitChar(d: nat): (c: char)
    requires d < 10
    ensures IsDigit(c) && DigitValue(c) == d
  {
    ('0' as int + d) as char
  }

  /** The number a string of decimal digits denotes (`int(s)` on such a string). */
  function DecimalValue(s: string): nat
    requires AllDigits(s)
    decreases |s|
  {
    if s == [] then 0 else 10 * DecimalValue(s[..|s| - 1]) + DigitValue(s[|s| - 1])
  }

  /** Decimal digits of `n` without leading zeros (`str(n)`). */
  function NatToString(n: nat): (r: string)
    ensures r != [] && AllDigits(r)
    decreases n
  {
    if n < 10 then [DigitChar(n)] else NatToString(n / 10) + [DigitChar(n % 10)]
  }

  /** `str(n)` for any integer. */
  function IntToString(n: int): string {
    if n < 0 then "-" + NatToString(-n) else NatToString(n)
  }

  /** `int(s)` restricted to an optional minus sign followed by decimal digits. */
  function ParseInt(s: string): Option<int> {
    if |s| > 1 && s[0] == '-' && AllDigits(s[1..]) then Some(0 - DecimalValue(s[1..]))
    else if s != [] && AllDigits(s) then Some(DecimalValue(s))
    else None
  }

  lemma {:induction false} NatToStringRoundTrip(n: nat)
    ensures DecimalValue(NatToString(n)) == n
  {
    if n >= 10 {
      var s := NatToString(n);
      assert s[..|s| - 1] == NatToString(n / 10);
      NatToStringRoundTrip(n / 10);
    }
  }

  /** Printing an integer and reading it back gives the integer. */
  lemma IntToStringRoundTrip(n: int)
    ensures ParseInt(IntToString(n)) == Some(n)
  {
    if n < 0 {
      var s := IntToString(n);
      assert s[1..] == NatToString(-n);
      NatToStringRoundTrip(-n);
    } else {
      NatToStringRoundTrip(n);
    }
  }
}
