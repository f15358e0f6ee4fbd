/**
  Company-name extraction (`extract_company_name`): a `re.search`, with
  IGNORECASE and MULTILINE, for
      ^([A-Z0-9\s,&\.\-]+)\s*\n\s*Corporate Identity Number:?
  whose group 1, stripped, is the name; `"Unknown Company"` when nothing matches.
  The search takes the leftmost line start at which the pattern matches, and
  there the greedy group takes the longest span that still lets the rest match.
 */
module CompanyName {
  import opened Options
  import opened Strings

  const UnknownCompany := "Unknown Company"

  /** The marker, upper-cased; it is matched case-insensitively. */
  const Marker := "CORPORATE IDENTITY NUMBER"

  /** The group's character class `[A-Z0-9\s,&\.\-]` under IGNORECASE. */
  predicate IsNameChar(c: char) {
    IsAsciiLetter(c) || IsDigit(c) || IsSpace(c) || c == ',' || c == '&' || c == '.' || c == '-'
  }

  /** `^` under MULTILINE: the start of the text or just after a `\n`. */
  predicate IsLineStart(text: string, p: nat) {
    p == 0 || (p <= |text| && text[p - 1] == '\n')
  }

  /**
    `\s*\n\s*Corporate Identity Number` matches at `e`: the whitespace run from
    `e` contains a newline and the marker follows it. The trailing `:?` never
    decides whether there is a match.
   */
  predicate MarkerFollows(text: string, e: nat)
    requires e <= |text|
  {
    var w := SkipWhile(text, e, IsSpace);
    '\n' in text[e..w] && StartsWithAt(text, w, Marker)
  }

  /**
    One path of the engine through `\s*\n\s*Corporate Identity Number` from
    `e`: blanks up to the newline at `a`, blanks after it, the marker at `b`.
   */
  ghost predicate IsMarkerPath(text: string, e: nat, a: nat, b: nat) {
    && e <= a < b <= |text|
    && (forall k :: e <= k < a ==> IsSpace(text[k]))
    && text[a] == '\n'
    && (forall k :: a + 1 <= k < b ==> IsSpace(text[k]))
    && StartsWithAt(text, b, Marker)
  }

  /** The single whitespace run of `MarkerFollows` stands for every way the engine can split it. */
  lemma MarkerFollowsExact(text: string, e: nat)
    requires e <= |text|
    ensures MarkerFollows(text, e) <==> exists a: nat, b: nat :: IsMarkerPath(text, e, a, b)
  {
    var w := SkipWhile(text, e, IsSpace);
    if MarkerFollows(text, e) {
      var j :| 0 <= j < |text[e..w]| && text[e..w][j] == '\n';
      assert text[e + j] == '\n';
      assert IsMarkerPath(text, e, e + j, w) by {
        assert e + j < w;
      }
    }
    forall a: nat, b: nat | IsMarkerPath(text, e, a, b)
      ensures MarkerFollows(text, e)
    {
      MarkerPathRun(text, e, a, b);
    }
  }

  /** Along any path, the whitespace run from `e` ends at the marker and holds the newline. */
  lemma MarkerPathRun(text: string, e: nat, a: nat, b: nat)
    requires IsMarkerPath(text, e, a, b)
    ensures SkipWhile(text, e, IsSpace) == b && '\n' in text[e..b]
  {
    assert UpperChar(text[b + 0]) == Marker[0] == 'C';
    assert !IsSpace(text[b]);
    SkipWhileExact(text, e, b, IsSpace);
    assert text[e..b][a - e] == '\n';
  }

  /** The pattern matches with group 1 spanning `text[p..e]`. */
  predicate IsNameMatch(text: string, p: nat, e: nat) {
    && p < e <= |text|
    && IsLineStart(text, p)
    && (forall k :: p <= k < e ==> IsNameChar(text[k]))
    && MarkerFollows(text, e)
  }

  /** The match `re.search` reports: leftmost start, then the longest group. */
  ghost predicate IsReportedMatch(text: string, p: nat, e: nat) {
    && IsNameMatch(text, p, e)
    && (forall p': nat, e': nat :: p' < p ==> !IsNameMatch(text, p', e'))
    && (forall e': nat :: e < e' ==> !IsNameMatch(text, p, e'))
  }

  /** Backtracking of the greedy group: the largest end in `(p, e]` after which the marker follows. */
  function LongestNameEnd(text: string, p: nat, e: nat): (r: Option<nat>)
    requires p <= e <= |text|
    ensures r.Some? ==> p < r.value <= e && MarkerFollows(text, r.value)
    ensures r.Some? ==> forall e': nat :: r.value < e' <= e ==> !MarkerFollows(text, e')
    ensures r.None? ==> forall e': nat :: p < e' <= e ==> !MarkerFollows(text, e')
    decreases e
  {
    if e == p then None
    else if MarkerFollows(text, e) then Some(e)
    else LongestNameEnd(text, p, e - 1)
  }

  /** The search proper, trying start positions from `p` on. */
  function SearchFrom(text: string, p: nat): (r: Option<(nat, nat)>)
    ensures r.Some? ==> p <= r.value.0 && IsNameMatch(text, r.value.0, r.value.1)
    ensures r.Some? ==> forall p': nat, e': nat :: p <= p' < r.value.0 ==> !IsNameMatch(text, p', e')
    ensures r.Some? ==> forall e': nat :: r.value.1 < e' ==> !IsNameMatch(text, r.value.0, e')
    ensures r.None? ==> forall p': nat, e': nat :: p <= p' ==> !IsNameMatch(text, p', e')
    decreases |text| - p
  {
    if p >= |text| then None
    else
      var q := SkipWhile(text, p, IsNameChar);
      var e := if IsLineStart(text, p) then LongestNameEnd(text, p, q) else None;
      if e.Some? then Some((p, e.value)) else SearchFrom(text, p + 1)
  }

  /** The reported match is the one the search finds. */
  lemma SearchFindsReportedMatch(text: string, p: nat, e: nat)
    requires IsReportedMatch(text, p, e)
    ensures SearchFrom(text, 0) == Some((p, e))
  {
    var r := SearchFrom(text, 0);
    assert IsNameMatch(text, p, e);
    assert r.Some?;
    var (p0, e0) := r.value;
    assert IsNameMatch(text, p0, e0);
  }

  /** The company name, or `"Unknown Company"` when the pattern does not match. */
  function ExtractCompanyName(text: string): (name: string)
    ensures (forall p: nat, e: nat :: !IsNameMatch(text, p, e)) ==> name == UnknownCompany
    ensures forall p: nat, e: nat :: IsReportedMatch(text, p, e) ==> name == Strip(text[p..e])
    ensures name == UnknownCompany || (IsStripped(name) && forall k :: 0 <= k < |name| ==> IsNameChar(name[k]))
  {
    var m := SearchFrom(text, 0);
    if m.None? then UnknownCompany
    else
      var (p, e) := m.value;
      StripKeepsClass(text[p..e], IsNameChar);
      assert forall p': nat, e': nat | IsReportedMatch(text, p', e') :: p' == p && e' == e by {
        forall p': nat, e': nat | IsReportedMatch(text, p', e') ensures p' == p && e' == e {
          SearchFindsReportedMatch(text, p', e');
        }
      }
      Strip(text[p..e])
  }
}
