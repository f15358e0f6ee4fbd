/**
  Table-of-contents parsing (`extract_toc_entries`). The first exact,
  case-sensitive occurrence of `TABLE OF CONTENTS` anchors a window of at most
  6500 characters; each of its lines, stripped, is matched against
      ^(SECTION\s+([IVXLCDM]+)):?\s*[-–]\s*([A-Z\s,&\-]+?)\s+\.{3,}\s+(\d+)\s*$
  and every matching line gives one entry, in line order.
 */
module Toc {
  import opened Options
  import opened Strings
  import opened Seqs

  const TocAnchor := "TABLE OF CONTENTS"
  const TocWindow := 6500

  /** One outline entry: the numeral, the title and the page, all as matched text. */
  datatype TocEntry = TocEntry(roman: string, chapterName: string, page: string)

  predicate IsNumeral(c: char) {
    c == 'I' || c == 'V' || c == 'X' || c == 'L' || c == 'C' || c == 'D' || c == 'M'
  }

  /** The separator class `[-–]`: hyphen-minus or en dash. */
  predicate IsDash(c: char) { c == '-' || c == '\U{2013}' }

  predicate IsDot(c: char) { c == '.' }

  /** The title class `[A-Z\s,&\-]` (the pattern is case-sensitive). */
  predicate IsTitleChar(c: char) {
    IsAsciiUpper(c) || IsSpace(c) || c == ',' || c == '&' || c == '-'
  }

  /** The shape every parsed entry has. */
  predicate WellFormedEntry(e: TocEntry) {
    && e.roman != [] && (forall k :: 0 <= k < |e.roman| ==> IsNumeral(e.roman[k]))
    && e.page != [] && AllDigits(e.page)
    && IsStripped(e.chapterName) && (forall k :: 0 <= k < |e.chapterName| ==> IsTitleChar(e.chapterName[k]))
  }

  /**
    `\.{3,}\s+(\d+)\s*$` at `b`, giving the bounds of the page digits. Each run
    is followed by a character it cannot take, so only the greedy runs can
    match; `$` holds at the end of the line or before a `\n`, so the trailing
    `\s*` may stop at the first `\n`.
   */
  function DotsTail(line: string, b: nat): (r: Option<(nat, nat)>)
    requires b <= |line|
    ensures r.Some? ==> b + 3 < r.value.0 < r.value.1 <= |line| && IsDot(line[b])
    ensures r.Some? ==> AllDigits(line[r.value.0..r.value.1])
  {
    var c := SkipWhile(line, b, IsDot);
    if c - b < 3 then None
    else
      var p := SkipWhile(line, c, IsSpace);
      if p == c then None
      else
        var e := SkipWhile(line, p, IsDigit);
        if e == p then None
        else
          var f := SkipWhile(line, e, IsSpaceNotNewline);
          if f == |line| || line[f] == '\n' then
            SliceKeepsClass(line, p, e, IsDigit);
            Some((p, e))
          else None
  }

  /** `\s+\.{3,}\s+(\d+)\s*$` at `g`: the part of the pattern after the title. */
  function LeaderTail(line: string, g: nat): (r: Option<(nat, nat)>)
    requires g <= |line|
    ensures r.Some? ==> g < r.value.0 < r.value.1 <= |line| && AllDigits(line[r.value.0..r.value.1])
  {
    var b := SkipWhile(line, g, IsSpace);
    if b == g then None else DotsTail(line, b)
  }

  /**
    `\.{3,}\s+(\d+)\s*$` matches at `b` along some path of the engine: dots
    up to `c`, blanks up to `p`, the page digits `line[p..e]`, then blanks up
    to a place `f` where `$` holds.
   */
  ghost predicate IsDotsTailMatch(line: string, b: nat, c: nat, p: nat, e: nat, f: nat) {
    && b + 3 <= c < p < e <= f <= |line|
    && (forall k :: b <= k < c ==> IsDot(line[k]))
    && (forall k :: c <= k < p ==> IsSpace(line[k]))
    && (forall k :: p <= k < e ==> IsDigit(line[k]))
    && (forall k :: e <= k < f ==> IsSpace(line[k]))
    && (f == |line| || line[f] == '\n')
  }

  /** Any way the tail can match at `b` puts the page digits where `DotsTail` finds them. */
  lemma DotsTailComplete(line: string, b: nat, c: nat, p: nat, e: nat, f: nat)
    requires IsDotsTailMatch(line, b, c, p, e, f)
    ensures DotsTail(line, b) == Some((p, e))
  {
    assert !IsDot(line[c]) && !IsSpace(line[p]);
    SkipWhileExact(line, b, c, IsDot);
    SkipWhileExact(line, c, p, IsSpace);
    SkipWhileExact(line, p, e, IsDigit);
    var f' := SkipWhile(line, e, IsSpaceNotNewline);
    if f' < f {
      assert IsSpace(line[f']) && !IsSpaceNotNewline(line[f']);
    } else if f < |line| {
      assert !IsSpaceNotNewline(line[f]);
      assert f' == f;
    }
  }

  /** What `DotsTail` reports is a match of the tail. */
  lemma DotsTailSound(line: string, b: nat)
    requires b <= |line|
    ensures DotsTail(line, b).Some? ==>
      exists c: nat, f: nat :: IsDotsTailMatch(line, b, c, DotsTail(line, b).value.0, DotsTail(line, b).value.1, f)
  {
    if DotsTail(line, b).Some? {
      var (p, e) := DotsTail(line, b).value;
      var c := SkipWhile(line, b, IsDot);
      var f := SkipWhile(line, e, IsSpaceNotNewline);
      assert IsDotsTailMatch(line, b, c, p, e, f);
    }
  }

  /** `\s+` from `g`, then the tail at `b`. */
  ghost predicate IsLeaderMatch(line: string, g: nat, b: nat, c: nat, p: nat, e: nat, f: nat) {
    g < b <= |line| && (forall k :: g <= k < b ==> IsSpace(line[k])) && IsDotsTailMatch(line, b, c, p, e, f)
  }

  /**
    `LeaderTail` is the pattern's part after the title, both ways: it finds
    nothing exactly when no path of the engine matches there, and every match
    has the page digits it reports.
   */
  lemma LeaderTailExact(line: string, g: nat, b: nat, c: nat, p: nat, e: nat, f: nat)
    requires g <= |line|
    ensures IsLeaderMatch(line, g, b, c, p, e, f) ==> LeaderTail(line, g) == Some((p, e))
    ensures LeaderTail(line, g).Some? ==>
      exists b: nat, c: nat, f: nat :: IsLeaderMatch(line, g, b, c, LeaderTail(line, g).value.0, LeaderTail(line, g).value.1, f)
  {
    if IsLeaderMatch(line, g, b, c, p, e, f) {
      assert !IsSpace(line[b]);
      SkipWhileExact(line, g, b, IsSpace);
      DotsTailComplete(line, b, c, p, e, f);
    }
    if LeaderTail(line, g).Some? {
      var b' := SkipWhile(line, g, IsSpace);
      DotsTailSound(line, b');
      var (p', e') := LeaderTail(line, g).value;
      var c', f' :| IsDotsTailMatch(line, b', c', p', e', f');
      assert IsLeaderMatch(line, g, b', c', p', e', f');
    }
  }

  /** The lazy title group can span `line[a..g]` with the rest of the pattern matching after it. */
  ghost predicate TitleThenTail(line: string, a: nat, g: nat) {
    a < g <= |line| && (forall k :: a <= k < g ==> IsTitleChar(line[k])) && LeaderTail(line, g).Some?
  }

  /** After the separator, ending at `d`: `\s*` spans `line[d..a]` and the title spans `line[a..g]`. */
  ghost predicate IsTitleSplit(line: string, d: nat, a: nat, g: nat) {
    d <= a <= |line| && AllSpace(line[d..a]) && TitleThenTail(line, a, g)
  }

  /**
    The split the backtracking engine reports: the greedy `\s*` gives back as
    little as it can, and then the lazy title takes as little as it can.
   */
  ghost predicate IsReportedSplit(line: string, d: nat, a: nat, g: nat) {
    IsTitleSplit(line, d, a, g) && NoLaterStart(line, d, a) && NoShorterTitle(line, d, a, g)
  }

  /** No split starts its title after `a`. */
  ghost predicate NoLaterStart(line: string, d: nat, a: nat) {
    forall a': nat, g': nat :: a < a' ==> !IsTitleSplit(line, d, a', g')
  }

  /** No split with its title starting at `a` ends it before `g`. */
  ghost predicate NoShorterTitle(line: string, d: nat, a: nat, g: nat) {
    forall g': nat :: g' < g ==> !IsTitleSplit(line, d, a, g')
  }

  /**
    The split computed directly. `w` ends the whitespace after the separator
    and `q` the run of title characters after it. The title must end in
    whitespace that reaches `q`, where the leader dots start. When no title
    character follows the whitespace, the title is one of its blanks.
   */
  function TitleSplit(line: string, d: nat): (r: Option<(nat, nat)>)
    requires d <= |line|
    ensures r.Some? ==> d <= r.value.0 < r.value.1 < |line|
  {
    var w := SkipWhile(line, d, IsSpace);
    var q := SkipWhile(line, w, IsTitleChar);
    if DotsTail(line, q).None? then None
    else if w < q then
      var s := SkipBackWhile(line, w, q, IsSpace);
      if s < q then Some((w, s)) else None
    else if d + 2 <= w then Some((w - 2, w - 1))
    else None
  }

  /** Which title spans the rest of the pattern accepts, once the title run `q` from `a` is known. */
  lemma TitleThenTailIff(line: string, a: nat, g: nat)
    requires a <= |line|
    ensures var q := SkipWhile(line, a, IsTitleChar);
      TitleThenTail(line, a, g) <==>
        a < g < q && (forall k :: g <= k < q ==> IsSpace(line[k])) && DotsTail(line, q).Some?
  {
    var q := SkipWhile(line, a, IsTitleChar);
    if TitleThenTail(line, a, g) {
      var b := SkipWhile(line, g, IsSpace);
      assert IsDot(line[b]);
      assert forall k :: a <= k < b ==> IsTitleChar(line[k]) by {
        forall k | a <= k < b ensures IsTitleChar(line[k]) {
          if k >= g {
            assert IsSpace(line[k]);
          }
        }
      }
      SkipWhileExact(line, a, b, IsTitleChar);
    } else if a < g < q && (forall k :: g <= k < q ==> IsSpace(line[k])) && DotsTail(line, q).Some? {
      SkipWhileExact(line, g, q, IsSpace);
    }
  }

  lemma AllSpaceSlice(line: string, d: nat, a: nat)
    requires d <= a <= |line|
    ensures AllSpace(line[d..a]) <==> forall k :: d <= k < a ==> IsSpace(line[k])
  {
    if forall k :: d <= k < a ==> IsSpace(line[k]) {
      forall k | 0 <= k < a - d ensures IsSpace(line[d..a][k]) {
        assert line[d..a][k] == line[d + k];
      }
    }
    if AllSpace(line[d..a]) {
      forall k | d <= k < a ensures IsSpace(line[k]) {
        assert line[d..a][k - d] == line[k];
      }
    }
  }

  /** Every split, in terms of the whitespace end `w` and the title run end `q`. */
  lemma IsTitleSplitIff(line: string, d: nat, a: nat, g: nat)
    requires d <= |line|
    ensures var w := SkipWhile(line, d, IsSpace); var q := SkipWhile(line, w, IsTitleChar);
      IsTitleSplit(line, d, a, g) <==>
        d <= a <= w && a < g < q && (forall k :: g <= k < q ==> IsSpace(line[k])) && DotsTail(line, q).Some?
  {
    var w := SkipWhile(line, d, IsSpace);
    var q := SkipWhile(line, w, IsTitleChar);
    if d <= a <= |line| {
      AllSpaceSlice(line, d, a);
      if a <= w {
        SkipWhileExact(line, a, q, IsTitleChar);
        TitleThenTailIff(line, a, g);
      }
    }
  }

  /** `IsTitleSplitIff` with the two runs named. */
  lemma SplitFacts(line: string, d: nat, w: nat, q: nat, a: nat, g: nat)
    requires d <= |line| && w == SkipWhile(line, d, IsSpace) && q == SkipWhile(line, w, IsTitleChar)
    ensures IsTitleSplit(line, d, a, g) <==>
      d <= a <= w && a < g < q && (forall k :: g <= k < q ==> IsSpace(line[k])) && DotsTail(line, q).Some?
  {
    IsTitleSplitIff(line, d, a, g);
  }

  /** With title characters after the blanks, the engine's split keeps all blanks before the title and ends it at the trailing blanks. */
  lemma ReportedSplitAfterTitle(line: string, d: nat, w: nat, q: nat)
    requires d <= |line| && w == SkipWhile(line, d, IsSpace) && q == SkipWhile(line, w, IsTitleChar)
    requires w < q && TitleSplit(line, d).Some?
    ensures IsReportedSplit(line, d, TitleSplit(line, d).value.0, TitleSplit(line, d).value.1)
  {
    var s := SkipBackWhile(line, w, q, IsSpace);
    assert TitleSplit(line, d) == Some((w, s)) && DotsTail(line, q).Some?;
    assert w < s by {
      assert !IsSpace(line[w]);
    }
    assert !IsSpace(line[s - 1]);
    assert IsTitleSplit(line, d, w, s) by {
      SplitFacts(line, d, w, q, w, s);
    }
    assert NoLaterStart(line, d, w) by {
      forall a': nat, g': nat | w < a'
        ensures !IsTitleSplit(line, d, a', g')
      {
        SplitFacts(line, d, w, q, a', g');
      }
    }
    assert NoShorterTitle(line, d, w, s) by {
      forall g': nat | g' < s
        ensures !IsTitleSplit(line, d, w, g')
      {
        SplitFacts(line, d, w, q, w, g');
      }
    }
  }

  /** With no title character after the blanks, the engine's title is the second-to-last blank. */
  lemma ReportedSplitBlank(line: string, d: nat, w: nat, q: nat, a: nat, g: nat)
    requires d <= |line| && w == SkipWhile(line, d, IsSpace) && q == SkipWhile(line, w, IsTitleChar)
    requires q <= w && d <= a && a + 2 == w && g == a + 1 && DotsTail(line, q).Some?
    ensures IsReportedSplit(line, d, a, g)
  {
    BlankSplitIsSplit(line, d, w, q);
    BlankSplitLatest(line, d, w, q);
    BlankSplitShortest(line, d, w, q, a);
  }

  /** The blank-only case of `TitleSplit`: the title is the second-to-last blank. */
  lemma BlankSplitValue(line: string, d: nat, w: nat, q: nat)
    requires d <= |line| && w == SkipWhile(line, d, IsSpace) && q == SkipWhile(line, w, IsTitleChar)
    requires q <= w && TitleSplit(line, d).Some?
    ensures d + 2 <= w && DotsTail(line, q).Some? && TitleSplit(line, d) == Some((w - 2, w - 1))
  {
  }

  /** The second-to-last blank is an accepted title. */
  lemma BlankSplitIsSplit(line: string, d: nat, w: nat, q: nat)
    requires d <= |line| && w == SkipWhile(line, d, IsSpace) && q == SkipWhile(line, w, IsTitleChar)
    requires q <= w && d + 2 <= w && DotsTail(line, q).Some?
    ensures IsTitleSplit(line, d, w - 2, w - 1)
  {
    SplitFacts(line, d, w, q, w - 2, w - 1);
  }

  /** No accepted title starts after the second-to-last blank. */
  lemma BlankSplitLatest(line: string, d: nat, w: nat, q: nat)
    requires d <= |line| && w == SkipWhile(line, d, IsSpace) && q == SkipWhile(line, w, IsTitleChar)
    requires q <= w && d + 2 <= w
    ensures NoLaterStart(line, d, w - 2)
  {
    forall a': nat, g': nat | w - 2 < a'
      ensures !IsTitleSplit(line, d, a', g')
    {
      SplitFacts(line, d, w, q, a', g');
    }
  }

  /** No shorter title starts at the second-to-last blank. */
  lemma BlankSplitShortest(line: string, d: nat, w: nat, q: nat, a: nat)
    requires d <= |line| && w == SkipWhile(line, d, IsSpace) && q == SkipWhile(line, w, IsTitleChar)
    requires q <= w && d <= a && a + 2 == w
    ensures NoShorterTitle(line, d, a, a + 1)
  {
    forall g': nat | g' < a + 1
      ensures !IsTitleSplit(line, d, a, g')
    {
      SplitFacts(line, d, w, q, a, g');
    }
  }

  /** When `TitleSplit` finds nothing, no split of the rest of the line is accepted. */
  lemma NoSplitWhenNone(line: string, d: nat)
    requires d <= |line| && TitleSplit(line, d).None?
    ensures forall a: nat, g: nat :: !IsTitleSplit(line, d, a, g)
  {
    var w := SkipWhile(line, d, IsSpace);
    var q := SkipWhile(line, w, IsTitleChar);
    forall a: nat, g: nat
      ensures !IsTitleSplit(line, d, a, g)
    {
      SplitFacts(line, d, w, q, a, g);
      if w < q {
        var s := SkipBackWhile(line, w, q, IsSpace);
        assert s < q ==> DotsTail(line, q).None?;
        assert g < q && w < q ==> (IsSpace(line[q - 1]) ==> s < q);
      }
    }
  }

  /** `TitleSplit` reports exactly the split the engine reports, and reports none when no split exists. */
  lemma TitleSplitIsReported(line: string, d: nat)
    requires d <= |line|
    ensures TitleSplit(line, d).Some? ==> IsReportedSplit(line, d, TitleSplit(line, d).value.0, TitleSplit(line, d).value.1)
    ensures TitleSplit(line, d).None? ==> forall a: nat, g: nat :: !IsTitleSplit(line, d, a, g)
  {
    if TitleSplit(line, d).None? {
      NoSplitWhenNone(line, d);
    } else {
      SomeSplitIsReported(line, d);
    }
  }

  /** The two shapes of a found split, each the engine's. */
  lemma SomeSplitIsReported(line: string, d: nat)
    requires d <= |line| && TitleSplit(line, d).Some?
    ensures IsReportedSplit(line, d, TitleSplit(line, d).value.0, TitleSplit(line, d).value.1)
  {
    var w := SkipWhile(line, d, IsSpace);
    var q := SkipWhile(line, w, IsTitleChar);
    if w < q {
      ReportedSplitAfterTitle(line, d, w, q);
    } else {
      BlankSplitValue(line, d, w, q);
      ReportedSplitBlank(line, d, w, q, TitleSplit(line, d).value.0, TitleSplit(line, d).value.1);
    }
  }

  /** The split found is one the pattern accepts. */
  lemma TitleSplitSound(line: string, d: nat)
    requires d <= |line|
    ensures TitleSplit(line, d).Some? ==> TitleThenTail(line, TitleSplit(line, d).value.0, TitleSplit(line, d).value.1)
  {
    TitleSplitIsReported(line, d);
  }

  /** Where the numerals sit and where the title part begins, once `SECTION ... [-–]` has matched. */
  datatype Head = Head(numStart: nat, numEnd: nat, afterDash: nat)

  /** `SECTION\s+([IVXLCDM]+):?\s*[-–]` at the start of the line; every step is forced. */
  function HeadOf(line: string): (h: Option<Head>)
    ensures h.Some? ==> 7 < h.value.numStart < h.value.numEnd < h.value.afterDash <= |line|
    ensures h.Some? ==> line[..7] == "SECTION" && IsDash(line[h.value.afterDash - 1])
    ensures h.Some? ==> forall k :: h.value.numStart <= k < h.value.numEnd ==> IsNumeral(line[k])
  {
    if |line| < 7 || line[..7] != "SECTION" then None
    else
      var s := SkipWhile(line, 7, IsSpace);
      if s == 7 then None
      else
        var n := SkipWhile(line, s, IsNumeral);
        if n == s then None
        else
          var c := if n < |line| && line[n] == ':' then n + 1 else n;
          var p := SkipWhile(line, c, IsSpace);
          if p == |line| || !IsDash(line[p]) then None
          else Some(Head(s, n, p + 1))
  }

  /**
    `SECTION\s+([IVXLCDM]+):?\s*[-–]` matches at the start of the line along
    some path of the engine, with the numerals at `line[s..n]` and the
    separator just before `e`.
   */
  ghost predicate IsHeadMatch(line: string, s: nat, n: nat, e: nat) {
    && 7 < s < n < e <= |line|
    && line[..7] == "SECTION"
    && (forall k :: 7 <= k < s ==> IsSpace(line[k]))
    && (forall k :: s <= k < n ==> IsNumeral(line[k]))
    && ((forall k :: n <= k < e - 1 ==> IsSpace(line[k]))
        || (line[n] == ':' && forall k :: n + 1 <= k < e - 1 ==> IsSpace(line[k])))
    && IsDash(line[e - 1])
  }

  /** `HeadOf` read off the three runs it skips. */
  lemma HeadOfFromRuns(line: string, s: nat, n: nat, c: nat, p: nat)
    requires 7 <= |line| && line[..7] == "SECTION"
    requires s == SkipWhile(line, 7, IsSpace) && 7 < s
    requires n == SkipWhile(line, s, IsNumeral) && s < n
    requires c == if n < |line| && line[n] == ':' then n + 1 else n
    requires p == SkipWhile(line, c, IsSpace) && p < |line| && IsDash(line[p])
    ensures HeadOf(line) == Some(Head(s, n, p + 1))
  {
  }

  /** In a match, the blanks after `SECTION` and the numerals are the runs `HeadOf` skips. */
  lemma HeadMatchRuns(line: string, s: nat, n: nat, e: nat)
    requires IsHeadMatch(line, s, n, e)
    ensures s == SkipWhile(line, 7, IsSpace) && n == SkipWhile(line, s, IsNumeral)
  {
    assert !IsSpace(line[s]);
    SkipWhileExact(line, 7, s, IsSpace);
    assert !IsNumeral(line[n]);
    SkipWhileExact(line, s, n, IsNumeral);
  }

  /** In a match, the blanks after the numerals and the optional colon end at the dash. */
  lemma HeadMatchBlanks(line: string, s: nat, n: nat, e: nat)
    requires IsHeadMatch(line, s, n, e)
    ensures SkipWhile(line, if line[n] == ':' then n + 1 else n, IsSpace) == e - 1
  {
    assert !IsSpace(line[e - 1]);
    if line[n] == ':' {
      assert !IsSpace(line[n]) && !IsDash(line[n]);
      SkipWhileExact(line, n + 1, e - 1, IsSpace);
    } else {
      SkipWhileExact(line, n, e - 1, IsSpace);
    }
  }

  /** Every match of the head is the one `HeadOf` reports: each run is followed by a character it cannot take. */
  lemma HeadOfComplete(line: string, s: nat, n: nat, e: nat)
    requires IsHeadMatch(line, s, n, e)
    ensures HeadOf(line) == Some(Head(s, n, e))
  {
    HeadMatchRuns(line, s, n, e);
    HeadMatchBlanks(line, s, n, e);
    HeadOfFromRuns(line, s, n, if line[n] == ':' then n + 1 else n, e - 1);
  }

  /**
    `HeadOf` is the head of the pattern, both ways: what it reports is a
    match, and it finds nothing exactly when no path of the engine matches.
   */
  lemma HeadOfExact(line: string)
    ensures HeadOf(line).Some? ==> IsHeadMatch(line, HeadOf(line).value.numStart, HeadOf(line).value.numEnd, HeadOf(line).value.afterDash)
    ensures HeadOf(line).None? <==> forall s: nat, n: nat, e: nat :: !IsHeadMatch(line, s, n, e)
  {
    forall s: nat, n: nat, e: nat | IsHeadMatch(line, s, n, e)
      ensures HeadOf(line).Some?
    {
      HeadOfComplete(line, s, n, e);
    }
    if HeadOf(line).Some? {
      var h := HeadOf(line).value;
      assert IsHeadMatch(line, h.numStart, h.numEnd, h.afterDash);
    }
  }

  /** The entry built from the three groups, each stripped as the source does. */
  function EntryOf(roman: string, title: string, page: string): (e: TocEntry)
    requires roman != [] && forall k :: 0 <= k < |roman| ==> IsNumeral(roman[k])
    requires forall k :: 0 <= k < |title| ==> IsTitleChar(title[k])
    requires page != [] && AllDigits(page)
    ensures WellFormedEntry(e)
    ensures e == TocEntry(roman, Strip(title), page)
  {
    assert IsNumeral(roman[0]) && IsNumeral(roman[|roman| - 1]);
    assert IsDigit(page[0]) && IsDigit(page[|page| - 1]);
    StripKeepsClass(title, IsTitleChar);
    StripKeepsStripped(roman);
    StripKeepsStripped(page);
    TocEntry(Strip(roman), Strip(title), Strip(page))
  }

  /** `pattern.match(line)` on a (stripped) TOC line. */
  function MatchTocLine(line: string): (r: Option<TocEntry>)
    ensures r.Some? ==> WellFormedEntry(r.value)
  {
    match HeadOf(line)
    case None => None
    case Some(h) =>
      match TitleSplit(line, h.afterDash)
      case None => None
      case Some((a, g)) =>
        TitleSplitSound(line, h.afterDash);
        var (c, d) := LeaderTail(line, g).value;
        SliceKeepsClass(line, h.numStart, h.numEnd, IsNumeral);
        SliceKeepsClass(line, a, g, IsTitleChar);
        Some(EntryOf(line[h.numStart..h.numEnd], line[a..g], line[c..d]))
  }

  /** A line matches exactly when its head matches and some split of the rest does. */
  lemma MatchTocLineIff(line: string)
    ensures MatchTocLine(line).Some? <==>
      HeadOf(line).Some? && exists a: nat, g: nat :: IsTitleSplit(line, HeadOf(line).value.afterDash, a, g)
  {
    if HeadOf(line).Some? {
      TitleSplitIsReported(line, HeadOf(line).value.afterDash);
    }
  }

  /**
    The groups of a match: the numerals between `SECTION\s+` and the
    separator, the stripped title of the split the engine reports, and the
    page digits that follow its leader.
   */
  lemma MatchTocLineGroups(line: string)
    requires MatchTocLine(line).Some?
    ensures HeadOf(line).Some?
    ensures var h := HeadOf(line).value; var e := MatchTocLine(line).value;
      && e.roman == line[h.numStart..h.numEnd]
      && (exists a: nat, g: nat :: IsReportedSplit(line, h.afterDash, a, g) && e.chapterName == Strip(line[a..g])
           && LeaderTail(line, g).Some? && e.page == line[LeaderTail(line, g).value.0..LeaderTail(line, g).value.1])
  {
    var h := HeadOf(line).value;
    var split := TitleSplit(line, h.afterDash).value;
    TitleSplitSound(line, h.afterDash);
    var tail := LeaderTail(line, split.1).value;
    GroupsAt(line, h, split.0, split.1, tail.0, tail.1);
    TitleSplitIsReported(line, h.afterDash);
  }

  /** The groups of a match, once its positions are named. */
  lemma GroupsAt(line: string, h: Head, a: nat, g: nat, c: nat, d: nat)
    requires HeadOf(line) == Some(h) && TitleSplit(line, h.afterDash) == Some((a, g))
    requires LeaderTail(line, g) == Some((c, d))
    ensures MatchTocLine(line) == Some(TocEntry(line[h.numStart..h.numEnd], Strip(line[a..g]), line[c..d]))
  {
    assert h.numEnd < h.afterDash <= a < g < c < d <= |line|;
  }

  /** The separator is required: a line without a hyphen or en dash never matches. */
  lemma DashRequired(line: string)
    requires forall k :: 0 <= k < |line| ==> !IsDash(line[k])
    ensures MatchTocLine(line).None?
  {
  }

  /** One line of the window: stripped, then matched. */
  function MatchLine(line: string): (r: Option<TocEntry>)
    ensures r.Some? ==> WellFormedEntry(r.value)
  {
    MatchTocLine(Strip(line))
  }

  /** The entries of a list of lines: one per matching line, in line order. */
  function EntriesOf(lines: seq<string>): (r: seq<TocEntry>)
    ensures |r| <= |lines|
    ensures forall k :: 0 <= k < |r| ==> WellFormedEntry(r[k])
  {
    var m := Map(MatchLine, lines);
    forall k | 0 <= k < |Somes(m)| ensures WellFormedEntry(Somes(m)[k]) {
      SomesFrom(m, k);
    }
    Somes(m)
  }

  /** Entries keep line order: the lines of `a` contribute before those of `b`. */
  lemma EntriesOfAppend(a: seq<string>, b: seq<string>)
    ensures EntriesOf(a + b) == EntriesOf(a) + EntriesOf(b)
  {
    MapAppend(MatchLine, a, b);
    SomesAppend(Map(MatchLine, a), Map(MatchLine, b));
  }

  /** A single line gives its match or nothing. */
  lemma EntriesOfLine(line: string)
    ensures EntriesOf([line]) == match MatchTocLine(Strip(line)) case Some(e) => [e] case None => []
  {
    var m := Map(MatchLine, [line]);
    assert m[1..] == [];
  }

  /** `text[start:start + 6500]`, clipped to the text. */
  function Window(text: string, start: nat): string
    requires start <= |text|
  {
    text[start..if start + TocWindow <= |text| then start + TocWindow else |text|]
  }

  function ExtractTocEntries(text: string): (r: seq<TocEntry>)
    ensures (forall k: nat :: !OccursAt(text, TocAnchor, k)) ==> r == []
    ensures forall k :: 0 <= k < |r| ==> WellFormedEntry(r[k])
  {
    match Find(text, TocAnchor, 0)
    case None => []
    case Some(start) => EntriesOf(SplitLines(Window(text, start)))
  }

  /** Nothing after the window matters: texts that agree up to its end give the same entries. */
  lemma OnlyWindowMatters(t1: string, t2: string, n: nat)
    requires n <= |t1| && n <= |t2| && t1[..n] == t2[..n]
    requires Find(t1, TocAnchor, 0).Some? && Find(t1, TocAnchor, 0).value + TocWindow <= n
    ensures ExtractTocEntries(t1) == ExtractTocEntries(t2)
  {
    var start := Find(t1, TocAnchor, 0).value;
    FindPrefixLocal(t1, t2, TocAnchor, n);
    SameSlice(t1, t2, n, start, start + TocWindow);
    assert Window(t1, start) == Window(t2, start);
  }
}
