/**
  Heading normalisation (`preprocess_text`): one left-to-right pass of the
  case-insensitive rewrite `(SECTION\s+[IVXLCDM]+)\s*:` -> group 1, so that
  `SECTION I:` and `SECTION I` read alike. Matches do not overlap and the
  rewritten text is not rescanned.
 */
module Preprocess {
  import opened Options
  import opened Strings
  import opened Seqs

  /** A numeral letter in either case (the pattern is compiled with IGNORECASE). */
  predicate IsNumeralLetter(c: char) {
    var u := UpperChar(c);
    u == 'I' || u == 'V' || u == 'X' || u == 'L' || u == 'C' || u == 'D' || u == 'M'
  }

  /** Where a rewrite at the front of a string keeps up to (`keepEnd`) and where the match ends. */
  datatype Cut = Cut(keepEnd: nat, matchEnd: nat)

  /**
    The pattern anchored at the start of `s`. Each quantifier is followed by a
    character it cannot consume, so the greedy runs are the only way to match.
   */
  function HeadingColon(s: string): (m: Option<Cut>)
    ensures m.Some? ==> 7 < m.value.keepEnd < m.value.matchEnd <= |s|
    ensures m.Some? ==> s[m.value.matchEnd - 1] == ':'
    ensures m.Some? ==> AllSpace(s[m.value.keepEnd..m.value.matchEnd - 1])
  {
    if !StartsWithAt(s, 0, "SECTION") then None
    else
      var w := SkipWhile(s, 7, IsSpace);
      if w == 7 then None
      else
        var n := SkipWhile(s, w, IsNumeralLetter);
        if n == w then None
        else
          var c := SkipWhile(s, n, IsSpace);
          if c < |s| && s[c] == ':' then Some(Cut(n, c + 1)) else None
  }

  /**
    `(SECTION\s+[IVXLCDM]+)\s*:` matches at the front of `s` along some path
    of the engine: the blanks end at `w`, the numerals at `n`, and the colon
    is the last character before `m`.
   */
  ghost predicate IsHeadingMatch(s: string, w: nat, n: nat, m: nat) {
    && 7 < w < n < m <= |s|
    && StartsWithAt(s, 0, "SECTION")
    && (forall k :: 7 <= k < w ==> IsSpace(s[k]))
    && (forall k :: w <= k < n ==> IsNumeralLetter(s[k]))
    && (forall k :: n <= k < m - 1 ==> IsSpace(s[k]))
    && s[m - 1] == ':'
  }

  /** In a match, the blanks after `SECTION` and the numerals are the runs `HeadingColon` skips. */
  lemma HeadingMatchRuns(s: string, w: nat, n: nat, m: nat)
    requires IsHeadingMatch(s, w, n, m)
    ensures w == SkipWhile(s, 7, IsSpace) && n == SkipWhile(s, w, IsNumeralLetter)
  {
    assert !IsSpace(s[w]);
    SkipWhileExact(s, 7, w, IsSpace);
    assert !IsNumeralLetter(s[n]);
    SkipWhileExact(s, w, n, IsNumeralLetter);
  }

  /** `HeadingColon` read off the three runs it skips. */
  lemma HeadingColonFromRuns(s: string, w: nat, n: nat, c: nat)
    requires StartsWithAt(s, 0, "SECTION")
    requires w == SkipWhile(s, 7, IsSpace) && 7 < w
    requires n == SkipWhile(s, w, IsNumeralLetter) && w < n
    requires c == SkipWhile(s, n, IsSpace) && c < |s| && s[c] == ':'
    ensures HeadingColon(s) == Some(Cut(n, c + 1))
  {
  }

  /** Every match of the pattern at the front is the one `HeadingColon` reports. */
  lemma HeadingColonComplete(s: string, w: nat, n: nat, m: nat)
    requires IsHeadingMatch(s, w, n, m)
    ensures HeadingColon(s) == Some(Cut(n, m))
  {
    HeadingMatchRuns(s, w, n, m);
    assert SkipWhile(s, n, IsSpace) == m - 1 by {
      assert !IsSpace(s[m - 1]);
      SkipWhileExact(s, n, m - 1, IsSpace);
    }
    HeadingColonFromRuns(s, w, n, m - 1);
  }

  /**
    `HeadingColon` is the pattern at the front, both ways: what it reports is
    a match, and it finds nothing exactly when no path of the engine matches.
   */
  lemma HeadingColonExact(s: string)
    ensures HeadingColon(s).Some? ==> IsHeadingMatch(s, SkipWhile(s, 7, IsSpace), HeadingColon(s).value.keepEnd, HeadingColon(s).value.matchEnd)
    ensures HeadingColon(s).None? <==> forall w: nat, n: nat, m: nat :: !IsHeadingMatch(s, w, n, m)
  {
    forall w: nat, n: nat, m: nat | IsHeadingMatch(s, w, n, m)
      ensures HeadingColon(s).Some?
    {
      HeadingColonComplete(s, w, n, m);
    }
    if HeadingColon(s).Some? {
      var cut := HeadingColon(s).value;
      assert IsHeadingMatch(s, SkipWhile(s, 7, IsSpace), cut.keepEnd, cut.matchEnd);
    }
  }

  /** The rewritten text; the recursion walks the input once. */
  function PreprocessText(text: string): (r: string)
    ensures |r| <= |text|
    decreases |text|
  {
    if text == [] then []
    else
      match HeadingColon(text)
      case Some(cut) => text[..cut.keepEnd] + PreprocessText(text[cut.matchEnd..])
      case None => [text[0]] + PreprocessText(text[1..])
  }

  /** Characters other than whitespace and colons, in order. */
  function Kept(s: string): string
    decreases |s|
  {
    if s == [] then []
    else if IsSpace(s[0]) || s[0] == ':' then Kept(s[1..])
    else [s[0]] + Kept(s[1..])
  }

  lemma {:induction false} KeptAppend(a: string, b: string)
    ensures Kept(a + b) == Kept(a) + Kept(b)
    decreases |a|
  {
    if a == [] {
      assert a + b == b;
    } else {
      assert (a + b)[0] == a[0];
      assert (a + b)[1..] == a[1..] + b;
      KeptAppend(a[1..], b);
    }
  }

  lemma {:induction false} KeptDropped(s: string)
    requires forall k :: 0 <= k < |s| ==> IsSpace(s[k]) || s[k] == ':'
    ensures Kept(s) == []
    decreases |s|
  {
    if s != [] {
      KeptDropped(s[1..]);
    }
  }

  /** Cutting out a run of whitespace and colons leaves `Kept` unchanged. */
  lemma KeptAroundCut(text: string, i: nat, j: nat)
    requires i <= j <= |text|
    requires forall k :: i <= k < j ==> IsSpace(text[k]) || text[k] == ':'
    ensures Kept(text) == Kept(text[..i]) + Kept(text[j..])
  {
    var a, mid, rest := text[..i], text[i..j], text[j..];
    assert Kept(mid) == [] by {
      forall k | 0 <= k < |mid|
        ensures IsSpace(mid[k]) || mid[k] == ':'
      {
        assert mid[k] == text[i + k];
      }
      KeptDropped(mid);
    }
    assert Kept(a + mid) == Kept(a) by {
      KeptAppend(a, mid);
      assert Kept(a) + [] == Kept(a);
    }
    assert Kept(text) == Kept(a + mid) + Kept(rest) by {
      ThreeParts(text, i, j);
      KeptAppend(a + mid, rest);
    }
  }

  lemma KeptStepRewrite(text: string, cut: Cut)
    requires HeadingColon(text) == Some(cut)
    requires Kept(PreprocessText(text[cut.matchEnd..])) == Kept(text[cut.matchEnd..])
    ensures Kept(PreprocessText(text)) == Kept(text)
  {
    var rest := text[cut.matchEnd..];
    assert PreprocessText(text) == text[..cut.keepEnd] + PreprocessText(rest);
    KeptAppend(text[..cut.keepEnd], PreprocessText(rest));
    KeptAroundCut(text, cut.keepEnd, cut.matchEnd);
  }

  lemma KeptStepCopy(text: string)
    requires text != [] && HeadingColon(text).None?
    requires Kept(PreprocessText(text[1..])) == Kept(text[1..])
    ensures Kept(PreprocessText(text)) == Kept(text)
  {
    assert PreprocessText(text) == [text[0]] + PreprocessText(text[1..]);
    KeptAppend([text[0]], PreprocessText(text[1..]));
    KeptAroundCut(text, 1, 1);
  }

  /** Only whitespace and colons are ever deleted; everything else survives in order. */
  lemma {:induction false} OnlySpacesAndColonsRemoved(text: string)
    ensures Kept(PreprocessText(text)) == Kept(text)
    decreases |text|
  {
    if text != [] {
      var m := HeadingColon(text);
      if m.Some? {
        OnlySpacesAndColonsRemoved(text[m.value.matchEnd..]);
        KeptStepRewrite(text, m.value);
      } else {
        OnlySpacesAndColonsRemoved(text[1..]);
        KeptStepCopy(text);
      }
    }
  }

  /** Text without a colon has nothing to rewrite. */
  lemma {:induction false} NoColonUnchanged(text: string)
    requires forall k :: 0 <= k < |text| ==> text[k] != ':'
    ensures PreprocessText(text) == text
    decreases |text|
  {
    if text != [] {
      assert HeadingColon(text).None?;
      NoColonUnchanged(text[1..]);
      assert text == [text[0]] + text[1..];
    }
  }

  /** Text in which the pattern matches at no position is returned as it is. */
  lemma {:induction false} NoHeadingUnchanged(text: string)
    requires forall k :: 0 <= k < |text| ==> HeadingColon(text[k..]).None?
    ensures PreprocessText(text) == text
    decreases |text|
  {
    if text != [] {
      assert HeadingColon(text[0..]).None?;
      assert text[0..] == text;
      forall k | 0 <= k < |text[1..]|
        ensures HeadingColon(text[1..][k..]).None?
      {
        assert text[1..][k..] == text[k + 1..];
      }
      NoHeadingUnchanged(text[1..]);
      assert text == [text[0]] + text[1..];
    }
  }

  /** A match at any position is reached by the scan and makes the text shorter. */
  lemma {:induction false} HeadingShortens(text: string, k: nat)
    requires k < |text| && HeadingColon(text[k..]).Some?
    ensures |PreprocessText(text)| < |text|
    decreases |text|
  {
    assert text[0..] == text;
    if HeadingColon(text).None? {
      assert text[1..][k - 1..] == text[k..];
      HeadingShortens(text[1..], k - 1);
    }
  }

  /** The rewrite leaves a text alone exactly when the pattern matches nowhere in it. */
  lemma UnchangedIffNoHeading(text: string)
    ensures PreprocessText(text) == text <==> forall k :: 0 <= k < |text| ==> HeadingColon(text[k..]).None?
  {
    if forall k :: 0 <= k < |text| ==> HeadingColon(text[k..]).None? {
      NoHeadingUnchanged(text);
    } else {
      var k :| 0 <= k < |text| && HeadingColon(text[k..]).Some?;
      HeadingShortens(text, k);
    }
  }

  /** `SECTION <numerals>:` followed by colon-free text loses exactly that colon. */
  lemma {:induction false} SingleHeadingColonRemoved(numerals: string, rest: string)
    requires numerals != [] && forall k :: 0 <= k < |numerals| ==> IsNumeralLetter(numerals[k])
    requires forall k :: 0 <= k < |rest| ==> rest[k] != ':'
    ensures PreprocessText("SECTION " + numerals + ":" + rest) == "SECTION " + numerals + rest
  {
    var s := "SECTION " + numerals + ":" + rest;
    var n := 8 + |numerals|;
    assert s[..7] == "SECTION";
    assert StartsWithAt(s, 0, "SECTION");
    assert !IsSpace(s[8]) by { assert s[8] == numerals[0]; }
    SkipWhileExact(s, 7, 8, IsSpace);
    assert forall k :: 8 <= k < n ==> s[k] == numerals[k - 8];
    assert s[n] == ':';
    SkipWhileExact(s, 8, n, IsNumeralLetter);
    SkipWhileExact(s, n, n, IsSpace);
    assert HeadingColon(s) == Some(Cut(n, n + 1));
    assert s[n + 1..] == rest;
    NoColonUnchanged(rest);
    assert PreprocessText(s) == s[..n] + PreprocessText(rest);
    assert s[..n] == "SECTION " + numerals;
  }

  /** The colon goes; the rest of `SECTION IV: Summary` stays. */
  lemma SummaryHeadingExample()
    ensures PreprocessText("SECTION " + "IV" + ":" + " Summary") == "SECTION " + "IV" + " Summary"
  {
    SingleHeadingColonRemoved("IV", " Summary");
  }

  /** One pass removes one colon only: applying the rewrite twice is not the same as once. */
  lemma NotIdempotent()
    ensures PreprocessText("SECTION I::") == "SECTION I:"
    ensures PreprocessText(PreprocessText("SECTION I::")) == "SECTION I"
  {
    var s := "SECTION I::";
    var n := 9;
    assert StartsWithAt(s, 0, "SECTION");
    SkipWhileExact(s, 7, 8, IsSpace);
    SkipWhileExact(s, 8, n, IsNumeralLetter);
    SkipWhileExact(s, n, n, IsSpace);
    assert HeadingColon(s) == Some(Cut(n, n + 1));
    assert s[n + 1..] == ":";
    assert HeadingColon(":").None?;
    assert PreprocessText(":") == ":";
    assert PreprocessText(s) == s[..n] + ":";
    assert s[..n] + ":" == "SECTION I:";
    SingleHeadingColonRemoved("I", "");
    assert "SECTION " + "I" + ":" + "" == "SECTION I:";
    assert "SECTION " + "I" + "" == "SECTION I";
  }
}
