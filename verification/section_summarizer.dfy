/**
  The part of the summariser that does not talk to the language model:
  splitting a text into overlapping windows (`_chunk_text`) and the rule that
  only sections with some non-blank text get a summary (`summarize_sections`).
  The summary of one section is a parameter.
 */
module SectionSummarizer {
  import opened Options
  import opened Strings
  import opened Seqs
  import opened Records

  /** `range()` refuses a zero step with a `ValueError`. */
  datatype ChunkError = ZeroStep

  /** The windows starting at `i`, `i + step`, ... below `|text|`, each `max_chars` long before clipping. */
  function ChunksFrom(text: string, i: nat, maxChars: int, step: nat): (r: seq<string>)
    requires step > 0
    ensures |r| == WindowCount(|text| - i, step)
    decreases |text| - i
  {
    if i >= |text| then [] else [PySlice(text, i, i + maxChars)] + ChunksFrom(text, i + step, maxChars, step)
  }

  /** A text with something left at `i` has a window there, followed by the windows one step on. */
  lemma ChunksFromStep(text: string, i: nat, maxChars: int, step: nat)
    requires step > 0 && i < |text|
    ensures ChunksFrom(text, i, maxChars, step) != []
    ensures ChunksFrom(text, i, maxChars, step)[0] == PySlice(text, i, i + maxChars)
    ensures ChunksFrom(text, i, maxChars, step)[1..] == ChunksFrom(text, i + step, maxChars, step)
  {
  }

  /** Window `k > 0` from `i` is window `k - 1` from one step on. */
  lemma ChunkShift(text: string, i: nat, maxChars: int, step: nat, k: nat)
    requires step > 0 && 0 < k < |ChunksFrom(text, i, maxChars, step)|
    ensures k - 1 < |ChunksFrom(text, i + step, maxChars, step)|
    ensures ChunksFrom(text, i, maxChars, step)[k] == ChunksFrom(text, i + step, maxChars, step)[k - 1]
  {
    assert i < |text|;
  }

  /** How many of `0, step, 2 * step, ...` lie below `n`. */
  function WindowCount(n: int, step: nat): nat
    requires step > 0
    decreases n
  {
    if n <= 0 then 0 else 1 + WindowCount(n - step, step)
  }

  /** `WindowCount` is the ceiling of `n / step`: the least count whose multiple of `step` reaches `n`. */
  lemma {:induction false} WindowCountBounds(n: int, step: nat)
    requires step > 0
    ensures WindowCount(n, step) * step >= n
    ensures WindowCount(n, step) > 0 ==> (WindowCount(n, step) - 1) * step < n
    decreases n
  {
    if n > 0 {
      var c := WindowCount(n - step, step);
      WindowCountBounds(n - step, step);
      assert (c + 1) * step == c * step + step;
      assert c > 0 ==> c * step == (c - 1) * step + step;
    }
  }

  /** `i` moved on by `k` steps. */
  function Offset(i: nat, k: nat, step: nat): nat
    decreases k
  {
    if k == 0 then i else Offset(i + step, k - 1, step)
  }

  lemma {:induction false} OffsetIsProduct(i: nat, k: nat, step: nat)
    ensures Offset(i, k, step) == i + k * step
    decreases k
  {
    if k > 0 {
      OffsetIsProduct(i + step, k - 1, step);
      assert k * step == (k - 1) * step + step;
    }
  }

  /** Window `k` from `i` is the first window from `k` steps after `i`. */
  lemma {:induction false} ChunkAt(text: string, i: nat, maxChars: int, step: nat, k: nat)
    requires step > 0 && k < |ChunksFrom(text, i, maxChars, step)|
    ensures Offset(i, k, step) < |text|
    ensures ChunksFrom(text, i, maxChars, step)[k] == ChunksFrom(text, Offset(i, k, step), maxChars, step)[0]
    decreases k
  {
    assert i < |text|;
    if k > 0 {
      ChunkShift(text, i, maxChars, step, k);
      ChunkAt(text, i + step, maxChars, step, k - 1);
      assert Offset(i, k, step) == Offset(i + step, k - 1, step);
    }
  }

  /** `_chunk_text(text, max_chars, overlap)`: the loop over `range(0, len(text), max_chars - overlap)`. */
  method ChunkText(text: string, maxChars: int, overlap: int) returns (r: Result<seq<string>, ChunkError>)
    ensures r.Failure? <==> maxChars == overlap
    ensures maxChars < overlap ==> r == Success([])
    ensures maxChars > overlap ==> r == Success(ChunksFrom(text, 0, maxChars, maxChars - overlap))
  {
    var step := maxChars - overlap;
    if step == 0 {
      return Failure(ZeroStep);
    }
    if step < 0 {
      return Success([]);
    }
    var chunks: seq<string> := [];
    var i: nat := 0;
    while i < |text|
      invariant chunks + ChunksFrom(text, i, maxChars, step) == ChunksFrom(text, 0, maxChars, step)
      decreases |text| - i
    {
      var chunk := PySlice(text, i, i + maxChars);
      assert ChunksFrom(text, i, maxChars, step) == [chunk] + ChunksFrom(text, i + step, maxChars, step);
      chunks := chunks + [chunk];
      i := i + step;
    }
    assert chunks + [] == chunks;
    return Success(chunks);
  }

  /**
    Windows start every `step` characters, so their number is the least whose
    multiple of `step` reaches the length, and window `k` is
    `text[k * step : k * step + max_chars]`.
   */
  lemma ChunkCount(text: string, maxChars: int, step: nat)
    requires step > 0
    ensures var r := ChunksFrom(text, 0, maxChars, step);
      && |r| * step >= |text|
      && (r != [] ==> (|r| - 1) * step < |text|)
      && forall k :: 0 <= k < |r| ==> r[k] == PySlice(text, k * step, k * step + maxChars)
  {
    WindowCountBounds(|text|, step);
    forall k | 0 <= k < |ChunksFrom(text, 0, maxChars, step)|
      ensures ChunksFrom(text, 0, maxChars, step)[k] == PySlice(text, k * step, k * step + maxChars)
    {
      ChunkAt(text, 0, maxChars, step, k);
      ChunksFromStep(text, Offset(0, k, step), maxChars, step);
      OffsetIsProduct(0, k, step);
    }
  }

  /** With a positive `max_chars`, every window is non-empty and at most `max_chars` long. */
  lemma {:induction false} ChunkLengths(text: string, i: nat, maxChars: int, step: nat, k: nat)
    requires 0 < maxChars && 0 < step
    requires k < |ChunksFrom(text, i, maxChars, step)|
    ensures 0 < |ChunksFrom(text, i, maxChars, step)[k]| <= maxChars
    decreases k
  {
    assert i < |text|;
    ChunksFromStep(text, i, maxChars, step);
    if k == 0 {
      WindowLength(text, i, maxChars);
    } else {
      ChunkLengths(text, i + step, maxChars, step, k - 1);
    }
  }

  /** A window that starts inside the text is non-empty and at most `m` long. */
  lemma WindowLength(text: string, lo: nat, m: int)
    requires lo < |text| && m > 0
    ensures 0 < |PySlice(text, lo, lo + m)| <= m
  {
  }

  /** Consecutive windows overlap: what follows the first `step` characters of one window begins the next. */
  lemma {:induction false} ChunksOverlap(text: string, i: nat, maxChars: int, step: nat, k: nat)
    requires 0 < step <= maxChars
    requires k + 1 < |ChunksFrom(text, i, maxChars, step)|
    ensures var r := ChunksFrom(text, i, maxChars, step);
      && step <= |r[k]|
      && r[k][step..] <= r[k + 1]
    decreases k
  {
    var r := ChunksFrom(text, i, maxChars, step);
    var rest := ChunksFrom(text, i + step, maxChars, step);
    assert i < |text|;
    ChunksFromStep(text, i, maxChars, step);
    if k == 0 {
      assert i + step < |text|;
      ChunksFromStep(text, i + step, maxChars, step);
      NeighbourSlicesOverlap(text, i, maxChars, step);
    } else {
      ChunksOverlap(text, i + step, maxChars, step, k - 1);
      ChunkShift(text, i, maxChars, step, k);
      ChunkShift(text, i, maxChars, step, k + 1);
    }
  }

  /** Two windows `step` apart share everything past the first `step` characters of the first. */
  lemma NeighbourSlicesOverlap(text: string, i: nat, maxChars: int, step: nat)
    requires 0 < step <= maxChars && i + step < |text|
    ensures var w := PySlice(text, i, i + maxChars);
      && step <= |w|
      && w[step..] <= PySlice(text, i + step, i + step + maxChars)
  {
    PySliceInRange(text, i, i + maxChars);
    PySliceInRange(text, i + step, i + step + maxChars);
    var hi := if i + maxChars <= |text| then i + maxChars else |text|;
    assert PySlice(text, i, i + maxChars)[step..] == text[i + step..hi];
  }

  /** Each window up to the start of the next, then the last window whole. */
  function Reassemble(chunks: seq<string>, step: nat): string {
    if chunks == [] then []
    else if |chunks| == 1 then chunks[0]
    else (if step <= |chunks[0]| then chunks[0][..step] else chunks[0]) + Reassemble(chunks[1..], step)
  }

  /** Nothing is lost: with a non-negative overlap below `max_chars`, the windows cover the text exactly. */
  lemma {:induction false} ChunksCoverText(text: string, i: nat, maxChars: int, step: nat)
    requires 0 < step <= maxChars && i <= |text|
    ensures Reassemble(ChunksFrom(text, i, maxChars, step), step) == text[i..]
    decreases |text| - i
  {
    if i < |text| && i + step >= |text| {
      LastWindowWhole(text, i, maxChars, step);
    } else if i < |text| {
      var rest := Reassemble(ChunksFrom(text, i + step, maxChars, step), step);
      assert rest == text[i + step..] by {
        ChunksCoverText(text, i + step, maxChars, step);
      }
      assert Reassemble(ChunksFrom(text, i, maxChars, step), step) == text[i..i + step] + rest by {
        ReassembleFirstStep(text, i, maxChars, step);
      }
      SplitSuffix(text, i, i + step);
    }
  }

  /** A window that reaches the end of the text is the last one and holds the rest of the text. */
  lemma LastWindowWhole(text: string, i: nat, maxChars: int, step: nat)
    requires 0 < step <= maxChars && i < |text| <= i + step
    ensures Reassemble(ChunksFrom(text, i, maxChars, step), step) == text[i..]
  {
    var r := ChunksFrom(text, i, maxChars, step);
    ChunksFromStep(text, i, maxChars, step);
    PySliceInRange(text, i, i + maxChars);
    assert r == [r[0]];
  }

  /** With a window after it, a window contributes exactly the `step` characters up to that window. */
  lemma ReassembleFirstStep(text: string, i: nat, maxChars: int, step: nat)
    requires 0 < step <= maxChars && i + step < |text|
    ensures Reassemble(ChunksFrom(text, i, maxChars, step), step) ==
      text[i..i + step] + Reassemble(ChunksFrom(text, i + step, maxChars, step), step)
  {
    var r := ChunksFrom(text, i, maxChars, step);
    ChunksFromStep(text, i, maxChars, step);
    ChunksFromStep(text, i + step, maxChars, step);
    WindowPrefix(text, i, maxChars, step);
    ReassembleStep(r, step);
  }

  /** A window with text past its first `step` characters begins with exactly those characters. */
  lemma WindowPrefix(text: string, i: nat, maxChars: int, step: nat)
    requires 0 < step <= maxChars && i + step < |text|
    ensures step <= |PySlice(text, i, i + maxChars)|
    ensures PySlice(text, i, i + maxChars)[..step] == text[i..i + step]
  {
    PySliceInRange(text, i, i + maxChars);
  }

  /** Reassembling two or more windows keeps the first `step` characters of the first. */
  lemma ReassembleStep(chunks: seq<string>, step: nat)
    requires |chunks| >= 2 && step <= |chunks[0]|
    ensures Reassemble(chunks, step) == chunks[0][..step] + Reassemble(chunks[1..], step)
  {
  }

  /** The empty text has no windows. */
  lemma EmptyTextNoChunks(maxChars: int, step: nat)
    requires step > 0
    ensures ChunksFrom([], 0, maxChars, step) == []
  {
  }

  /** `if section.full_text and section.full_text.strip()`. */
  predicate HasText(section: SectionData) {
    !AllSpace(section.fullText)
  }

  /** One section after summarising: only its findings can change. */
  function SummarizeSection(section: SectionData, companyName: string, summarize: (string, string) -> string): (s: SectionData)
    ensures s.(keyFindings := section.keyFindings) == section
  {
    if HasText(section) then section.(keyFindings := summarize(section.fullText, companyName)) else section
  }

  /**
    `summarize_sections(company)`, with `summarize(text, name)` the summary the
    model returns. Sections with blank text keep their findings; the others get
    the summary of their text, and nothing else changes.
   */
  function SummarizeSections(company: CompanyData, summarize: (string, string) -> string): (r: CompanyData)
    ensures r.companyName == company.companyName && |r.sections| == |company.sections|
    ensures forall i :: 0 <= i < |r.sections| ==>
      r.sections[i].(keyFindings := company.sections[i].keyFindings) == company.sections[i]
    ensures forall i :: 0 <= i < |r.sections| ==>
      r.sections[i].keyFindings ==
        if AllSpace(company.sections[i].fullText) then company.sections[i].keyFindings
        else summarize(company.sections[i].fullText, company.companyName)
  {
    var sections := seq(|company.sections|, i requires 0 <= i < |company.sections| =>
      SummarizeSection(company.sections[i], company.companyName, summarize));
    company.(sections := sections)
  }

  /**
    A second pass overwrites everything the first one wrote: whatever the model
    answered the first time, summarising again gives what summarising the
    original record with the second pass's answers gives, because no pass
    changes a text, the company name, or the findings of a blank section.
   */
  lemma SummarizeAgain(company: CompanyData, first: (string, string) -> string, second: (string, string) -> string)
    ensures SummarizeSections(SummarizeSections(company, first), second) == SummarizeSections(company, second)
  {
    var once := SummarizeSections(company, first);
    var again := SummarizeSections(once, second);
    var direct := SummarizeSections(company, second);
    assert again.sections == direct.sections by {
      forall i | 0 <= i < |once.sections| ensures again.sections[i] == direct.sections[i] {
        assert once.sections[i].fullText == company.sections[i].fullText;
      }
    }
  }
}
