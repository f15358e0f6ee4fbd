/**
  Assembling the company record (`get_company_data`): the text is
  preprocessed once; the company name and the table of contents are read from
  it; each outline entry becomes a section. Its text is what
  `extract_section_full_text` cuts for the entry's label and the next entry's
  label: from the label's second (or only) occurrence to the next label's
  second occurrence counted from there, or else to the end of the text. Its
  page range runs from its page to the page before the next entry's, the last
  one ending at the document's page count.
  The page count and the table extractor work on the file and are parameters.
 */
module DataExtractor {
  import opened Options
  import opened Strings
  import Roman
  import Preprocess
  import CompanyName
  import Toc
  import SectionText
  import opened Records

  /** `f"SECTION {roman} "`: the label a section's heading starts with. */
  function SectionLabel(roman: string): (lab: string)
    ensures |lab| == |roman| + 9 && lab[..8] == "SECTION " && lab[|lab| - 1] == ' '
    ensures lab[8..|lab| - 1] == roman
  {
    "SECTION " + roman + " "
  }

  /**
    The blank that closes a label keeps outline labels apart: the label of one
    numeral never starts the label of another, so `SECTION I ` is not found
    at the start of `SECTION II `.
   */
  lemma LabelNotPrefixOfOther(a: string, b: string, rest: string)
    requires forall k :: 0 <= k < |a| ==> Toc.IsNumeral(a[k])
    requires forall k :: 0 <= k < |b| ==> Toc.IsNumeral(b[k])
    requires a != b
    ensures !OccursAt(SectionLabel(b) + rest, SectionLabel(a), 0)
  {
    var la, t := SectionLabel(a), SectionLabel(b) + rest;
    var d: nat;
    if |a| < |b| {
      d := 8 + |a|;
      assert la[d] == ' ' && t[d] == b[|a|];
    } else if |b| < |a| {
      d := 8 + |b|;
      assert t[d] == ' ' && la[d] == a[|b|];
    } else {
      var k :| 0 <= k < |a| && a[k] != b[k];
      d := 8 + k;
      assert la[d] == a[k] && t[d] == b[k];
    }
    assert d < |la| && d < |t| && la[d] != t[d];
  }

  /** `f"{start}-{end}"`. */
  function PageRangeString(start: int, end: int): string {
    IntToString(start) + "-" + IntToString(end)
  }

  /** Reads a range written by `PageRangeString` with a non-negative start back. */
  function ParsePageRange(s: string): (r: Option<(int, int)>)
    ensures r.Some? ==> r.value.0 >= 0
  {
    var i := SkipWhile(s, 0, IsDigit);
    if i == 0 || i == |s| || s[i] != '-' then None
    else
      match ParseInt(s[i + 1..])
      case None => None
      case Some(end) => Some((DecimalValue(s[..i]), end))
  }

  /** A page range reads back as the two numbers it was written from. */
  lemma PageRangeRoundTrip(start: nat, end: int)
    ensures ParsePageRange(PageRangeString(start, end)) == Some((start, end))
  {
    var a := NatToString(start);
    var s := PageRangeString(start, end);
    assert s == a + "-" + IntToString(end);
    assert forall k :: 0 <= k < |a| ==> IsDigit(s[k]);
    SkipWhileExact(s, 0, |a|, IsDigit);
    assert s[..|a|] == a;
    assert s[|a| + 1..] == IntToString(end);
    NatToStringRoundTrip(start);
    IntToStringRoundTrip(end);
  }

  /** `int(entry["page"])` on the page digits of a parsed entry. */
  function PageNumber(e: Toc.TocEntry): nat
    requires Toc.WellFormedEntry(e)
  {
    DecimalValue(e.page)
  }

  /** The label of the entry after `i`, if any. */
  function NextLabel(entries: seq<Toc.TocEntry>, i: nat): Option<string>
    requires i < |entries|
  {
    if i + 1 < |entries| then Some(SectionLabel(entries[i + 1].roman)) else None
  }

  /** The page range of entry `i`: up to the page before the next entry's, or to the page count. */
  function PagesOf(entries: seq<Toc.TocEntry>, i: nat, pageCount: nat): (pages: string)
    requires i < |entries| && forall k :: 0 <= k < |entries| ==> Toc.WellFormedEntry(entries[k])
    ensures ParsePageRange(pages) ==
      Some((PageNumber(entries[i]), if i + 1 < |entries| then PageNumber(entries[i + 1]) - 1 else pageCount))
  {
    var end := if i + 1 < |entries| then PageNumber(entries[i + 1]) - 1 else pageCount;
    PageRangeRoundTrip(PageNumber(entries[i]), end);
    PageRangeString(PageNumber(entries[i]), end)
  }

  /** The section built for entry `i` of the outline. */
  function SectionOf(text: string, entries: seq<Toc.TocEntry>, i: nat, doc: DocumentData, pageCount: nat,
                     extractTables: (string, string) -> seq<Table>): (sec: SectionData)
    requires i < |entries| && forall k :: 0 <= k < |entries| ==> Toc.WellFormedEntry(entries[k])
  {
    var pages := PagesOf(entries, i, pageCount);
    SectionData(
      Roman.RomanToInt(entries[i].roman),
      entries[i].chapterName,
      SectionText.ExtractSectionFullText(text, SectionLabel(entries[i].roman), NextLabel(entries, i)),
      extractTables(doc.filePath, pages),
      "",
      pages)
  }

  /** The sections of an outline, one per entry and in the same order. */
  function BuildSections(text: string, entries: seq<Toc.TocEntry>, doc: DocumentData, pageCount: nat,
                         extractTables: (string, string) -> seq<Table>): (secs: seq<SectionData>)
    requires forall k :: 0 <= k < |entries| ==> Toc.WellFormedEntry(entries[k])
    ensures |secs| == |entries|
    ensures forall i :: 0 <= i < |secs| ==> secs[i].keyFindings == [] && secs[i].sectionNumber >= 1
    ensures forall i :: 0 <= i < |secs| ==> secs[i].tables == extractTables(doc.filePath, secs[i].pages)
  {
    var secs := seq(|entries|, i requires 0 <= i < |entries| => SectionOf(text, entries, i, doc, pageCount, extractTables));
    forall i | 0 <= i < |entries| ensures secs[i].sectionNumber >= 1 {
      NumeralEntryIsPositive(entries[i]);
    }
    secs
  }

  /** Outline numerals are upper-case numerals, so every section number is positive. */
  lemma NumeralEntryIsPositive(e: Toc.TocEntry)
    requires Toc.WellFormedEntry(e)
    ensures Roman.RomanToInt(e.roman) >= 1
  {
    forall k | 0 <= k < |e.roman| ensures Roman.NumeralValue(UpperChar(e.roman[k])) > 0 {
      assert Toc.IsNumeral(e.roman[k]);
    }
    Roman.NumeralsArePositive(e.roman);
  }

  /** The outline entries of a document, read from its preprocessed text. */
  function Outline(doc: DocumentData): (entries: seq<Toc.TocEntry>)
    ensures forall k :: 0 <= k < |entries| ==> Toc.WellFormedEntry(entries[k])
  {
    Toc.ExtractTocEntries(Preprocess.PreprocessText(doc.fullText))
  }

  /**
    `get_company_data(doc)`, with `pageCount` the page count of the file at
    `doc.filePath` and `extractTables(path, pages)` the tables found on those
    pages.
   */
  function GetCompanyData(doc: DocumentData, pageCount: nat, extractTables: (string, string) -> seq<Table>): (r: CompanyData)
    ensures r.companyName == CompanyName.ExtractCompanyName(Preprocess.PreprocessText(doc.fullText))
    ensures |r.sections| == |Outline(doc)|
    ensures forall i :: 0 <= i < |r.sections| ==> r.sections[i].keyFindings == [] && r.sections[i].sectionNumber >= 1
    ensures forall i :: 0 <= i < |r.sections| ==> r.sections[i].tables == extractTables(doc.filePath, r.sections[i].pages)
  {
    var text := Preprocess.PreprocessText(doc.fullText);
    CompanyData(CompanyName.ExtractCompanyName(text), BuildSections(text, Outline(doc), doc, pageCount, extractTables))
  }

  /** The sections of a document are those its outline builds. */
  lemma SectionsOf(doc: DocumentData, pageCount: nat, extractTables: (string, string) -> seq<Table>)
    ensures GetCompanyData(doc, pageCount, extractTables).sections ==
      BuildSections(Preprocess.PreprocessText(doc.fullText), Outline(doc), doc, pageCount, extractTables)
  {
  }

  /**
    Section `i` is built from outline entry `i`: its decoded numeral, its
    title, and the text cut for its label and the next entry's label. That
    text ends at the next label's second occurrence counted from the start, so
    when the body holds the next label only once the section runs to the end.
   */
  lemma SectionsFollowOutline(doc: DocumentData, pageCount: nat, extractTables: (string, string) -> seq<Table>, i: nat)
    requires i < |GetCompanyData(doc, pageCount, extractTables).sections|
    ensures var text := Preprocess.PreprocessText(doc.fullText);
      var entries := Outline(doc);
      var sec := GetCompanyData(doc, pageCount, extractTables).sections[i];
      && sec.sectionNumber == Roman.RomanToInt(entries[i].roman)
      && sec.chapterName == entries[i].chapterName
      && sec.fullText == SectionText.ExtractSectionFullText(text, SectionLabel(entries[i].roman), NextLabel(entries, i))
  {
    SectionsOf(doc, pageCount, extractTables);
  }

  /** Within one outline, the range of entry `i` ends on the page before the range of entry `i + 1` starts. */
  lemma OutlineRangesAbut(text: string, entries: seq<Toc.TocEntry>, doc: DocumentData, pageCount: nat,
                          extractTables: (string, string) -> seq<Table>, i: nat)
    requires i + 1 < |entries| && forall k :: 0 <= k < |entries| ==> Toc.WellFormedEntry(entries[k])
    ensures var secs := BuildSections(text, entries, doc, pageCount, extractTables);
      && ParsePageRange(secs[i].pages).Some? && ParsePageRange(secs[i + 1].pages).Some?
      && ParsePageRange(secs[i].pages).value.1 + 1 == ParsePageRange(secs[i + 1].pages).value.0
  {
    var secs := BuildSections(text, entries, doc, pageCount, extractTables);
    assert secs[i].pages == PagesOf(entries, i, pageCount);
    assert secs[i + 1].pages == PagesOf(entries, i + 1, pageCount);
  }

  /** Consecutive page ranges abut: each ends on the page before the next one starts. */
  lemma PageRangesAbut(doc: DocumentData, pageCount: nat, extractTables: (string, string) -> seq<Table>, i: nat)
    requires i + 1 < |GetCompanyData(doc, pageCount, extractTables).sections|
    ensures var secs := GetCompanyData(doc, pageCount, extractTables).sections;
      && ParsePageRange(secs[i].pages).Some? && ParsePageRange(secs[i + 1].pages).Some?
      && ParsePageRange(secs[i].pages).value.1 + 1 == ParsePageRange(secs[i + 1].pages).value.0
  {
    SectionsOf(doc, pageCount, extractTables);
    OutlineRangesAbut(Preprocess.PreprocessText(doc.fullText), Outline(doc), doc, pageCount, extractTables, i);
  }

  /** Each range starts at its own entry's page; the last one ends at the page count. */
  lemma OutlineRangeEnds(text: string, entries: seq<Toc.TocEntry>, doc: DocumentData, pageCount: nat,
                         extractTables: (string, string) -> seq<Table>, i: nat)
    requires i < |entries| && forall k :: 0 <= k < |entries| ==> Toc.WellFormedEntry(entries[k])
    ensures var secs := BuildSections(text, entries, doc, pageCount, extractTables);
      && ParsePageRange(secs[i].pages).Some?
      && ParsePageRange(secs[i].pages).value.0 == PageNumber(entries[i])
      && (i + 1 == |entries| ==> ParsePageRange(secs[i].pages).value.1 == pageCount)
  {
    var secs := BuildSections(text, entries, doc, pageCount, extractTables);
    assert secs[i].pages == PagesOf(entries, i, pageCount);
  }

  /** Each section's range starts at its outline page, and the last one ends at the document's page count. */
  lemma PageRangeEnds(doc: DocumentData, pageCount: nat, extractTables: (string, string) -> seq<Table>, i: nat)
    requires i < |GetCompanyData(doc, pageCount, extractTables).sections|
    ensures var secs := GetCompanyData(doc, pageCount, extractTables).sections;
      && ParsePageRange(secs[i].pages).Some?
      && ParsePageRange(secs[i].pages).value.0 == PageNumber(Outline(doc)[i])
      && (i + 1 == |secs| ==> ParsePageRange(secs[i].pages).value.1 == pageCount)
  {
    SectionsOf(doc, pageCount, extractTables);
    OutlineRangeEnds(Preprocess.PreprocessText(doc.fullText), Outline(doc), doc, pageCount, extractTables, i);
  }

  /**
    A document whose outline is empty (no `TABLE OF CONTENTS`, or no entry
    line in its window) has no sections, and the page count is never consulted.
   */
  lemma NoOutlineNoSections(doc: DocumentData, pc1: nat, pc2: nat, extractTables: (string, string) -> seq<Table>)
    requires Outline(doc) == []
    ensures GetCompanyData(doc, pc1, extractTables).sections == []
    ensures GetCompanyData(doc, pc1, extractTables) == GetCompanyData(doc, pc2, extractTables)
  {
  }

  /** The page count reaches only the last range: with an outline, a section list differs from another page count's only there. */
  lemma PageCountOnlyInLastRange(doc: DocumentData, pc1: nat, pc2: nat, extractTables: (string, string) -> seq<Table>, i: nat)
    requires i + 1 < |Outline(doc)|
    ensures GetCompanyData(doc, pc1, extractTables).sections[i] == GetCompanyData(doc, pc2, extractTables).sections[i]
  {
    SectionsOf(doc, pc1, extractTables);
    SectionsOf(doc, pc2, extractTables);
  }
}
