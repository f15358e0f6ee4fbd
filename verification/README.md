# DRHP section extraction, modelled in Dafny

This project models the text-processing core of a pipeline for Draft Red
Herring Prospectus (DRHP) PDFs. The pipeline splits a prospectus into its
numbered sections. It works on the document's full text:

- it normalises `SECTION <numeral>:` headings (`preprocess_text`);
- it reads the company name that precedes the `Corporate Identity Number` marker (`extract_company_name`). The name group's class includes whitespace, so the name runs from the leftmost line start from which name characters reach the marker unbroken: it takes in every preceding line made only of those characters, not just the line above;
- it parses the `TABLE OF CONTENTS` lines into an outline of numeral, title and page (`extract_toc_entries`);
- it decodes each numeral (`roman_to_int`);
- it cuts each section's text out of the document (`extract_section_full_text`). The text starts at the second occurrence of the section's `SECTION <numeral> ` label, or at its only one. It ends at the second occurrence of the next entry's label counted from that start, which need not be the label's second occurrence in the whole document, or at the end of the text;
- it writes each section's page range as `"<start>-<end>"` (`get_company_data`).

The summariser's text windowing (`_chunk_text`) is modelled too. So is its rule that only sections with non-blank text get a summary (`summarize_sections`).

Everything is a pure function over immutable datatypes: `string` is `seq<char>` and the records are datatypes. The regular expressions are written out as explicit scanners. Each scanner is tied to a declarative predicate saying when its pattern matches along some path of the engine, in both directions: what the scanner reports is such a match, and it reports nothing exactly when there is none. Where several paths match, the lemmas also say which one Python's backtracking engine reports: the leftmost start, then the greedy and lazy choices in the engine's order. The surrounding world enters as parameters:

- the page count of the PDF, which the source reads with `fitz`, is `pageCount`;
- table extraction is the function `extractTables(path, pages)`;
- the language-model summary is the function `summarize(text, companyName)`.

Modules, one per file:

- `Options`: `Option` and `Result`.
- `Strings`: Python `str` primitives. These are `isspace`, `strip`, `find`, `splitlines`, slicing with clamped and negative bounds, `int()` and `str()` of integers.
- `Roman`, `Preprocess`, `CompanyName`, `Toc` and `SectionText`: the static methods of `DataExtractor`.
- `Records`: the data classes.
- `DataExtractor`: `get_company_data`.
- `SectionSummarizer`: the summariser.

Behaviours of the code worth knowing:

- The `TABLE OF CONTENTS` anchor is found with a case-sensitive `str.find`, so a document that spells it in another case has no outline (`Toc.ExtractTocEntries`).
- The pattern requires a hyphen or en dash between the numeral and the title: a line without one is never an outline entry (`Toc.DashRequired`).
- Heading normalisation is not idempotent. `SECTION I::` loses one colon per pass (`Preprocess.NotIdempotent`).
- Page numbers are never checked to ascend. Ranges abut by construction, whatever the order of the pages (`DataExtractor.PageRangesAbut`).
- The title group is lazy and must be non-empty. So in `SECTION I -   ... 3` one of the blanks before the dots becomes the title, and the stripped title is `""` (`Toc.TitleSplit`, `Toc.TitleSplitIsReported`).

## Model

| member | source | states |
|---|---|---|
| Roman.RomanToIntScan | src/data_extractor.py:9-21 | The right-to-left scan with its running `prev_value` computes the reference value: each character's table value, negated when the value to its right is larger. |
| Roman.EmptyIsZero | src/data_extractor.py:12-21 | The empty string decodes to 0. |
| Roman.CaseInsensitive | src/data_extractor.py:10 | Two strings that upper-case alike decode alike. |
| Roman.NumeralsArePositive | src/data_extractor.py:11-21 | A non-empty string of numeral letters decodes to at least 1: subtractions never outweigh the leading character. |
| Roman.NonIncreasingIsPlainSum | src/data_extractor.py:14-20 | When values never increase from left to right, nothing is subtracted and the result is the plain sum of the table values. |
| Roman.StandardNumerals | src/data_extractor.py:9-21 | The conventional spellings of 1 to 20 decode to 1 to 20. |
| Roman.LowerCaseExample | src/data_extractor.py:10 | `xiv` decodes to 14. |
| Preprocess.HeadingColon | src/data_extractor.py:27 | A match of `(SECTION\s+[IVXLCDM]+)\s*:` at the front keeps a prefix of more than seven characters and ends on the colon, with only whitespace between them. |
| Preprocess.HeadingColonComplete | src/data_extractor.py:27 | Every way the pattern can match at the front is the one reported: the kept prefix ends after the numerals and the match ends just past the colon. |
| Preprocess.HeadingColonExact | src/data_extractor.py:27 | What is reported is a match of the pattern, and nothing is reported exactly when the pattern does not match at the front. |
| Preprocess.PreprocessText | src/data_extractor.py:27 | The rewritten text is never longer than the input. |
| Preprocess.NoHeadingUnchanged | src/data_extractor.py:27 | Text in which the pattern matches at no position is returned unchanged. |
| Preprocess.HeadingShortens | src/data_extractor.py:27 | A match at any position makes the result strictly shorter than the input. |
| Preprocess.UnchangedIffNoHeading | src/data_extractor.py:27 | The text is returned unchanged exactly when the pattern matches at no position of it. |
| Preprocess.OnlySpacesAndColonsRemoved | src/data_extractor.py:24-28 | The rewrite deletes only whitespace and colons: every other character survives, in order. |
| Preprocess.NoColonUnchanged | src/data_extractor.py:27 | Text without a colon is returned unchanged. |
| Preprocess.SingleHeadingColonRemoved | src/data_extractor.py:27 | `SECTION <numerals>:` followed by colon-free text loses exactly that colon. |
| Preprocess.SummaryHeadingExample | src/data_extractor.py:25-27 | `SECTION IV: Summary` becomes `SECTION IV Summary`. |
| Preprocess.NotIdempotent | src/data_extractor.py:27 | One pass turns `SECTION I::` into `SECTION I:` and a second pass into `SECTION I`, so the rewrite is not idempotent. |
| CompanyName.MarkerFollowsExact | src/data_extractor.py:32 | The single whitespace run checked after the name stands for every way the engine can split `\s*\n\s*` before the marker: it succeeds exactly when some path does. |
| CompanyName.LongestNameEnd | src/data_extractor.py:32-33 | The greedy name group backtracks to the largest end after which `\s*\n\s*Corporate Identity Number` follows, or to none when no end in range works. |
| CompanyName.SearchFrom | src/data_extractor.py:33 | The search returns a match at the leftmost start where the pattern matches, with the longest group there; it returns none exactly when no start matches. |
| CompanyName.SearchFindsReportedMatch | src/data_extractor.py:32-33 | The match `re.search` reports (leftmost start, then longest group) is the one the search finds. |
| CompanyName.ExtractCompanyName | src/data_extractor.py:31-34 | With no match the name is `Unknown Company`. Otherwise it is the reported group, stripped, made only of name characters. |
| Toc.TitleSplitIsReported | src/data_extractor.py:45 | The closed-form title split is the split the engine reports: the fewest blanks given back after the dash, then the shortest lazy title. When it finds none, no split exists. |
| Toc.TitleSplitSound | src/data_extractor.py:45 | The split found is one after which the leader dots, blanks and page digits match to the end of the line. |
| Toc.HeadOf | src/data_extractor.py:45 | A head match starts with `SECTION`, holds a non-empty run of numerals after it, and ends just past a hyphen or en dash. |
| Toc.HeadOfComplete | src/data_extractor.py:45 | Every way `SECTION\s+([IVXLCDM]+):?\s*[-–]` can match at the start of a line is the one reported, with the same numeral group and the same end. |
| Toc.HeadOfExact | src/data_extractor.py:45 | What is reported is a match of the head, and nothing is reported exactly when the head matches along no path. |
| Toc.DotsTailComplete | src/data_extractor.py:45 | Every match of `\.{3,}\s+(\d+)\s*$` at a position is the one reported, with the same page digits. |
| Toc.DotsTailSound | src/data_extractor.py:45 | What is reported is a match of the dots, blanks, page digits and trailing blanks up to the end of the line. |
| Toc.LeaderTailExact | src/data_extractor.py:45 | With the blanks before the dots (`\s+`) added: every match is the one reported, and what is reported is a match. |
| Toc.TitleSplit | src/data_extractor.py:45 | A split found starts at or after the dash and gives a non-empty title that ends before the end of the line. |
| Toc.MatchTocLine | src/data_extractor.py:44-53 | Every entry a line gives is well formed: upper-case numerals, a stripped title of title characters, and page digits. |
| Toc.MatchTocLineIff | src/data_extractor.py:44-51 | A line matches exactly when its head matches and some title split of the rest is accepted by the pattern. |
| Toc.MatchTocLineGroups | src/data_extractor.py:45-53 | A match's entry holds the numeral run, the stripped title of the reported split, and the page digits after that split's leader. |
| Toc.DashRequired | src/data_extractor.py:45 | A line without a hyphen or en dash never matches. |
| Strings.SplitJoinLines | src/data_extractor.py:42 | Splitting newline-terminated lines that hold no line break of their own gives the lines back. |
| Toc.EntriesOf | src/data_extractor.py:48-54 | Each line gives at most one entry, and every entry has a non-empty run of upper-case numerals, a stripped title made of title characters, and non-empty page digits. |
| Toc.EntriesOfAppend | src/data_extractor.py:48-54 | Entries keep line order: the entries of `a + b` are those of `a` followed by those of `b`. |
| Toc.EntriesOfLine | src/data_extractor.py:49-53 | A single line gives the match of its stripped text, or nothing. |
| Toc.ExtractTocEntries | src/data_extractor.py:37-54 | Without the anchor there are no entries; every entry is well formed. |
| Toc.OnlyWindowMatters | src/data_extractor.py:38-42 | Texts that agree up to the end of the 6500-character window after the anchor give the same entries. |
| SectionText.SectionStart | src/data_extractor.py:58-64 | The start is absent exactly when the label never occurs, and otherwise is an occurrence of the label. |
| SectionText.SectionStartIsSecond | src/data_extractor.py:58-64 | The start is the first occurrence beginning at or after the end of the first one. When there is none, the start is the first occurrence. |
| SectionText.SectionEnd | src/data_extractor.py:66-74 | The end lies between the start and the end of the text, and is either the end of the text or an occurrence of a non-empty next label. |
| SectionText.SectionEndWithoutNext | src/data_extractor.py:66-74 | With no next label, an empty one, or one that does not occur after the start, the section runs to the end of the text. |
| SectionText.SectionEndAtSecond | src/data_extractor.py:67-72 | The section ends at the next label's first occurrence that begins at or after the end of its first occurrence after the start. |
| SectionText.SectionEndAfterSingleNext | src/data_extractor.py:69-72 | A next label found only once after the start does not end the section: it runs to the end of the text. |
| SectionText.SectionHoldsOneNextLabel | src/data_extractor.py:66-72 | Inside a section, the next label occurs only at its first occurrence after the start or overlapping it. |
| SectionText.ExtractSectionFullText | src/data_extractor.py:57-75 | A label that never occurs gives `""`. Any result is stripped and is a contiguous piece of the text. |
| SectionText.SectionBeginsWithLabel | src/data_extractor.py:57-75 | When the label occurs and begins with a non-blank character, the section text is non-empty and begins with that character. |
| DataExtractor.SectionLabel | src/data_extractor.py:89 | The label is `SECTION `, the numeral, and a closing blank. |
| DataExtractor.LabelNotPrefixOfOther | src/data_extractor.py:89-95 | The closing blank keeps labels apart: the label of one numeral never starts the label of another, so `SECTION I ` is not found at the start of `SECTION II `. |
| DataExtractor.PagesOf | src/data_extractor.py:96-105 | The range of entry `i` reads back as its own page and either the page before the next entry's or, for the last entry, the page count. |
| DataExtractor.PageRangeRoundTrip | src/data_extractor.py:100-105 | A written `"<start>-<end>"` reads back as the two numbers it was written from, for a non-negative start and any end. |
| DataExtractor.BuildSections | src/data_extractor.py:88-116 | One section per outline entry. Each has empty findings, a positive number, and the tables extracted for its own page range. |
| DataExtractor.NumeralEntryIsPositive | src/data_extractor.py:109 | Every outline numeral decodes to a positive section number. |
| DataExtractor.GetCompanyData | src/data_extractor.py:77-117 | The name is read from the normalised text. There is one section per outline entry, each with empty findings, a positive number, and the tables of its own page range. |
| DataExtractor.SectionsFollowOutline | src/data_extractor.py:88-111 | Section `i` carries the decoded numeral of entry `i` and its title. Its text is the cut for the entry's label and the next entry's label: from the label's second (or only) occurrence to the next label's second occurrence counted from there, otherwise to the end of the text. |
| DataExtractor.PageRangesAbut | src/data_extractor.py:96-100 | Consecutive page ranges abut: each ends on the page before the next one starts. |
| DataExtractor.PageRangeEnds | src/data_extractor.py:96-105 | Each range starts at its entry's page, and the last one ends at the document's page count. |
| DataExtractor.NoOutlineNoSections | src/data_extractor.py:84-105 | A document with an empty outline has no sections, and the page count does not affect the result. With no anchor the outline is empty (`Toc.ExtractTocEntries`). |
| DataExtractor.PageCountOnlyInLastRange | src/data_extractor.py:98-105 | The page count reaches only the last section: every earlier section is the same whatever the page count. |
| SectionSummarizer.ChunkText | section_summarizer.py:14-21 | A zero step (`max_chars == overlap`) fails as `range()` does. A negative step gives no chunks. A positive step gives the windows at `0, step, 2*step, ...`. |
| SectionSummarizer.ChunkCount | section_summarizer.py:15-20 | There are as many windows as the ceiling of `len(text) / step`, and window `k` is `text[k*step : k*step + max_chars]`. |
| SectionSummarizer.ChunkLengths | section_summarizer.py:19 | With a positive `max_chars`, every window is non-empty and at most `max_chars` long. |
| SectionSummarizer.ChunksOverlap | section_summarizer.py:16-20 | With `0 <= overlap < max_chars`, each window is at least `step` long and what follows its first `step` characters begins the next window. |
| SectionSummarizer.ChunksCoverText | section_summarizer.py:16-20 | With `0 <= overlap < max_chars`, the first `step` characters of each window, then the last window whole, rebuild the text exactly. |
| SectionSummarizer.EmptyTextNoChunks | section_summarizer.py:15-18 | The empty text has no windows. |
| SectionSummarizer.SummarizeSection | section_summarizer.py:90-91 | Summarising a section changes at most its findings. |
| SectionSummarizer.SummarizeSections | section_summarizer.py:88-92 | The name and the number of sections are kept, and only findings change. Sections whose text is empty or all whitespace keep their findings; the others get the summary of their text. |
| SectionSummarizer.SummarizeAgain | section_summarizer.py:88-92 | A second pass overwrites what the first wrote: summarising a summarised record gives what summarising the original with the second pass's answers gives, since no pass changes a text, the name or a blank section's findings. |

## Left out

- Reading the PDF (`fitz.open`, `page_count`) is left out: the page count is the parameter `pageCount`. The model does not open the file only for the last section; it takes the count as given.
- `TableExtractor.extract_tables` is the parameter `extractTables`. Its own catching of exceptions, which returns an empty list, lives inside that function.
- The `isinstance` check that raises `TypeError` is left out: the argument is typed as `DocumentData`, so no other value can arrive.
- `summarize_text`, `_final_summarize`, the Together client, the prompts, `time.sleep` and `print` are left out. The summary is the parameter `summarize`.
- `summarize_sections` updates the sections in place. The model returns a new `CompanyData` with the same content.
- `doc_processor.py`, `vector_embedder.py`, `main.py` and `table_extractor.py` are not part of this model. They do PDF text extraction, embeddings, storage and orchestration.
- Roman.RomanToInt, Roman.CaseInsensitive: `str.upper()` is modelled on ASCII letters only. Non-ASCII letters that Python upper-cases, or expands into several characters, are left unchanged.
- Preprocess.PreprocessText, Preprocess.HeadingColon: `re.IGNORECASE` is modelled as ASCII case folding. Python also folds a few non-ASCII letters onto `I` and `S`, such as the dotless `ı` and the long `ſ`.
- CompanyName.ExtractCompanyName: IGNORECASE is ASCII-only here for the same reason.
- Toc.MatchTocLine, Toc.LeaderTail: `\d` is modelled as ASCII digits. Python's `\d` on `str` also accepts other Unicode decimal digits.
- DataExtractor.PageNumber: `int(page)` is applied only to ASCII digit strings, which is all the outline parser produces. Other `int()` inputs are not modelled.
- Toc.ExtractTocEntries: the contract states the empty and well-formed cases. What each entry is comes from `Toc.MatchTocLineGroups`, `Toc.EntriesOfAppend` and `Toc.OnlyWindowMatters`.
- SectionSummarizer.SummarizeSections: the model's answer is the function `summarize(text, companyName)`, so within one pass equal texts get equal summaries. The real client may answer differently each time it is called; the model does not promise anything about repeated calls to it.
