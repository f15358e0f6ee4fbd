/**
  Cutting one section's text out of the document (`extract_section_full_text`).
  A label's first occurrence is usually its table-of-contents line, so the
  section starts at the label's second occurrence, found after the first one
  ends, or at the first when there is no second. It ends at the second
  occurrence of the next label counted from the start, or at the end of the
  text. The piece is stripped.
 */
module SectionText {
  import opened Options
  import opened Strings

  /** Where the section of `cur` starts; `None` when the label does not occur. */
  function SectionStart(text: string, cur: string): (r: Option<nat>)
    ensures r.None? <==> forall k: nat :: !OccursAt(text, cur, k)
    ensures r.Some? ==> OccursAt(text, cur, r.value)
  {
    match Find(text, cur, 0)
    case None => None
    case Some(first) =>
      match Find(text, cur, first + |cur|)
      case Some(second) => Some(second)
      case None => Some(first)
  }

  /** The label is looked up again after its first occurrence; only when it does not recur is the first one used. */
  lemma SectionStartIsSecond(text: string, cur: string, first: nat)
    requires IsFirstFrom(text, cur, 0, first)
    ensures (exists k: nat :: first + |cur| <= k && OccursAt(text, cur, k)) ==>
      SectionStart(text, cur).Some? && IsFirstFrom(text, cur, first + |cur|, SectionStart(text, cur).value)
    ensures (forall k: nat :: first + |cur| <= k ==> !OccursAt(text, cur, k)) ==> SectionStart(text, cur) == Some(first)
  {
    FindIsFirst(text, cur, 0, first);
  }

  /** `if next_label:` -- a missing label and an empty one both mean "to the end". */
  predicate HasNext(next: Option<string>) { next.Some? && next.value != [] }

  /** Where the section that starts at `start` ends. */
  function SectionEnd(text: string, next: Option<string>, start: nat): (e: nat)
    requires start <= |text|
    ensures start <= e <= |text|
    ensures e == |text| || (HasNext(next) && OccursAt(text, next.value, e))
  {
    if !HasNext(next) then |text|
    else
      match Find(text, next.value, start)
      case None => |text|
      case Some(nextFirst) =>
        match Find(text, next.value, nextFirst + |next.value|)
        case Some(nextSecond) => nextSecond
        case None => |text|
  }

  /** Without a next label, or when it does not occur after the start, the section runs to the end of the text. */
  lemma SectionEndWithoutNext(text: string, next: Option<string>, start: nat)
    requires start <= |text|
    requires !HasNext(next) || forall k: nat :: start <= k ==> !OccursAt(text, next.value, k)
    ensures SectionEnd(text, next, start) == |text|
  {
  }

  /** The end is the next label's first occurrence after its first one at or after the start, not overlapping it. */
  lemma SectionEndAtSecond(text: string, next: Option<string>, start: nat, f: nat, g: nat)
    requires start <= |text| && HasNext(next)
    requires IsFirstFrom(text, next.value, start, f) && IsFirstFrom(text, next.value, f + |next.value|, g)
    ensures SectionEnd(text, next, start) == g
  {
    FindIsFirst(text, next.value, start, f);
    FindIsFirst(text, next.value, f + |next.value|, g);
  }

  /** A next label found only once after the start does not end the section. */
  lemma SectionEndAfterSingleNext(text: string, next: Option<string>, start: nat, f: nat)
    requires start <= |text| && HasNext(next) && IsFirstFrom(text, next.value, start, f)
    requires forall k: nat :: f + |next.value| <= k ==> !OccursAt(text, next.value, k)
    ensures SectionEnd(text, next, start) == |text|
  {
    FindIsFirst(text, next.value, start, f);
  }

  /** Between the start and the end, the next label occurs only as its first occurrence or overlapping it. */
  lemma SectionHoldsOneNextLabel(text: string, next: Option<string>, start: nat, k: nat)
    requires start <= k && HasNext(next) && start <= |text|
    requires k < SectionEnd(text, next, start) && OccursAt(text, next.value, k)
    ensures Find(text, next.value, start).Some?
    ensures k < Find(text, next.value, start).value + |next.value|
  {
  }

  /** `extract_section_full_text(text, cur, next)`. */
  function ExtractSectionFullText(text: string, cur: string, next: Option<string>): (r: string)
    ensures (forall k: nat :: !OccursAt(text, cur, k)) ==> r == []
    ensures IsStripped(r)
    ensures r == [] || exists i: nat, j: nat :: i <= j <= |text| && r == text[i..j]
  {
    match SectionStart(text, cur)
    case None => []
    case Some(start) =>
      var end := SectionEnd(text, next, start);
      StripOfSliceIsSlice(text, start, end);
      Strip(text[start..end])
  }

  /** A label that begins with a non-blank character begins its own section's text. */
  lemma SectionBeginsWithLabel(text: string, cur: string, next: Option<string>)
    requires cur != [] && !IsSpace(cur[0])
    requires exists k: nat :: OccursAt(text, cur, k)
    ensures ExtractSectionFullText(text, cur, next) != []
    ensures ExtractSectionFullText(text, cur, next)[0] == cur[0]
  {
    var start := SectionStart(text, cur).value;
    var end := SectionEnd(text, next, start);
    assert text[start..start + |cur|] == cur;
    assert start < end by {
      if end < |text| {
        assert OccursAt(text, next.value, end);
        assert start < end;
      }
    }
    assert text[start..end][0] == cur[0];
    StripKeepsHead(text[start..end]);
  }
}
