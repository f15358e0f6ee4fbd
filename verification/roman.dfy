/**
  Roman-numeral decoding of section labels (`roman_to_int`): characters are
  read right to left and a value is subtracted when it is smaller than the
  value of the character to its right, added otherwise. Characters that are not
  numerals are worth 0; no syntax is enforced.
 */
module Roman {
  import opened Strings

  /** The numeral table, looked up after upper-casing. */
  function NumeralValue(c: char): nat {
    match c
    case 'I' => 1
    case 'V' => 5
    case 'X' => 10
    case 'L' => 50
    case 'C' => 100
    case 'D' => 500
    case 'M' => 1000
    case _ => 0
  }

  /** What the character at `i` contributes: negative when its right neighbour is worth more. */
  function Contribution(s: string, i: nat): (c: int)
    requires i < |s|
  {
    if i + 1 < |s| && NumeralValue(s[i]) < NumeralValue(s[i + 1])
    then 0 - NumeralValue(s[i]) as int
    else NumeralValue(s[i])
  }

  /** Sum of the contributions of `s[i..]`. */
  function ContributionSum(s: string, i: nat): int
    requires i <= |s|
    decreases |s| - i
  {
    if i == |s| then 0 else Contribution(s, i) + ContributionSum(s, i + 1)
  }

  /** Reference definition of the decoded value: contributions of the upper-cased string. */
  function RomanToInt(roman: string): int {
    ContributionSum(Upper(roman), 0)
  }

  /** The right-to-left scan of the source, with its running `prev_value`. */
  method RomanToIntScan(roman: string) returns (result: int)
    ensures result == RomanToInt(roman)
  {
    var s := Upper(roman);
    result := 0;
    var prev: nat := 0;
    var i := |s|;
    while i > 0
      invariant 0 <= i <= |s|
      invariant result == ContributionSum(s, i)
      invariant prev == if i < |s| then NumeralValue(s[i]) else 0
    {
      i := i - 1;
      var value := NumeralValue(s[i]);
      if value < prev {
        result := result - value;
      } else {
        result := result + value;
      }
      prev := value;
    }
  }

  /** A numeral worth more than another is worth at least twice as much. */
  lemma LargerIsDouble(a: char, b: char)
    requires 0 < NumeralValue(a) < NumeralValue(b)
    ensures 2 * NumeralValue(a) <= NumeralValue(b)
  {
  }

  /** Over numerals only, the contributions from `i` on add up to at least the value at `i`. */
  lemma {:induction false} SumAtLeastHead(s: string, i: nat)
    requires i < |s| && forall k :: i <= k < |s| ==> NumeralValue(s[k]) > 0
    ensures ContributionSum(s, i) >= NumeralValue(s[i])
    decreases |s| - i
  {
    if i + 1 < |s| {
      SumAtLeastHead(s, i + 1);
      if NumeralValue(s[i]) < NumeralValue(s[i + 1]) {
        LargerIsDouble(s[i], s[i + 1]);
      }
    }
  }

  /** A non-empty string of numerals, in either case, decodes to a positive number. */
  lemma NumeralsArePositive(roman: string)
    requires roman != [] && forall k :: 0 <= k < |roman| ==> NumeralValue(UpperChar(roman[k])) > 0
    ensures RomanToInt(roman) >= 1
  {
    SumAtLeastHead(Upper(roman), 0);
  }

  lemma EmptyIsZero()
    ensures RomanToInt("") == 0
  {
  }

  /** Decoding looks only at the ASCII-upper-cased characters. */
  lemma CaseInsensitive(a: string, b: string)
    requires Upper(a) == Upper(b)
    ensures RomanToInt(a) == RomanToInt(b)
  {
  }

  /** The sum of the numeral values with no subtraction at all. */
  function PlainSum(s: string, i: nat): nat
    requires i <= |s|
    decreases |s| - i
  {
    if i == |s| then 0 else NumeralValue(s[i]) + PlainSum(s, i + 1)
  }

  predicate NonIncreasing(s: string) {
    forall i :: 0 <= i < |s| - 1 ==> NumeralValue(s[i]) >= NumeralValue(s[i + 1])
  }

  lemma {:induction false} NonIncreasingSumFrom(s: string, i: nat)
    requires i <= |s|
    requires NonIncreasing(s)
    ensures ContributionSum(s, i) == PlainSum(s, i)
    decreases |s| - i
  {
    if i < |s| {
      NonIncreasingSumFrom(s, i + 1);
    }
  }

  /** When values never increase left to right nothing is subtracted. */
  lemma NonIncreasingIsPlainSum(roman: string)
    requires NonIncreasing(Upper(roman))
    ensures RomanToInt(roman) == PlainSum(Upper(roman), 0)
  {
    NonIncreasingSumFrom(Upper(roman), 0);
  }

  /** The conventional spellings of 1 to 20. */
  const Standard: seq<string> := [
    "I", "II", "III", "IV", "V", "VI", "VII", "VIII", "IX", "X",
    "XI", "XII", "XIII", "XIV", "XV", "XVI", "XVII", "XVIII", "XIX", "XX"]

  lemma StandardNumerals()
    ensures forall k :: 0 <= k < |Standard| ==> RomanToInt(Standard[k]) == k + 1
  {
    assert RomanToInt("I") == 1;
    assert RomanToInt("II") == 2;
    assert RomanToInt("III") == 3;
    assert RomanToInt("IV") == 4;
    assert RomanToInt("V") == 5;
    assert RomanToInt("VI") == 6;
    assert RomanToInt("VII") == 7;
    assert RomanToInt("VIII") == 8;
    assert RomanToInt("IX") == 9;
    assert RomanToInt("X") == 10;
    assert RomanToInt("XI") == 11;
    assert RomanToInt("XII") == 12;
    assert RomanToInt("XIII") == 13;
    assert RomanToInt("XIV") == 14;
    assert RomanToInt("XV") == 15;
    assert RomanToInt("XVI") == 16;
    assert RomanToInt("XVII") == 17;
    assert RomanToInt("XVIII") == 18;
    assert RomanToInt("XIX") == 19;
    assert RomanToInt("XX") == 20;
  }

  /** Lower-case spellings decode like upper-case ones. */
  lemma LowerCaseExample()
    ensures RomanToInt("xiv") == 14
  {
    assert Upper("xiv") == "XIV";
  }
}
