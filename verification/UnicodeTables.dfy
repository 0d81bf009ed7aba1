/**
 Display widths (src/components/Unicode/Unicode.cpp:70-117, UnicodeTables.cpp): a binary search in two tables of
 code point ranges.
 */
module UnicodeTables {
  datatype CodePointRange = CodePointRange(first: nat, last: nat)

  /** Ranges in order that do not overlap. */
  predicate Sorted(ranges: seq<CodePointRange>)
  {
    && (forall i :: 0 <= i < |ranges| ==> ranges[i].first <= ranges[i].last)
    && (forall i, j :: 0 <= i < j < |ranges| ==> ranges[i].last < ranges[j].first)
  }

  predicate InSome(ranges: seq<CodePointRange>, c: nat)
  {
    exists i :: 0 <= i < |ranges| && ranges[i].first <= c <= ranges[i].last
  }

  method InRanges(ranges: seq<CodePointRange>, c: nat) returns (found: bool)
    requires Sorted(ranges)
    ensures found <==> InSome(ranges, c)
  {
    var lo, hi := 0, |ranges|;
    while lo < hi
      invariant 0 <= lo <= hi <= |ranges|
      invariant forall i :: 0 <= i < lo ==> ranges[i].last < c
      invariant forall i :: hi <= i < |ranges| ==> c < ranges[i].first
    {
      var mid := lo + (hi - lo) / 2;
      if c < ranges[mid].first {
        hi := mid;
      } else if c > ranges[mid].last {
        lo := mid + 1;
      } else {
        return true;
      }
    }
    found := false;
  }

  // ---- The tables -----------------------------------------------------------------------------------------

  const ZERO_WIDTH_1: seq<CodePointRange> := [
    CodePointRange(0x0300, 0x036F), CodePointRange(0x0483, 0x0489), CodePointRange(0x0591, 0x05BD),
    CodePointRange(0x05BF, 0x05BF), CodePointRange(0x05C1, 0x05C2), CodePointRange(0x05C4, 0x05C5),
    CodePointRange(0x05C7, 0x05C7), CodePointRange(0x0610, 0x061A), CodePointRange(0x061C, 0x061C),
    CodePointRange(0x064B, 0x065F), CodePointRange(0x0670, 0x0670), CodePointRange(0x06D6, 0x06DC),
    CodePointRange(0x06DF, 0x06E4)
  ]

  const ZERO_WIDTH_2: seq<CodePointRange> := [
    CodePointRange(0x06E7, 0x06E8), CodePointRange(0x06EA, 0x06ED), CodePointRange(0x0900, 0x0902),
    CodePointRange(0x093A, 0x093A), CodePointRange(0x093C, 0x093C), CodePointRange(0x0941, 0x0948),
    CodePointRange(0x094D, 0x094D), CodePointRange(0x0951, 0x0957), CodePointRange(0x0962, 0x0963),
    CodePointRange(0x1160, 0x11FF), CodePointRange(0x1AB0, 0x1AFF), CodePointRange(0x1DC0, 0x1DFF),
    CodePointRange(0x200B, 0x200F)
  ]

  const ZERO_WIDTH_3: seq<CodePointRange> := [
    CodePointRange(0x202A, 0x202E), CodePointRange(0x2060, 0x2064), CodePointRange(0x2066, 0x206F),
    CodePointRange(0x20D0, 0x20FF), CodePointRange(0x302A, 0x302D), CodePointRange(0x3099, 0x309A),
    CodePointRange(0xFE00, 0xFE0F), CodePointRange(0xFE20, 0xFE2F), CodePointRange(0xFEFF, 0xFEFF),
    CodePointRange(0xE0001, 0xE0001), CodePointRange(0xE0020, 0xE007F), CodePointRange(0xE0100, 0xE01EF)
  ]

  const ZERO_WIDTH: seq<CodePointRange> := ZERO_WIDTH_1 + ZERO_WIDTH_2 + ZERO_WIDTH_3

  const WIDE_1: seq<CodePointRange> := [
    CodePointRange(0x1100, 0x115F), CodePointRange(0x231A, 0x231B), CodePointRange(0x2329, 0x232A),
    CodePointRange(0x23E9, 0x23EC), CodePointRange(0x23F0, 0x23F0), CodePointRange(0x23F3, 0x23F3),
    CodePointRange(0x25FD, 0x25FE), CodePointRange(0x2614, 0x2615), CodePointRange(0x2648, 0x2653),
    CodePointRange(0x267F, 0x267F), CodePointRange(0x2693, 0x2693), CodePointRange(0x26A1, 0x26A1),
    CodePointRange(0x26AA, 0x26AB)
  ]

  const WIDE_2: seq<CodePointRange> := [
    CodePointRange(0x26BD, 0x26BE), CodePointRange(0x26C4, 0x26C5), CodePointRange(0x26CE, 0x26CE),
    CodePointRange(0x26D4, 0x26D4), CodePointRange(0x26EA, 0x26EA), CodePointRange(0x26F2, 0x26F3),
    CodePointRange(0x26F5, 0x26F5), CodePointRange(0x26FA, 0x26FA), CodePointRange(0x26FD, 0x26FD),
    CodePointRange(0x2705, 0x2705), CodePointRange(0x270A, 0x270B), CodePointRange(0x2728, 0x2728),
    CodePointRange(0x274C, 0x274C)
  ]

  const WIDE_3: seq<CodePointRange> := [
    CodePointRange(0x274E, 0x274E), CodePointRange(0x2753, 0x2755), CodePointRange(0x2757, 0x2757),
    CodePointRange(0x2795, 0x2797), CodePointRange(0x27B0, 0x27B0), CodePointRange(0x27BF, 0x27BF),
    CodePointRange(0x2B1B, 0x2B1C), CodePointRange(0x2B50, 0x2B50), CodePointRange(0x2B55, 0x2B55),
    CodePointRange(0x2E80, 0x303E), CodePointRange(0x3041, 0x33FF), CodePointRange(0x3400, 0x4DBF),
    CodePointRange(0x4E00, 0x9FFF)
  ]

  const WIDE_4: seq<CodePointRange> := [
    CodePointRange(0xA000, 0xA4CF), CodePointRange(0xA960, 0xA97F), CodePointRange(0xAC00, 0xD7A3),
    CodePointRange(0xF900, 0xFAFF), CodePointRange(0xFE10, 0xFE19), CodePointRange(0xFE30, 0xFE6F),
    CodePointRange(0xFF00, 0xFF60), CodePointRange(0xFFE0, 0xFFE6), CodePointRange(0x16FE0, 0x16FE4),
    CodePointRange(0x17000, 0x18CFF), CodePointRange(0x1B000, 0x1B2FF), CodePointRange(0x1F004, 0x1F004),
    CodePointRange(0x1F0CF, 0x1F0CF)
  ]

  const WIDE_5: seq<CodePointRange> := [
    CodePointRange(0x1F18E, 0x1F18E), CodePointRange(0x1F191, 0x1F19A), CodePointRange(0x1F200, 0x1F202),
    CodePointRange(0x1F210, 0x1F23B), CodePointRange(0x1F240, 0x1F248), CodePointRange(0x1F250, 0x1F251),
    CodePointRange(0x1F300, 0x1F64F), CodePointRange(0x1F680, 0x1F6FF), CodePointRange(0x1F7E0, 0x1F7EB),
    CodePointRange(0x1F900, 0x1F9FF), CodePointRange(0x1FA70, 0x1FAFF), CodePointRange(0x20000, 0x2FFFD),
    CodePointRange(0x30000, 0x3FFFD)
  ]

  const WIDE: seq<CodePointRange> := WIDE_1 + WIDE_2 + WIDE_3 + WIDE_4 + WIDE_5

  /** Each range ends before the next starts. */
  predicate Ascending(ranges: seq<CodePointRange>)
  {
    forall i :: 0 <= i < |ranges| ==> ranges[i].first <= ranges[i].last && (i + 1 < |ranges| ==> ranges[i].last < ranges[i + 1].first)
  }

  lemma {:induction false} AscendingEndsBefore(ranges: seq<CodePointRange>, i: nat, j: nat)
    requires Ascending(ranges) && i < j < |ranges|
    ensures ranges[i].last < ranges[j].first
  {
    if i + 1 < j {
      AscendingEndsBefore(ranges, i, j - 1);
    }
  }

  lemma AscendingIsSorted(ranges: seq<CodePointRange>)
    requires Ascending(ranges)
    ensures Sorted(ranges)
  {
    forall i, j | 0 <= i < j < |ranges|
      ensures ranges[i].last < ranges[j].first
    {
      AscendingEndsBefore(ranges, i, j);
    }
  }

  lemma AscendingJoins(a: seq<CodePointRange>, b: seq<CodePointRange>)
    requires Ascending(a) && Ascending(b) && a != [] && b != [] && a[|a| - 1].last < b[0].first
    ensures Ascending(a + b)
  {
  }

  lemma ZeroWidth1Ascends()
    ensures Ascending(ZERO_WIDTH_1)
  {
  }

  lemma ZeroWidth2Ascends()
    ensures Ascending(ZERO_WIDTH_2)
  {
  }

  lemma ZeroWidth3Ascends()
    ensures Ascending(ZERO_WIDTH_3)
  {
  }

  lemma Wide1Ascends()
    ensures Ascending(WIDE_1)
  {
  }

  lemma Wide2Ascends()
    ensures Ascending(WIDE_2)
  {
  }

  lemma Wide3Ascends()
    ensures Ascending(WIDE_3)
  {
  }

  lemma Wide4Ascends()
    ensures Ascending(WIDE_4)
  {
  }

  lemma Wide5Ascends()
    ensures Ascending(WIDE_5)
  {
  }

  /** The binary search may be used on both tables. */
  lemma TablesAreSorted()
    ensures Sorted(ZERO_WIDTH) && Sorted(WIDE)
  {
    ZeroWidth1Ascends();
    ZeroWidth2Ascends();
    ZeroWidth3Ascends();
    Wide1Ascends();
    Wide2Ascends();
    Wide3Ascends();
    Wide4Ascends();
    Wide5Ascends();
    hide Ascending, Sorted;
    AscendingJoins(ZERO_WIDTH_1, ZERO_WIDTH_2);
    AscendingJoins(ZERO_WIDTH_1 + ZERO_WIDTH_2, ZERO_WIDTH_3);
    AscendingJoins(WIDE_1, WIDE_2);
    AscendingJoins(WIDE_1 + WIDE_2, WIDE_3);
    AscendingJoins(WIDE_1 + WIDE_2 + WIDE_3, WIDE_4);
    AscendingJoins(WIDE_1 + WIDE_2 + WIDE_3 + WIDE_4, WIDE_5);
    AscendingIsSorted(ZERO_WIDTH);
    AscendingIsSorted(WIDE);
  }

  // ---- Widths -----------------------------------------------------------------------------------------------

  const MAX_CODE_POINT: nat := 0x10FFFF

  predicate IsPrintable(c: nat)
  {
    && 0x1F < c <= MAX_CODE_POINT
    && !(0x7F <= c <= 0x9F)
    && c != 0x2028 && c != 0x2029
    && !(0xFDD0 <= c <= 0xFDEF)
    && !(0xD800 <= c <= 0xDFFF)
    && c / 2 % 0x8000 != 0x7FFF
  }

  /** Not printable: control codes, the two separators, surrogates, and what is no character, as the last two of each plane. */
  lemma PrintableIs(c: nat)
    ensures IsPrintable(c) <==>
              !(c < 0x20 || 0x7F <= c < 0xA0 || c in {0x2028, 0x2029} || 0xD800 <= c < 0xE000 || 0xFDD0 <= c < 0xFDF0
                || c % 0x10000 in {0xFFFE, 0xFFFF} || c >= 0x110000)
  {
    assert c / 2 % 0x8000 == 0x7FFF <==> c % 0x10000 >= 0xFFFE by {
      var (q, r) := (c / 0x10000, c % 0x10000);
      assert c == 0x10000 * q + r && c / 2 == 0x8000 * q + r / 2;
    }
  }

  /** A width-0 range wins over a width-2 one it lies in. */
  method DisplayWidth(c: nat) returns (width: int)
    ensures width == if !IsPrintable(c) then -1 else if InSome(ZERO_WIDTH, c) then 0 else if InSome(WIDE, c) then 2 else 1
  {
    TablesAreSorted();
    hide *;
    if !IsPrintable(c) {
      return -1;
    }
    var zero := InRanges(ZERO_WIDTH, c);
    if zero {
      return 0;
    }
    var wide := InRanges(WIDE, c);
    width := if wide then 2 else 1;
  }
}
