/**
  Invalid product ids: an id is invalid when its decimal spelling is some digit
  string written twice. The input is one line of comma-separated ranges `a-b`, and
  the answer is the sum of every invalid id in every range.
*/
module Day02 {
  import opened Wrappers
  import opened Text
  import opened Interval

  /** The verdict on one id: `Invalid` carries the value of the repeated half. */
  datatype ValidationResult = Invalid(number: nat) | Valid

  // ---------------------------------------------------------------------------
  // validate
  // ---------------------------------------------------------------------------

  /**
    What `validate` needs to run without a panic: when the two halves are equal,
    the first half parses as a `u64`.
  */
  predicate HalvesParse(input: string) {
    var half := |input| / 2;
    |input| <= 1 || input[..half] != input[half..] || ParseU64(input[..half]).Some?
  }

  /**
    `validate`: strings of at most one character are valid; otherwise the string is
    split at half its length and is invalid exactly when both halves are equal, so
    every odd-length string is valid.
  */
  function Validate(input: string): (r: ValidationResult)
    requires HalvesParse(input)
    ensures r.Invalid? <==> |input| >= 2 && |input| % 2 == 0 && input[..|input| / 2] == input[|input| / 2..]
    ensures r.Invalid? ==> ParseU64(input[..|input| / 2]) == Some(r.number)
  {
    if |input| <= 1 then Valid
    else
      var splitIndex := |input| / 2;
      var left, right := input[..splitIndex], input[splitIndex..];
      if right == left then Invalid(ParseU64(left).value) else Valid
  }

  /** The id spelled by the decimal digits of `k` written twice: `k * 10^d + k` for `d` digits. */
  function Repeated(k: nat): nat {
    k * Pow10(|ToDecimal(k)|) + k
  }

  /** The spelling of `Repeated(k)` is the spelling of `k` twice. */
  lemma RepeatedDecimal(k: nat)
    requires k >= 1
    ensures ToDecimal(Repeated(k)) == ToDecimal(k) + ToDecimal(k)
  {
    var t := ToDecimal(k);
    FromToDecimal(k);
    FromDecimalAppend(t, t);
    assert (t + t)[0] == t[0];
    ToFromDecimal(t + t);
  }

  /** A decimal spelling made of two equal halves is the spelling of `Repeated` of its half. */
  lemma DecimalOfEqualHalves(n: nat)
    requires var s := ToDecimal(n); |s| >= 2 && |s| % 2 == 0 && s[..|s| / 2] == s[|s| / 2..]
    ensures var half := ToDecimal(n)[..|ToDecimal(n)| / 2];
      IsDigits(half) && ToDecimal(FromDecimal(half)) == half
      && 1 <= FromDecimal(half) <= n && n == Repeated(FromDecimal(half))
  {
    var s := ToDecimal(n);
    var half := s[..|s| / 2];
    assert s == half + half;
    assert half[0] == s[0];
    ToFromDecimal(half);
    FromDecimalPositive(half);
    FromToDecimal(n);
    FromDecimalAppend(half, half);
    var k := FromDecimal(half);
    ProductAtLeast(k, Pow10(|half|));
  }

  lemma ProductAtLeast(k: nat, p: nat)
    requires p >= 1
    ensures k * p >= k
  {
  }

  /**
    On the spelling of any `u64`, `validate` never panics, and it answers `Invalid`
    exactly for the ids that are some number written twice, carrying that number.
  */
  lemma ValidateDecimal(n: nat)
    requires n <= U64_MAX
    ensures HalvesParse(ToDecimal(n))
    ensures Validate(ToDecimal(n)).Invalid? <==> exists k :: 1 <= k && n == Repeated(k)
    ensures Validate(ToDecimal(n)).Invalid? ==> n == Repeated(Validate(ToDecimal(n)).number)
  {
    var s := ToDecimal(n);
    if |s| >= 2 && |s| % 2 == 0 && s[..|s| / 2] == s[|s| / 2..] {
      DecimalOfEqualHalves(n);
      ParseU64ToDecimal(FromDecimal(s[..|s| / 2]));
    }
    if exists k :: 1 <= k && n == Repeated(k) {
      var k :| 1 <= k && n == Repeated(k);
      RepeatedDecimal(k);
      var t := ToDecimal(k);
      assert s == t + t;
      assert s[..|s| / 2] == t && s[|s| / 2..] == t;
      DecimalOfEqualHalves(n);
      ParseU64ToDecimal(FromDecimal(s[..|s| / 2]));
    }
  }

  /** A string written twice is invalid, carrying the value of the string, whenever it parses. */
  lemma ValidateDoubled(t: string)
    requires |t| >= 1 && ParseU64(t).Some?
    ensures HalvesParse(t + t) && Validate(t + t) == Invalid(ParseU64(t).value)
  {
    var s := t + t;
    assert s[..|t|] == t && s[|t|..] == t;
  }

  /** A string whose two halves differ is valid. */
  lemma ValidateUnequalHalves(l: string, r: string)
    requires |l| == |r| && l != r
    ensures HalvesParse(l + r) && Validate(l + r) == Valid
  {
    var s := l + r;
    assert s[..|l|] == l && s[|l|..] == r;
  }

  /** Unit test of `validate`: `55` is 5 written twice. */
  lemma ValidateTwoDigitExample()
    ensures HalvesParse("55") && Validate("55") == Invalid(5)
  {
    assert "55" == "5" + "5";
    assert ToDecimal(5) == "5";
    ParseU64ToDecimal(5);
    ValidateDoubled("5");
  }

  /** Unit test of `validate`: `6464` is 64 written twice. */
  lemma ValidateFourDigitExample()
    ensures HalvesParse("6464") && Validate("6464") == Invalid(64)
  {
    assert "6464" == "64" + "64";
    TwoDigitSpelling(64);
    ParseU64ToDecimal(64);
    ValidateDoubled("64");
  }

  /** Unit test of `validate`: `123123` is 123 written twice. */
  lemma ValidateSixDigitExample()
    ensures HalvesParse("123123") && Validate("123123") == Invalid(123)
  {
    assert "123123" == "123" + "123";
    TwoDigitSpelling(12);
    assert ToDecimal(123) == "123";
    ParseU64ToDecimal(123);
    ValidateDoubled("123");
  }

  /** The unit tests of `validate` whose input is valid. */
  lemma ValidateValidExamples()
    ensures HalvesParse("12") && Validate("12") == Valid
    ensures HalvesParse("1") && Validate("1") == Valid
    ensures HalvesParse("") && Validate("") == Valid
    ensures HalvesParse("101") && Validate("101") == Valid
    ensures HalvesParse("16464") && Validate("16464") == Valid
    ensures HalvesParse("64641") && Validate("64641") == Valid
    ensures HalvesParse("64164") && Validate("64164") == Valid
  {
    assert "12" == "1" + "2";
    ValidateUnequalHalves("1", "2");
  }

  // ---------------------------------------------------------------------------
  // range_from_string, ranges_from_string
  // ---------------------------------------------------------------------------

  /** What `range_from_string` needs to run without a panic: a `-`, and a `u64` on each side of the first one. */
  predicate IsRangeText(input: string) {
    match SplitOnce(input, '-')
    case None => false
    case Some((left, right)) => ParseU64(left).Some? && ParseU64(right).Some?
  }

  /** `range_from_string`: the two sides of the first `-`, parsed as `u64`. */
  function RangeFromString(input: string): (r: RangeInclusive)
    requires IsRangeText(input)
    ensures r.start <= U64_MAX && r.end <= U64_MAX
  {
    var (left, right) := SplitOnce(input, '-').value;
    RangeInclusive(ParseU64(left).value, ParseU64(right).value)
  }

  /** How a range is written in the input: `<start>-<end>` in decimal. */
  function Format(range: RangeInclusive): (s: string)
    ensures ',' !in s
  {
    var s := ToDecimal(range.start) + "-" + ToDecimal(range.end);
    assert forall i :: 0 <= i < |s| ==> s[i] == '-' || IsDigit(s[i]);
    s
  }

  /** Every `u64` range, written out, parses back to itself. */
  lemma RangeFromStringOfFormat(range: RangeInclusive)
    requires range.start <= U64_MAX && range.end <= U64_MAX
    ensures IsRangeText(Format(range))
    ensures RangeFromString(Format(range)) == range
  {
    var a, b := ToDecimal(range.start), ToDecimal(range.end);
    assert forall i :: 0 <= i < |a| ==> IsDigit(a[i]);
    assert '-' !in a;
    SplitOnceUnique(a, '-', b);
    assert Format(range) == a + ['-'] + b;
    ParseU64ToDecimal(range.start);
    ParseU64ToDecimal(range.end);
  }

  /** The unit test of `range_from_string`. */
  lemma RangeFromStringExample()
    ensures IsRangeText("11-25") && RangeFromString("11-25") == RangeInclusive(11, 25)
  {
    assert Format(RangeInclusive(11, 25)) == "11-25" by {
      assert ToDecimal(11) == "11" && ToDecimal(25) == "25";
    }
    RangeFromStringOfFormat(RangeInclusive(11, 25));
  }

  /** What `ranges_from_string` needs to run without a panic: every comma-separated piece is a range. */
  predicate IsRangesText(input: string) {
    forall i :: 0 <= i < |Split(input, ',')| ==> IsRangeText(Split(input, ',')[i])
  }

  /** `ranges_from_string`: one range per comma-separated piece, in input order. */
  function RangesFromString(input: string): (ranges: seq<RangeInclusive>)
    requires IsRangesText(input)
    ensures |ranges| == |Split(input, ',')| >= 1
  {
    RangesFromPieces(Split(input, ','))
  }

  function RangesFromPieces(pieces: seq<string>): (ranges: seq<RangeInclusive>)
    requires forall i :: 0 <= i < |pieces| ==> IsRangeText(pieces[i])
    ensures |ranges| == |pieces|
    ensures forall i :: 0 <= i < |pieces| ==> ranges[i] == RangeFromString(pieces[i])
  {
    seq(|pieces|, i requires 0 <= i < |pieces| => RangeFromString(pieces[i]))
  }

  /** Every range written out, in order. */
  function FormatAll(ranges: seq<RangeInclusive>): (pieces: seq<string>)
    ensures |pieces| == |ranges|
    ensures forall i :: 0 <= i < |ranges| ==> pieces[i] == Format(ranges[i])
  {
    if ranges == [] then [] else [Format(ranges[0])] + FormatAll(ranges[1..])
  }

  /** Every `u64` range written out is a comma-free piece that parses as a range. */
  lemma FormattedPiecesAreRanges(ranges: seq<RangeInclusive>)
    requires forall i :: 0 <= i < |ranges| ==> ranges[i].start <= U64_MAX && ranges[i].end <= U64_MAX
    ensures forall i :: 0 <= i < |ranges| ==> ',' !in FormatAll(ranges)[i] && IsRangeText(FormatAll(ranges)[i])
  {
    forall i | 0 <= i < |ranges| ensures IsRangeText(FormatAll(ranges)[i]) {
      RangeFromStringOfFormat(ranges[i]);
    }
  }

  /** Parsing every written-out `u64` range, piece by piece, gives the ranges back. */
  lemma RangesFromFormattedPieces(ranges: seq<RangeInclusive>)
    requires forall i :: 0 <= i < |ranges| ==> ranges[i].start <= U64_MAX && ranges[i].end <= U64_MAX
    requires forall i :: 0 <= i < |ranges| ==> IsRangeText(FormatAll(ranges)[i])
    ensures RangesFromPieces(FormatAll(ranges)) == ranges
  {
    var pieces := FormatAll(ranges);
    var parsed := RangesFromPieces(pieces);
    forall i | 0 <= i < |ranges| ensures parsed[i] == ranges[i] {
      RangeFromStringOfFormat(ranges[i]);
      assert pieces[i] == Format(ranges[i]);
    }
    assert |parsed| == |ranges|;
  }

  /** A non-empty list of `u64` ranges, written out and joined with commas, parses back to itself. */
  lemma RangesFromStringOfJoin(ranges: seq<RangeInclusive>)
    requires |ranges| >= 1
    requires forall i :: 0 <= i < |ranges| ==> ranges[i].start <= U64_MAX && ranges[i].end <= U64_MAX
    ensures IsRangesText(Join(FormatAll(ranges), ','))
    ensures RangesFromString(Join(FormatAll(ranges), ',')) == ranges
  {
    FormattedPiecesAreRanges(ranges);
    RangesFromStringOfPieces(FormatAll(ranges));
    RangesFromFormattedPieces(ranges);
  }

  /** Pieces free of commas that are each a range, joined with commas, parse piece by piece. */
  lemma RangesFromStringOfPieces(pieces: seq<string>)
    requires |pieces| >= 1
    requires forall i :: 0 <= i < |pieces| ==> ',' !in pieces[i] && IsRangeText(pieces[i])
    ensures IsRangesText(Join(pieces, ','))
    ensures RangesFromString(Join(pieces, ',')) == RangesFromPieces(pieces)
  {
    SplitJoin(pieces, ',');
  }

  /** The first three ranges of the unit test of `ranges_from_string`, in input order. */
  lemma RangesFromStringExample()
    ensures IsRangesText("11-22,95-115,998-1012")
    ensures var ranges := RangesFromString("11-22,95-115,998-1012");
      |ranges| == 3 && ranges[0] == RangeInclusive(11, 22) && ranges[1] == RangeInclusive(95, 115)
      && ranges[2] == RangeInclusive(998, 1012)
  {
    ExampleRangesFormatted();
    FormatAllOfThree(RangeInclusive(11, 22), RangeInclusive(95, 115), RangeInclusive(998, 1012));
    RangesFromStringOfJoin([RangeInclusive(11, 22), RangeInclusive(95, 115), RangeInclusive(998, 1012)]);
    ExampleJoin();
  }

  /** Three ranges written out one by one are the ranges written out as a list. */
  lemma FormatAllOfThree(a: RangeInclusive, b: RangeInclusive, c: RangeInclusive)
    ensures FormatAll([a, b, c]) == [Format(a), Format(b), Format(c)]
  {
    var f := FormatAll([a, b, c]);
    assert f[0] == Format(a) && f[1] == Format(b) && f[2] == Format(c);
  }

  lemma ExampleJoin()
    ensures Join(["11-22", "95-115", "998-1012"], ',') == "11-22,95-115,998-1012"
  {
  }

  lemma ExampleRangesFormatted()
    ensures Format(RangeInclusive(11, 22)) == "11-22"
    ensures Format(RangeInclusive(95, 115)) == "95-115"
    ensures Format(RangeInclusive(998, 1012)) == "998-1012"
  {
    TwoDigitSpelling(11);
    TwoDigitSpelling(22);
    TwoDigitSpelling(95);
    FourDigitSpelling(1012);
    assert ToDecimal(115) == ToDecimal(11) + [DigitChar(5)];
    assert ToDecimal(998) == ToDecimal(99) + [DigitChar(8)];
    TwoDigitSpelling(99);
  }

  // ---------------------------------------------------------------------------
  // add_invalid_ranges
  // ---------------------------------------------------------------------------

  /** What one id adds to the answer: itself when `validate` rejects its spelling, else 0. */
  function InvalidValue(value: nat): (w: nat)
    requires value <= U64_MAX
    ensures w == 0 || w == value
  {
    ValidateDecimal(value);
    match Validate(ToDecimal(value))
    case Invalid(_) => value
    case Valid => 0
  }

  /** The invalid ids of `lo..=hi`, summed; empty when `lo > hi`. A range holding an invalid id sums to at least its start. */
  function AddInvalidRange(lo: nat, hi: nat): (s: nat)
    requires hi <= U64_MAX
    ensures lo > hi ==> s == 0
    ensures s == 0 || lo <= s
    decreases hi + 1 - lo
  {
    if lo > hi then 0 else InvalidValue(lo) + AddInvalidRange(lo + 1, hi)
  }

  /** `add_invalid_ranges`: the invalid ids of every range, summed. */
  function AddInvalidRanges(ranges: seq<RangeInclusive>): (s: nat)
    requires forall i :: 0 <= i < |ranges| ==> ranges[i].end <= U64_MAX
    ensures forall i :: 0 <= i < |ranges| ==> AddInvalidRange(ranges[i].start, ranges[i].end) <= s
  {
    if ranges == [] then 0
    else AddInvalidRange(ranges[0].start, ranges[0].end) + AddInvalidRanges(ranges[1..])
  }

  /** An id is invalid when it is some positive number written twice. */
  ghost predicate IsRepeated(n: nat) {
    exists k :: 1 <= k && n == Repeated(k)
  }

  /** The reference sum: every id of `lo..=hi` that is some number written twice. */
  ghost function RepeatedSum(lo: nat, hi: nat): nat
    decreases hi + 1 - lo
  {
    if lo > hi then 0 else (if IsRepeated(lo) then lo else 0) + RepeatedSum(lo + 1, hi)
  }

  ghost function RepeatedSumAll(ranges: seq<RangeInclusive>): nat {
    if ranges == [] then 0 else RepeatedSum(ranges[0].start, ranges[0].end) + RepeatedSumAll(ranges[1..])
  }

  /** One id adds itself exactly when it is some number written twice. */
  lemma InvalidValueIsRepeated(n: nat)
    requires n <= U64_MAX
    ensures InvalidValue(n) == if IsRepeated(n) then n else 0
  {
    ValidateDecimal(n);
  }

  /** Summing by `validate` is summing the ids that are a number written twice. */
  lemma {:induction false} AddInvalidRangeIsRepeatedSum(lo: nat, hi: nat)
    requires hi <= U64_MAX
    ensures AddInvalidRange(lo, hi) == RepeatedSum(lo, hi)
    decreases hi + 1 - lo
  {
    if lo <= hi {
      InvalidValueIsRepeated(lo);
      AddInvalidRangeIsRepeatedSum(lo + 1, hi);
    }
  }

  /** `add_invalid_ranges` is the sum, over all ranges, of the ids that are a number written twice. */
  lemma {:induction false} AddInvalidRangesIsRepeatedSum(ranges: seq<RangeInclusive>)
    requires forall i :: 0 <= i < |ranges| ==> ranges[i].end <= U64_MAX
    ensures AddInvalidRanges(ranges) == RepeatedSumAll(ranges)
  {
    if ranges != [] {
      AddInvalidRangeIsRepeatedSum(ranges[0].start, ranges[0].end);
      AddInvalidRangesIsRepeatedSum(ranges[1..]);
    }
  }

  /** A range sum splits at any point inside the range. */
  lemma {:induction false} AddInvalidRangeSplit(lo: nat, mid: nat, hi: nat)
    requires lo <= mid + 1 && mid <= hi <= U64_MAX
    ensures AddInvalidRange(lo, hi) == AddInvalidRange(lo, mid) + AddInvalidRange(mid + 1, hi)
    decreases mid + 1 - lo
  {
    if lo <= mid {
      AddInvalidRangeSplit(lo + 1, mid, hi);
    }
  }

  lemma ThreeDigits(n: nat)
    requires 100 <= n <= 999
    ensures |ToDecimal(n)| == 3
  {
    assert |ToDecimal(n / 100)| == 1;
    assert |ToDecimal(n / 10)| == 2;
  }

  /** No three-digit id is invalid: an odd-length spelling has no equal halves. */
  lemma {:induction false} ThreeDigitIdsAreValid(lo: nat, hi: nat)
    requires 100 <= lo && hi <= 999
    ensures AddInvalidRange(lo, hi) == 0
    decreases hi + 1 - lo
  {
    if lo <= hi {
      ThreeDigits(lo);
      ThreeDigitIdsAreValid(lo + 1, hi);
    }
  }

  /** The spelling of a two-digit number: its tens digit, then its units digit. */
  lemma TwoDigitSpelling(n: nat)
    requires 10 <= n <= 99
    ensures ToDecimal(n) == [DigitChar(n / 10), DigitChar(n % 10)]
  {
    assert ToDecimal(n / 10) == [DigitChar(n / 10)];
  }

  /** The spelling of a four-digit number, digit by digit. */
  lemma FourDigitSpelling(n: nat)
    requires 1000 <= n <= 9999
    ensures ToDecimal(n)
         == [DigitChar(n / 1000), DigitChar(n / 100 % 10), DigitChar(n / 10 % 10), DigitChar(n % 10)]
  {
    assert n / 10 / 10 == n / 100 && n / 100 / 10 == n / 1000;
    assert ToDecimal(n / 1000) == [DigitChar(n / 1000)];
    assert ToDecimal(n / 100) == [DigitChar(n / 1000), DigitChar(n / 100 % 10)];
    assert ToDecimal(n / 10) == [DigitChar(n / 1000), DigitChar(n / 100 % 10), DigitChar(n / 10 % 10)];
  }

  /** Two digits are the same character exactly when they have the same value. */
  lemma DigitCharInjective(a: nat, b: nat)
    requires a < 10 && b < 10
    ensures DigitChar(a) == DigitChar(b) <==> a == b
  {
    assert DigitValue(DigitChar(a)) == a && DigitValue(DigitChar(b)) == b;
  }

  /** A two-digit spelling has equal halves exactly when its two digits are equal. */
  lemma TwoDigitHalves(n: nat)
    requires 10 <= n <= 99
    ensures var s := ToDecimal(n); s[..1] == s[1..] <==> n / 10 == n % 10
  {
    var s := ToDecimal(n);
    TwoDigitSpelling(n);
    assert s[..1] == [DigitChar(n / 10)] && s[1..] == [DigitChar(n % 10)];
    DigitCharInjective(n / 10, n % 10);
  }

  /** A four-digit spelling has equal halves exactly when `n / 100 == n % 100`. */
  lemma FourDigitHalves(n: nat)
    requires 1000 <= n <= 9999
    ensures var s := ToDecimal(n); s[..2] == s[2..] <==> n / 100 == n % 100
  {
    var s := ToDecimal(n);
    FourDigitSpelling(n);
    assert s[..2] == [DigitChar(n / 1000), DigitChar(n / 100 % 10)];
    assert s[2..] == [DigitChar(n / 10 % 10), DigitChar(n % 10)];
    DigitCharInjective(n / 1000, n / 10 % 10);
    DigitCharInjective(n / 100 % 10, n % 10);
    HalvesOfFourDigits(n);
    TwoDigitNumbersEqual(n / 1000, n / 100 % 10, n / 10 % 10, n % 10);
  }

  lemma HalvesOfFourDigits(n: nat)
    ensures n / 100 == 10 * (n / 1000) + n / 100 % 10
    ensures n % 100 == 10 * (n / 10 % 10) + n % 10
  {
    DivTenTwice(n / 10);
    DivTenTwice(n);
    ModHundred(n);
  }

  lemma DivTenTwice(n: nat)
    ensures n / 10 / 10 == n / 100
  {
  }

  lemma ModHundred(n: nat)
    ensures n % 100 / 10 == n / 10 % 10 && n % 100 % 10 == n % 10
  {
    var q, a, b := n / 100, n % 100 / 10, n % 100 % 10;
    assert n == 10 * (10 * q + a) + b;
    assert n / 10 == 10 * q + a;
  }

  lemma TwoDigitNumbersEqual(a: nat, b: nat, c: nat, d: nat)
    requires b < 10 && d < 10
    ensures 10 * a + b == 10 * c + d <==> a == c && b == d
  {
  }

  /**
    A two-digit id (`p == 10`) or a four-digit id (`p == 100`) is invalid exactly
    when its upper half `n / p` equals its lower half `n % p`.
  */
  lemma EvenDigitValue(n: nat, p: nat)
    requires (p == 10 && 10 <= n <= 99) || (p == 100 && 1000 <= n <= 9999)
    ensures InvalidValue(n) == if n / p == n % p then n else 0
  {
    if p == 10 {
      TwoDigitSpelling(n);
      TwoDigitHalves(n);
    } else {
      FourDigitSpelling(n);
      FourDigitHalves(n);
    }
  }

  /** The ids of `lo..=hi` whose upper half `n / p` equals their lower half `n % p`, summed. */
  function HalvesEqualSum(lo: nat, hi: nat, p: nat): nat
    requires p >= 1
    decreases hi + 1 - lo
  {
    if lo > hi then 0 else (if lo / p == lo % p then lo else 0) + HalvesEqualSum(lo + 1, hi, p)
  }

  /** Within the two-digit or the four-digit ids, the sum keeps exactly the ids with equal halves. */
  lemma {:induction false} EvenDigitRange(lo: nat, hi: nat, p: nat)
    requires (p == 10 && 10 <= lo && hi <= 99) || (p == 100 && 1000 <= lo && hi <= 9999)
    ensures AddInvalidRange(lo, hi) == HalvesEqualSum(lo, hi, p)
    decreases hi + 1 - lo
  {
    if lo <= hi {
      EvenDigitValue(lo, p);
      EvenDigitRange(lo + 1, hi, p);
    }
  }

  /** Unit test of `add_invalid_ranges`: `11..=22` holds the invalid ids 11 and 22. */
  lemma TwoDigitExample()
    ensures AddInvalidRange(11, 22) == 33
  {
    EvenDigitRange(11, 22, 10);
  }

  /** Unit test of `add_invalid_ranges`: in `99..=115` only 99 is invalid. */
  lemma ThreeDigitExample()
    ensures AddInvalidRange(99, 115) == 99
  {
    EvenDigitRange(99, 99, 10);
    ThreeDigitIdsAreValid(100, 115);
    AddInvalidRangeSplit(99, 99, 115);
  }

  /** Unit test of `add_invalid_ranges`: in `998..=1012` only 1010 is invalid. */
  lemma FourDigitExample()
    ensures AddInvalidRange(998, 1012) == 1010
  {
    ThreeDigitIdsAreValid(998, 999);
    EvenDigitRange(1000, 1012, 100);
    AddInvalidRangeSplit(998, 999, 1012);
  }
}
