/**
  Battery banks: each line is a bank of single-digit batteries, and a bank's
  joltage is the largest two-digit number formed by two of its digits taken in
  order. The answer is the sum of the joltages of all banks.
*/
module Day03 {
  import opened Wrappers
  import opened Text

  /** The value of the digit at position `i`. */
  function Digit(s: string, i: nat): nat
    requires IsDigits(s) && i < |s|
  {
    DigitValue(s[i])
  }

  /** The two-digit number formed by the digits at `i` and `j`. */
  function Pair(s: string, i: nat, j: nat): nat
    requires IsDigits(s) && i < |s| && j < |s|
  {
    10 * Digit(s, i) + Digit(s, j)
  }

  // ---------------------------------------------------------------------------
  // find_maximum_digit_and_position
  // ---------------------------------------------------------------------------

  /**
    `find_maximum_digit_and_position`: `None` for the empty string; otherwise the
    largest digit and the position of its first occurrence, since the scan from the
    left only moves on a strictly greater digit.
  */
  method FindMaximumDigitAndPosition(input: string) returns (result: Option<(nat, nat)>)
    requires IsDigits(input)
    ensures result.None? <==> input == []
    ensures result.Some? ==>
      var (max, position) := result.value;
      position < |input| && Digit(input, position) == max
      && (forall i :: 0 <= i < |input| ==> Digit(input, i) <= max)
      && (forall i :: 0 <= i < position ==> Digit(input, i) < max)
  {
    if |input| == 0 {
      return None;
    }
    var max := Digit(input, 0);
    var position := 0;
    if |input| == 1 {
      return Some((max, position));
    }
    var initialPosition := position + 1;
    for i := 0 to |input| - initialPosition
      invariant position < initialPosition + i && Digit(input, position) == max
      invariant forall k :: 0 <= k < initialPosition + i ==> Digit(input, k) <= max
      invariant forall k :: 0 <= k < position ==> Digit(input, k) < max
    {
      var num := Digit(input, initialPosition + i);
      if num > max {
        max := num;
        position := initialPosition + i;
      }
    }
    return Some((max, position));
  }

  /** The unit tests of `find_maximum_digit_and_position`. */
  method FindMaximumExamples() returns (r1: Option<(nat, nat)>, r2: Option<(nat, nat)>, r3: Option<(nat, nat)>, r4: Option<(nat, nat)>)
    ensures r1 == Some((1, 0)) && r2 == Some((2, 1)) && r3 == Some((3, 1)) && r4 == Some((4, 3))
  {
    r1 := FindMaximumDigitAndPosition("1");
    assert r1.Some? && r1.value.1 < 1;
    assert Digit("1", 0) == 1;
    r2 := FindMaximumDigitAndPosition("12");
    assert r2.Some? && Digit("12", 0) == 1 && Digit("12", 1) == 2;
    assert r2.value.0 == 2;
    r3 := FindMaximumDigitAndPosition("132");
    assert r3.Some? && Digit("132", 0) == 1 && Digit("132", 1) == 3 && Digit("132", 2) == 2;
    assert r3.value.0 == 3;
    r4 := FindMaximumDigitAndPosition("1324");
    assert r4.Some? && Digit("1324", 0) == 1 && Digit("1324", 1) == 3 && Digit("1324", 2) == 2;
    assert Digit("1324", 3) == 4;
    assert r4.value.0 == 4;
  }

  // ---------------------------------------------------------------------------
  // The reference joltage
  // ---------------------------------------------------------------------------

  /** The largest digit of a non-empty string. */
  function MaxDigit(s: string): nat
    requires IsDigits(s) && |s| >= 1
    decreases |s|
  {
    if |s| == 1 then Digit(s, 0)
    else
      var rest := MaxDigit(s[1..]);
      if Digit(s, 0) >= rest then Digit(s, 0) else rest
  }

  /** The largest two-digit number formed by two digits of `s` in order. */
  function BestPair(s: string): nat
    requires IsDigits(s) && |s| >= 2
    decreases |s|
  {
    var first := 10 * Digit(s, 0) + MaxDigit(s[1..]);
    if |s| == 2 then first
    else
      var rest := BestPair(s[1..]);
      if first >= rest then first else rest
  }

  /** `MaxDigit` is attained and bounds every digit. */
  lemma {:induction false} MaxDigitIsMax(s: string)
    requires IsDigits(s) && |s| >= 1
    ensures exists i :: 0 <= i < |s| && Digit(s, i) == MaxDigit(s)
    ensures forall i :: 0 <= i < |s| ==> Digit(s, i) <= MaxDigit(s)
    decreases |s|
  {
    if |s| > 1 {
      MaxDigitIsMax(s[1..]);
      var k :| 0 <= k < |s[1..]| && Digit(s[1..], k) == MaxDigit(s[1..]);
      assert Digit(s, k + 1) == Digit(s[1..], k);
      forall i | 1 <= i < |s| ensures Digit(s, i) <= MaxDigit(s) {
        assert Digit(s, i) == Digit(s[1..], i - 1);
      }
    } else {
      assert Digit(s, 0) == MaxDigit(s);
    }
  }

  /** The pairs opened by the first digit are bounded by the first digit before the largest later digit, which is one of them. */
  lemma FirstDigitPairs(s: string)
    requires IsDigits(s) && |s| >= 2
    ensures exists j :: 0 < j < |s| && Pair(s, 0, j) == 10 * Digit(s, 0) + MaxDigit(s[1..])
    ensures forall j :: 0 < j < |s| ==> Pair(s, 0, j) <= 10 * Digit(s, 0) + MaxDigit(s[1..])
  {
    var t := s[1..];
    MaxDigitIsMax(t);
    var k :| 0 <= k < |t| && Digit(t, k) == MaxDigit(t);
    assert Digit(s, k + 1) == Digit(t, k);
    assert Pair(s, 0, k + 1) == 10 * Digit(s, 0) + MaxDigit(t);
    forall j | 0 < j < |s| ensures Pair(s, 0, j) <= 10 * Digit(s, 0) + MaxDigit(t) {
      assert Digit(s, j) == Digit(t, j - 1);
    }
  }

  /** `BestPair` is attained by some ordered pair and bounds every ordered pair. */
  lemma {:induction false} BestPairIsMax(s: string)
    requires IsDigits(s) && |s| >= 2
    ensures exists i, j :: 0 <= i < j < |s| && Pair(s, i, j) == BestPair(s)
    ensures forall i, j :: 0 <= i < j < |s| ==> Pair(s, i, j) <= BestPair(s)
    decreases |s|
  {
    var t := s[1..];
    FirstDigitPairs(s);
    var j0 :| 0 < j0 < |s| && Pair(s, 0, j0) == 10 * Digit(s, 0) + MaxDigit(t);
    if |s| > 2 {
      BestPairIsMax(t);
      var i', j' :| 0 <= i' < j' < |t| && Pair(t, i', j') == BestPair(t);
      assert Pair(s, i' + 1, j' + 1) == Pair(t, i', j');
      forall i, j | 1 <= i < j < |s| ensures Pair(s, i, j) <= BestPair(s) {
        assert Pair(s, i, j) == Pair(t, i - 1, j - 1);
      }
    }
  }

  /** Two values that are each the largest of the same pairs are equal. */
  lemma BestPairUnique(s: string, r: nat)
    requires IsDigits(s) && |s| >= 2
    requires exists i, j :: 0 <= i < j < |s| && Pair(s, i, j) == r
    requires forall i, j :: 0 <= i < j < |s| ==> Pair(s, i, j) <= r
    ensures r == BestPair(s)
  {
    BestPairIsMax(s);
    var i, j :| 0 <= i < j < |s| && Pair(s, i, j) == BestPair(s);
    var i', j' :| 0 <= i' < j' < |s| && Pair(s, i', j') == r;
  }

  // ---------------------------------------------------------------------------
  // turn_two_max_digits_into_integer
  // ---------------------------------------------------------------------------

  /**
    `turn_two_max_digits_into_integer`: the first occurrence of the largest digit
    followed by the largest digit after it; when the largest digit comes last, the
    largest digit before it followed by that last digit. This is the largest
    two-digit number formed by two digits in order.
  */
  method TurnTwoMaxDigitsIntoInteger(input: string) returns (result: nat)
    requires IsDigits(input) && |input| >= 2
    ensures exists i, j :: 0 <= i < j < |input| && result == Pair(input, i, j)
    ensures forall i, j :: 0 <= i < j < |input| ==> Pair(input, i, j) <= result
    ensures result == BestPair(input)
  {
    var first := FindMaximumDigitAndPosition(input);
    var (max1, position) := first.value;
    var tail := input[position + 1..];
    assert forall k :: 0 <= k < |tail| ==> Digit(tail, k) == Digit(input, position + 1 + k);
    var found := FindMaximumDigitAndPosition(tail);
    if found.None? {
      var head := input[0..position];
      assert forall k :: 0 <= k < |head| ==> Digit(head, k) == Digit(input, k);
      var second := FindMaximumDigitAndPosition(head);
      var (max2, position2) := second.value;
      result := max2 * 10 + max1;
      assert result == Pair(input, position2, position);
    } else {
      var (max2, position2) := found.value;
      result := max1 * 10 + max2;
      assert result == Pair(input, position, position + 1 + position2);
      forall i, j | 0 <= i < j < |input| ensures Pair(input, i, j) <= result {
        if Digit(input, i) == max1 {
          assert Digit(input, j) == Digit(tail, j - position - 1);
        }
      }
    }
    BestPairUnique(input, result);
  }

  /** The short unit tests of `turn_two_max_digits_into_integer`, whose result is `BestPair`. */
  lemma BestPairShortExamples()
    ensures BestPair("18") == 18 && BestPair("832") == 83
    ensures BestPair("11") == 11 && BestPair("12") == 12 && BestPair("21") == 21
  {
  }

  /**
    When `i` is the first occurrence of the largest digit and `j` holds the largest
    digit after it, the best pair is the pair at `i` and `j`.
  */
  lemma BestPairOfMaxima(s: string, i: nat, j: nat)
    requires IsDigits(s) && i < j < |s|
    requires forall k :: 0 <= k < |s| ==> Digit(s, k) <= Digit(s, i)
    requires forall k :: 0 <= k < i ==> Digit(s, k) < Digit(s, i)
    requires forall k :: i < k < |s| ==> Digit(s, k) <= Digit(s, j)
    ensures BestPair(s) == Pair(s, i, j)
  {
    forall a, b | 0 <= a < b < |s| ensures Pair(s, a, b) <= Pair(s, i, j) {
      if Digit(s, a) < Digit(s, i) {
        assert Digit(s, b) <= 9;
      } else {
        assert i <= a;
      }
    }
    BestPairUnique(s, Pair(s, i, j));
  }

  /**
    When the largest digit occurs only last and `i` holds the largest digit before
    it, the best pair is the digit at `i` followed by the last digit.
  */
  lemma BestPairOfLastMaximum(s: string, i: nat)
    requires IsDigits(s) && i < |s| - 1
    requires forall k :: 0 <= k < |s| - 1 ==> Digit(s, k) <= Digit(s, i) && Digit(s, k) < Digit(s, |s| - 1)
    ensures BestPair(s) == Pair(s, i, |s| - 1)
  {
    BestPairUnique(s, Pair(s, i, |s| - 1));
  }

  /** Unit test: a bank that alternates two digits pairs its larger digit with itself. */
  lemma BestPairAlternating()
    ensures BestPair("2121212121") == 22
  {
    var s := "2121212121";
    assert forall k :: 0 <= k < |s| ==> Digit(s, k) <= 2;
    BestPairOfMaxima(s, 0, 2);
  }

  /** Unit test: the largest digit comes last, so the best first digit is the largest before it. */
  lemma BestPairLastIsLargest()
    ensures BestPair("811111111111119") == 89
  {
    var s := "811111111111119";
    assert forall k :: 0 <= k < 14 ==> Digit(s, k) <= 8;
    BestPairOfLastMaximum(s, 0);
  }

  /** Unit test: the largest digit sits inside, and the best second digit is the largest after it. */
  lemma BestPairLargestInside()
    ensures BestPair("818181911112111") == 92
  {
    var s := "818181911112111";
    assert forall k :: 0 <= k < 6 ==> Digit(s, k) <= 8;
    assert forall k :: 6 < k < |s| ==> Digit(s, k) <= 2;
    BestPairOfMaxima(s, 6, 11);
  }

  /** Unit test: a descending bank opens with its two largest digits. */
  lemma BestPairDescending()
    ensures BestPair("987654321111111") == 98
  {
    var s := "987654321111111";
    assert forall k :: 1 <= k < |s| ==> Digit(s, k) <= 8;
    BestPairOfMaxima(s, 0, 1);
  }

  /** Unit test: a bank whose two largest digits close it. */
  lemma BestPairAtEnd()
    ensures BestPair("234234234234278") == 78
  {
    var s := "234234234234278";
    assert forall k :: 0 <= k < 14 ==> Digit(s, k) <= 7;
    BestPairOfLastMaximum(s, 13);
  }

  // ---------------------------------------------------------------------------
  // The summing loop of `main`, over the lines of the input.
  // ---------------------------------------------------------------------------

  /** A line `main` accepts: blank (skipped), or a bank of at least two digits. */
  predicate IsBankLine(line: string) {
    line == [] || (IsDigits(line) && |line| >= 2)
  }

  /** The total joltage of the banks among the lines, blank lines adding nothing. */
  function TotalJoltage(lines: seq<string>): nat
    requires forall i :: 0 <= i < |lines| ==> IsBankLine(lines[i])
  {
    if lines == [] then 0
    else
      assert IsBankLine(lines[0]);
      (if lines[0] == [] then 0 else BestPair(lines[0])) + TotalJoltage(lines[1..])
  }

  /** The loop of `main`: skips blank lines and adds up the joltage of every bank. */
  method SumJoltages(lines: seq<string>) returns (sum: nat)
    requires forall i :: 0 <= i < |lines| ==> IsBankLine(lines[i])
    ensures sum == TotalJoltage(lines)
  {
    sum := 0;
    for i := 0 to |lines|
      invariant sum + TotalJoltage(lines[i..]) == TotalJoltage(lines)
    {
      assert lines[i..][1..] == lines[i + 1..];
      if lines[i] == [] {
        continue;
      }
      var joltage := TurnTwoMaxDigitsIntoInteger(lines[i]);
      sum := sum + joltage;
    }
  }
}
