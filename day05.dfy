/**
  Day 5: fresh-ingredient ranges. Lines `"a-b"` become closed `u64` ranges, the
  ranges are sorted by (start, end), overlapping or touching neighbours are merged
  into a gap-separated list, and each ingredient id is looked up in that list by
  binary search.
*/
module Day05 {
  import opened Wrappers
  import opened Text
  import opened Interval

  type IngredientsRange = RangeInclusive

  datatype Ordering = Less | Equal | Greater

  // ---------------------------------------------------------------------------
  // compare_ranges
  // ---------------------------------------------------------------------------

  /** `compare_ranges`: lexicographic order on (start, end). */
  function CompareRanges(lhs: IngredientsRange, rhs: IngredientsRange): (o: Ordering)
    ensures o == Equal <==> lhs == rhs
    ensures o == Less <==> lhs.start < rhs.start || (lhs.start == rhs.start && lhs.end < rhs.end)
    ensures o == Greater <==> rhs.start < lhs.start || (lhs.start == rhs.start && rhs.end < lhs.end)
  {
    if lhs.start < rhs.start then Less
    else if lhs.start == rhs.start then
      if lhs.end < rhs.end then Less
      else if lhs.end == rhs.end then Equal
      else Greater
    else Greater
  }

  /** `CompareRanges` is a strict total order: transitive, and exactly one of the three outcomes holds. */
  lemma CompareRangesIsTotalOrder(a: IngredientsRange, b: IngredientsRange, c: IngredientsRange)
    ensures CompareRanges(a, b) == Less && CompareRanges(b, c) == Less ==> CompareRanges(a, c) == Less
    ensures CompareRanges(a, b) != Equal ==> (CompareRanges(a, b) == Less <==> CompareRanges(b, a) != Less)
  {
  }

  /** A sequence as `sort_by(compare_ranges)` leaves it. */
  predicate SortedByCompare(ranges: seq<IngredientsRange>) {
    forall i, j :: 0 <= i < j < |ranges| ==> CompareRanges(ranges[i], ranges[j]) != Greater
  }

  predicate AllNonEmpty(ranges: seq<IngredientsRange>) {
    forall i :: 0 <= i < |ranges| ==> IsNonEmpty(ranges[i])
  }

  /** Some range of `ranges` holds `v`. */
  predicate Covers(ranges: seq<IngredientsRange>, v: int) {
    exists i :: 0 <= i < |ranges| && Contains(ranges[i], v)
  }

  /**
    The shape `remove_overlapping_ranges` produces: non-empty ranges in increasing
    order with at least one value missing between any two of them.
  */
  predicate Normalized(ranges: seq<IngredientsRange>) {
    && AllNonEmpty(ranges)
    && forall i, j :: 0 <= i < j < |ranges| ==> ranges[i].end + 1 < ranges[j].start
  }

  // ---------------------------------------------------------------------------
  // turn_into_range
  // ---------------------------------------------------------------------------

  /**
    `turn_into_range`: a line of at least 3 characters, trimmed, split at its first
    `-`, each side trimmed and parsed as a `u64`. A reversed line such as `"5-3"`
    gives a range that holds no value; nothing checks `start <= end`.
  */
  function TurnIntoRange(line: string): (r: Option<IngredientsRange>)
    ensures |line| < 3 ==> r.None?
    ensures '-' !in line ==> r.None?
    ensures r.Some? ==> r.value.start <= U64_MAX && r.value.end <= U64_MAX
    ensures r.Some? ==> var fields := SplitOnce(Trim(line), '-');
      fields.Some? && ParseU64(Trim(fields.value.0)) == Some(r.value.start)
      && ParseU64(Trim(fields.value.1)) == Some(r.value.end)
  {
    if line == [] || |line| < 3 then None
    else
      match SplitOnce(Trim(line), '-')
      case None => None
      case Some((start, end)) =>
        match ParseU64(Trim(start))
        case None => None
        case Some(s) =>
          match ParseU64(Trim(end))
          case None => None
          case Some(e) => Some(RangeInclusive(s, e))
  }

  /**
    A range written as `"<start>-<end>"`, with any whitespace around the line and
    around each field, parses back to that range.
  */
  lemma TurnIntoRangeOfFormatted(start: nat, end: nat, w1: string, w2: string, w3: string, w4: string)
    requires start <= U64_MAX && end <= U64_MAX
    requires AllWhitespace(w1) && AllWhitespace(w2) && AllWhitespace(w3) && AllWhitespace(w4)
    ensures TurnIntoRange(w1 + ToDecimal(start) + w2 + "-" + w3 + ToDecimal(end) + w4)
         == Some(RangeInclusive(start, end))
  {
    var a, b := ToDecimal(start), ToDecimal(end);
    var line := w1 + a + w2 + "-" + w3 + b + w4;
    FormattedFields(a, b, w1, w2, w3, w4);
    ParseU64ToDecimal(start);
    ParseU64ToDecimal(end);
  }

  /** How `turn_into_range` takes a formatted line apart: the trimmed line splits into the two trimmed fields. */
  lemma FormattedFields(a: string, b: string, w1: string, w2: string, w3: string, w4: string)
    requires IsCanonicalDecimal(a) && IsCanonicalDecimal(b)
    requires AllWhitespace(w1) && AllWhitespace(w2) && AllWhitespace(w3) && AllWhitespace(w4)
    ensures |w1 + a + w2 + "-" + w3 + b + w4| >= 3
    ensures SplitOnce(Trim(w1 + a + w2 + "-" + w3 + b + w4), '-') == Some((a + w2, w3 + b))
    ensures Trim(a + w2) == a && Trim(w3 + b) == b
  {
    var left, right := a + w2, w3 + b;
    TrimFormatted(a, b, w1, w2, w3, w4);
    NoDashInField(a, w2);
    SplitOnceUnique(left, '-', right);
    TrimField(a, w2, b, w3);
  }

  lemma TrimField(a: string, w2: string, b: string, w3: string)
    requires IsCanonicalDecimal(a) && IsCanonicalDecimal(b)
    requires AllWhitespace(w2) && AllWhitespace(w3)
    ensures Trim(a + w2) == a && Trim(w3 + b) == b
  {
    TrimTrailing(a, w2);
    TrimLeading(w3, b);
  }

  lemma TrimTrailing(a: string, w: string)
    requires IsCanonicalDecimal(a) && AllWhitespace(w)
    ensures Trim(a + w) == a
  {
    assert IsDigit(a[0]) && IsDigit(a[|a| - 1]);
    TrimPadded([], a, w);
    assert [] + a + w == a + w;
  }

  lemma TrimLeading(w: string, b: string)
    requires IsCanonicalDecimal(b) && AllWhitespace(w)
    ensures Trim(w + b) == b
  {
    assert IsDigit(b[0]) && IsDigit(b[|b| - 1]);
    TrimPadded(w, b, []);
    assert w + b + [] == w + b;
  }

  lemma TrimFormatted(a: string, b: string, w1: string, w2: string, w3: string, w4: string)
    requires IsCanonicalDecimal(a) && IsCanonicalDecimal(b)
    requires AllWhitespace(w1) && AllWhitespace(w4)
    ensures Trim(w1 + a + w2 + "-" + w3 + b + w4) == (a + w2) + ['-'] + (w3 + b)
  {
    var core := (a + w2) + ['-'] + (w3 + b);
    assert w1 + a + w2 + "-" + w3 + b + w4 == w1 + core + w4;
    assert core[0] == a[0] && core[|core| - 1] == b[|b| - 1];
    assert IsDigit(a[0]) && IsDigit(b[|b| - 1]);
    TrimPadded(w1, core, w4);
  }

  lemma NoDashInField(a: string, w: string)
    requires IsDigits(a) && AllWhitespace(w)
    ensures '-' !in a + w
  {
    forall i | 0 <= i < |a + w| ensures (a + w)[i] != '-' {
      if i < |a| { assert IsDigit(a[i]); } else { assert IsWhitespace(w[i - |a|]); }
    }
  }

  /** The well-formed lines pinned by the unit tests of `turn_into_range`. */
  lemma TurnIntoRangeExamples()
    ensures TurnIntoRange("3-5") == Some(RangeInclusive(3, 5))
    ensures TurnIntoRange("12-18") == Some(RangeInclusive(12, 18))
  {
    ExampleLinesAreFormatted();
    TurnIntoRangeOfFormatted(3, 5, [], [], [], []);
    TurnIntoRangeOfFormatted(12, 18, [], [], [], []);
  }

  lemma ExampleLinesAreFormatted()
    ensures [] + ToDecimal(3) + [] + "-" + [] + ToDecimal(5) + [] == "3-5"
    ensures [] + ToDecimal(12) + [] + "-" + [] + ToDecimal(18) + [] == "12-18"
  {
    assert ToDecimal(3) == "3" && ToDecimal(5) == "5";
    assert ToDecimal(12) == "12" && ToDecimal(18) == "18";
  }

  /** The malformed lines pinned by the unit tests of `turn_into_range`. */
  lemma TurnIntoRangeRejects()
    ensures TurnIntoRange("") == None
    ensures TurnIntoRange(" ") == None
    ensures TurnIntoRange("1-") == None
  {
  }

  /**
    A line with nothing to trim around it and around its first `-` is read field by
    field: a range exactly when both fields parse as `u64`, `None` otherwise.
  */
  lemma TurnIntoRangeOfFields(l: string, r: string)
    requires l != [] && r != [] && '-' !in l
    requires !IsWhitespace(l[0]) && !IsWhitespace(l[|l| - 1])
    requires !IsWhitespace(r[0]) && !IsWhitespace(r[|r| - 1])
    ensures TurnIntoRange(l + "-" + r)
         == if ParseU64(l).Some? && ParseU64(r).Some?
            then Some(RangeInclusive(ParseU64(l).value, ParseU64(r).value))
            else None
  {
    UnpaddedFields(l, r);
  }

  /** How `turn_into_range` takes such a line apart: nothing is trimmed, and the split is at the given `-`. */
  lemma UnpaddedFields(l: string, r: string)
    requires l != [] && r != [] && '-' !in l
    requires !IsWhitespace(l[0]) && !IsWhitespace(l[|l| - 1])
    requires !IsWhitespace(r[0]) && !IsWhitespace(r[|r| - 1])
    ensures |l + "-" + r| >= 3
    ensures SplitOnce(Trim(l + "-" + r), '-') == Some((l, r))
    ensures Trim(l) == l && Trim(r) == r
  {
    UntrimmedText(l + "-" + r);
    SplitOnceUnique(l, '-', r);
    UntrimmedText(l);
    UntrimmedText(r);
  }

  lemma UntrimmedText(s: string)
    requires s != [] && !IsWhitespace(s[0]) && !IsWhitespace(s[|s| - 1])
    ensures Trim(s) == s
  {
    TrimPadded([], s, []);
    assert [] + s + [] == s;
  }

  /** A line of two unpadded fields around a `-` whose fields do not both parse gives `None`. */
  lemma TurnIntoRangeOfBadField(line: string, l: string, r: string)
    requires line == l + "-" + r
    requires l != [] && r != [] && '-' !in l
    requires !IsWhitespace(l[0]) && !IsWhitespace(l[|l| - 1])
    requires !IsWhitespace(r[0]) && !IsWhitespace(r[|r| - 1])
    requires ParseU64(l).None? || ParseU64(r).None?
    ensures TurnIntoRange(line) == None
  {
    TurnIntoRangeOfFields(l, r);
  }

  /** The reject examples below, piece by piece, with the field that does not parse. */
  lemma RejectedLinesSpelled()
    ensures "1-x" == "1" + "-" + "x" && ParseU64("x").None?
    ensures "a-5" == "a" + "-" + "5" && ParseU64("a").None?
    ensures "1--2" == "1" + "-" + "-2" && ParseU64("-2").None?
  {
  }

  /** A line long enough to pass the length guard whose end field is not a number. */
  lemma TurnIntoRangeRejectsLetterEnd()
    ensures TurnIntoRange("1-x") == None
  {
    RejectedLinesSpelled();
    TurnIntoRangeOfBadField("1-x", "1", "x");
  }

  /** A line long enough to pass the length guard whose start field is not a number. */
  lemma TurnIntoRangeRejectsLetterStart()
    ensures TurnIntoRange("a-5") == None
  {
    RejectedLinesSpelled();
    TurnIntoRangeOfBadField("a-5", "a", "5");
  }

  /** A negative end: the split is at the first `-`, and `-2` is not a `u64`. */
  lemma TurnIntoRangeRejectsNegativeEnd()
    ensures TurnIntoRange("1--2") == None
  {
    RejectedLinesSpelled();
    TurnIntoRangeOfBadField("1--2", "1", "-2");
  }

  // ---------------------------------------------------------------------------
  // merge_overlapping_ranges
  // ---------------------------------------------------------------------------

  function Min(a: nat, b: nat): nat { if a <= b then a else b }

  function Max(a: nat, b: nat): nat { if a <= b then b else a }

  /**
    `merge_overlapping_ranges`: an error when one range ends more than one below
    the other's start; otherwise one range from the smaller start to the larger end.
    The `start - 1` of the source is written `end + 1 < start` here (see
    `MergeOverlappingRangesAsWritten` for what the `u64` subtraction does at 0).
  */
  function MergeOverlappingRanges(range1: IngredientsRange, range2: IngredientsRange)
    : (r: Result<IngredientsRange, string>)
    ensures r.Err? <==> range1.end + 1 < range2.start || range2.end + 1 < range1.start
    ensures r.Ok? && IsNonEmpty(range1) && IsNonEmpty(range2) ==>
      r.value == RangeInclusive(Min(range1.start, range2.start), Max(range1.end, range2.end))
    ensures r.Ok? && IsNonEmpty(range1) && IsNonEmpty(range2) ==>
      forall v :: Contains(r.value, v) <==> Contains(range1, v) || Contains(range2, v)
  {
    if range1.end + 1 < range2.start || range2.end + 1 < range1.start then
      Err("Non overlapping ranges")
    else if range1.end + 1 == range2.start then
      Ok(RangeInclusive(range1.start, range2.end))
    else if range2.end + 1 == range1.start then
      Ok(RangeInclusive(range2.start, range1.end))
    else
      Ok(RangeInclusive(Min(range1.start, range2.start), Max(range1.end, range2.end)))
  }

  /** Merging fails exactly when some value between the two ranges lies in neither. */
  lemma MergeFailsExactlyOnGap(range1: IngredientsRange, range2: IngredientsRange)
    requires IsNonEmpty(range1) && IsNonEmpty(range2)
    ensures MergeOverlappingRanges(range1, range2).Err? <==>
      exists v :: Min(range1.start, range2.start) < v < Max(range1.end, range2.end)
               && !Contains(range1, v) && !Contains(range2, v)
  {
    if range1.end + 1 < range2.start {
      var v := range1.end + 1;
      assert !Contains(range1, v) && !Contains(range2, v);
    } else if range2.end + 1 < range1.start {
      var v := range2.end + 1;
      assert !Contains(range1, v) && !Contains(range2, v);
    }
  }

  /** The merge does not depend on the order of its arguments. */
  lemma MergeIsSymmetric(range1: IngredientsRange, range2: IngredientsRange)
    requires IsNonEmpty(range1) && IsNonEmpty(range2)
    ensures MergeOverlappingRanges(range1, range2) == MergeOverlappingRanges(range2, range1)
  {
  }

  /** The cases pinned by the unit tests of `merge_overlapping_ranges`. */
  lemma MergeExamples()
    ensures MergeOverlappingRanges(RangeInclusive(1, 5), RangeInclusive(2, 6)) == Ok(RangeInclusive(1, 6))
    ensures MergeOverlappingRanges(RangeInclusive(1, 5), RangeInclusive(6, 8)) == Ok(RangeInclusive(1, 8))
    ensures MergeOverlappingRanges(RangeInclusive(6, 8), RangeInclusive(1, 5)) == Ok(RangeInclusive(1, 8))
    ensures MergeOverlappingRanges(RangeInclusive(2, 6), RangeInclusive(1, 5)) == Ok(RangeInclusive(1, 6))
    ensures MergeOverlappingRanges(RangeInclusive(1, 5), RangeInclusive(5, 8)) == Ok(RangeInclusive(1, 8))
    ensures MergeOverlappingRanges(RangeInclusive(1, 5), RangeInclusive(7, 8)).Err?
  {
  }

  /**
    `x - 1` on `u64` in a debug build (the profile `cargo run` and `cargo test`
    use): `None` stands for the overflow panic at 0.
  */
  function CheckedPredecessor(x: nat): Option<nat> {
    if x == 0 then None else Some(x - 1)
  }

  /**
    `merge_overlapping_ranges` with its `u64` subtractions as written, `None`
    being the panic. `||` short-circuits, so `range1.start() - 1` is only reached
    when the first comparison is false.
  */
  function MergeOverlappingRangesAsWritten(range1: IngredientsRange, range2: IngredientsRange)
    : (r: Option<Result<IngredientsRange, string>>)
    ensures range1.start >= 1 && range2.start >= 1 ==> r == Some(MergeOverlappingRanges(range1, range2))
  {
    match CheckedPredecessor(range2.start)
    case None => None
    case Some(beforeStart2) =>
      if range1.end < beforeStart2 then Some(Err("Non overlapping ranges"))
      else
        match CheckedPredecessor(range1.start)
        case None => None
        case Some(beforeStart1) =>
          if range2.end < beforeStart1 then Some(Err("Non overlapping ranges"))
          else if range1.end == beforeStart2 then Some(Ok(RangeInclusive(range1.start, range2.end)))
          else if range2.end == beforeStart1 then Some(Ok(RangeInclusive(range2.start, range1.end)))
          else Some(Ok(RangeInclusive(Min(range1.start, range2.start), Max(range1.end, range2.end))))
  }

  /**
    Two overlapping ranges that start at 0, sorted as `main` sorts them: the code
    as written panics, where the merge above gives `0..=5`.
  */
  lemma MergeAsWrittenPanicsAtZero()
    ensures Contains(RangeInclusive(0, 3), 0) && Contains(RangeInclusive(0, 5), 0)
    ensures MergeOverlappingRangesAsWritten(RangeInclusive(0, 3), RangeInclusive(0, 5)).None?
    ensures MergeOverlappingRanges(RangeInclusive(0, 3), RangeInclusive(0, 5)) == Ok(RangeInclusive(0, 5))
  {
  }

  // ---------------------------------------------------------------------------
  // remove_overlapping_ranges
  // ---------------------------------------------------------------------------

  /** One turn of the loop of `remove_overlapping_ranges`: fold `range` into the ranges kept so far. */
  function Absorb(kept: seq<IngredientsRange>, range: IngredientsRange): (r: seq<IngredientsRange>)
    ensures |kept| <= |r| <= |kept| + 1 && r != []
  {
    if kept == [] then [range]
    else
      match MergeOverlappingRanges(kept[|kept| - 1], range)
      case Ok(merged) => kept[..|kept| - 1] + [merged]
      case Err(_) => kept + [range]
  }

  /** What `remove_overlapping_ranges` returns: every range folded in, in input order. */
  function Consolidate(ranges: seq<IngredientsRange>): (r: seq<IngredientsRange>)
    ensures |r| <= |ranges|
    ensures ranges != [] ==> r != []
  {
    if ranges == [] then [] else Absorb(Consolidate(ranges[..|ranges| - 1]), ranges[|ranges| - 1])
  }

  lemma CoversAppend(ranges: seq<IngredientsRange>, range: IngredientsRange, v: int)
    ensures Covers(ranges + [range], v) <==> Covers(ranges, v) || Contains(range, v)
  {
    var all := ranges + [range];
    if Covers(ranges, v) {
      var i :| 0 <= i < |ranges| && Contains(ranges[i], v);
      assert all[i] == ranges[i];
    }
    if Contains(range, v) {
      assert all[|ranges|] == range;
    }
    if Covers(all, v) {
      var i :| 0 <= i < |all| && Contains(all[i], v);
      if i < |ranges| { assert all[i] == ranges[i]; }
    }
  }

  /** Folding one sorted, non-empty range into a normalized list keeps it normalized and adds exactly that range's values. */
  lemma AbsorbSorted(kept: seq<IngredientsRange>, range: IngredientsRange)
    requires Normalized(kept) && IsNonEmpty(range)
    requires kept != [] ==> kept[|kept| - 1].start <= range.start
    ensures Normalized(Absorb(kept, range))
    ensures Absorb(kept, range)[|Absorb(kept, range)| - 1].start <= range.start
    ensures forall v :: Covers(Absorb(kept, range), v) <==> Covers(kept, v) || Contains(range, v)
  {
    var r := Absorb(kept, range);
    if kept == [] {
      forall v ensures Covers(r, v) <==> Contains(range, v) {
        if Contains(range, v) { assert Contains(r[0], v); }
      }
    } else {
      var init, last := kept[..|kept| - 1], kept[|kept| - 1];
      assert kept == init + [last];
      forall v ensures Covers(kept, v) <==> Covers(init, v) || Contains(last, v) {
        CoversAppend(init, last, v);
      }
      match MergeOverlappingRanges(last, range)
      case Ok(merged) =>
        assert r == init + [merged];
        assert merged.start == last.start;
        forall v ensures Covers(r, v) <==> Covers(init, v) || Contains(merged, v) {
          CoversAppend(init, merged, v);
        }
      case Err(_) =>
        assert last.end + 1 < range.start;
        assert r == kept + [range];
        forall v ensures Covers(r, v) <==> Covers(kept, v) || Contains(range, v) {
          CoversAppend(kept, range, v);
        }
    }
  }

  /**
    On input sorted by `compare_ranges` with non-empty ranges, the fold yields a
    normalized list holding exactly the values of the input.
  */
  lemma {:induction false} ConsolidateSorted(ranges: seq<IngredientsRange>)
    requires SortedByCompare(ranges) && AllNonEmpty(ranges)
    ensures Normalized(Consolidate(ranges))
    ensures forall v :: Covers(Consolidate(ranges), v) <==> Covers(ranges, v)
    ensures ranges != [] ==> Consolidate(ranges)[|Consolidate(ranges)| - 1].start <= ranges[|ranges| - 1].start
  {
    if ranges != [] {
      var init, range := ranges[..|ranges| - 1], ranges[|ranges| - 1];
      SortedInit(ranges);
      ConsolidateSorted(init);
      var kept := Consolidate(init);
      assert Consolidate(ranges) == Absorb(kept, range);
      AbsorbSorted(kept, range);
      CoversInitLast(ranges);
    }
  }

  /** Dropping the last range of a sorted list of non-empty ranges leaves one, and the last range starts no earlier. */
  lemma SortedInit(ranges: seq<IngredientsRange>)
    requires SortedByCompare(ranges) && AllNonEmpty(ranges) && ranges != []
    ensures var init := ranges[..|ranges| - 1];
      SortedByCompare(init) && AllNonEmpty(init) && IsNonEmpty(ranges[|ranges| - 1])
      && (init != [] ==> init[|init| - 1].start <= ranges[|ranges| - 1].start)
  {
    var init := ranges[..|ranges| - 1];
    if init != [] {
      assert CompareRanges(init[|init| - 1], ranges[|ranges| - 1]) != Greater;
    }
  }

  /** A value is covered by a non-empty list exactly when its front or its last range holds it. */
  lemma CoversInitLast(ranges: seq<IngredientsRange>)
    requires ranges != []
    ensures forall v :: Covers(ranges, v) <==> Covers(ranges[..|ranges| - 1], v) || Contains(ranges[|ranges| - 1], v)
  {
    var init, range := ranges[..|ranges| - 1], ranges[|ranges| - 1];
    assert ranges == init + [range];
    forall v ensures Covers(ranges, v) <==> Covers(init, v) || Contains(range, v) {
      CoversAppend(init, range, v);
    }
  }

  /** A normalized list is sorted by `compare_ranges`. */
  lemma NormalizedIsSorted(ranges: seq<IngredientsRange>)
    requires Normalized(ranges)
    ensures SortedByCompare(ranges) && AllNonEmpty(ranges)
  {
  }

  /** Two normalized lists that hold the same values are the same list. */
  lemma {:induction false} NormalizedUnique(a: seq<IngredientsRange>, b: seq<IngredientsRange>)
    requires Normalized(a) && Normalized(b)
    requires forall v :: Covers(a, v) <==> Covers(b, v)
    ensures a == b
    decreases |a|
  {
    if a == [] || b == [] {
      if a != [] { assert Covers(a, a[0].start) by { assert Contains(a[0], a[0].start); } assert false; }
      if b != [] { assert Covers(b, b[0].start) by { assert Contains(b[0], b[0].start); } assert false; }
    } else {
      FirstRangeEqual(a, b);
      var a', b' := a[1..], b[1..];
      forall v ensures Covers(a', v) <==> Covers(b', v) {
        if Covers(a', v) {
          assert Covers(b, v) by { TailCovered(a, a, v); }
          TailCovered(b, a, v);
        }
        if Covers(b', v) {
          assert Covers(a, v) by { TailCovered(b, b, v); }
          TailCovered(a, b, v);
        }
      }
      NormalizedUnique(a', b');
      assert a == [a[0]] + a' && b == [b[0]] + b';
    }
  }

  /** The first ranges of two normalized lists holding the same values agree. */
  lemma FirstRangeEqual(a: seq<IngredientsRange>, b: seq<IngredientsRange>)
    requires Normalized(a) && Normalized(b) && a != [] && b != []
    requires forall v :: Covers(a, v) <==> Covers(b, v)
    ensures a[0] == b[0]
  {
    var a0, b0 := a[0], b[0];
    // Each list starts at its smallest value.
    assert Covers(a, a0.start) by { assert Contains(a[0], a0.start); }
    var j :| 0 <= j < |b| && Contains(b[j], a0.start);
    assert b0.start <= a0.start;
    assert Covers(b, b0.start) by { assert Contains(b[0], b0.start); }
    var i :| 0 <= i < |a| && Contains(a[i], b0.start);
    assert a0.start <= b0.start;
    // Each first range ends just before a value neither list holds.
    NothingJustAfterFirst(a);
    assert !Contains(b[0], a0.end + 1);
    NothingJustAfterFirst(b);
    assert !Contains(a[0], b0.end + 1);
  }

  /** A normalized list does not hold the value just past its first range. */
  lemma NothingJustAfterFirst(a: seq<IngredientsRange>)
    requires Normalized(a) && a != []
    ensures !Covers(a, a[0].end + 1)
  {
    forall k | 0 <= k < |a| ensures !Contains(a[k], a[0].end + 1) {
      if k > 0 { assert a[0].end + 1 < a[k].start; }
    }
  }

  /**
    A value held past the first range of a normalized list `b` is held past the first
    range of `b` itself when `b` also holds it; the tail of `c` witnesses that `v` lies
    beyond the first range they share.
  */
  lemma TailCovered(b: seq<IngredientsRange>, c: seq<IngredientsRange>, v: int)
    requires Normalized(b) && Normalized(c) && b != [] && c != [] && b[0] == c[0]
    requires Covers(c[1..], v)
    ensures Covers(c, v)
    ensures Covers(b, v) ==> Covers(b[1..], v)
  {
    var k :| 0 <= k < |c[1..]| && Contains(c[1..][k], v);
    assert Contains(c[k + 1], v);
    assert v > c[0].end + 1;
    if Covers(b, v) {
      var m :| 0 <= m < |b| && Contains(b[m], v);
      assert m != 0;
      assert Contains(b[1..][m - 1], v);
    }
  }

  /** Running the fold again over its own normalized output changes nothing. */
  lemma ConsolidateIdempotent(ranges: seq<IngredientsRange>)
    requires Normalized(ranges)
    ensures Consolidate(ranges) == ranges
  {
    NormalizedIsSorted(ranges);
    ConsolidateSorted(ranges);
    NormalizedUnique(Consolidate(ranges), ranges);
  }

  lemma CoversSameElements(a: seq<IngredientsRange>, b: seq<IngredientsRange>, v: int)
    requires multiset(a) == multiset(b)
    ensures Covers(a, v) <==> Covers(b, v)
  {
    if Covers(a, v) {
      var i :| 0 <= i < |a| && Contains(a[i], v);
      assert a[i] in multiset(b);
      var j :| 0 <= j < |b| && b[j] == a[i];
    }
    if Covers(b, v) {
      var i :| 0 <= i < |b| && Contains(b[i], v);
      assert b[i] in multiset(a);
      var j :| 0 <= j < |a| && a[j] == b[i];
    }
  }

  lemma AllNonEmptyOfPermutation(s: seq<IngredientsRange>, raw: seq<IngredientsRange>)
    requires multiset(s) == multiset(raw) && AllNonEmpty(raw)
    ensures AllNonEmpty(s)
  {
    forall i | 0 <= i < |s| ensures IsNonEmpty(s[i]) {
      assert s[i] in multiset(raw);
      var j :| 0 <= j < |raw| && raw[j] == s[i];
    }
  }

  /**
    The pipeline of `main`: whatever order `sort_by(compare_ranges)` leaves the
    ranges in, folding the sorted list gives a normalized list holding exactly the
    values of the raw ranges, and the same list for every such sort of the same ranges.
  */
  lemma SortThenConsolidate(raw: seq<IngredientsRange>, sorted1: seq<IngredientsRange>, sorted2: seq<IngredientsRange>)
    requires AllNonEmpty(raw)
    requires multiset(sorted1) == multiset(raw) && SortedByCompare(sorted1)
    requires multiset(sorted2) == multiset(raw) && SortedByCompare(sorted2)
    ensures Normalized(Consolidate(sorted1))
    ensures forall v :: Covers(Consolidate(sorted1), v) <==> Covers(raw, v)
    ensures Consolidate(sorted1) == Consolidate(sorted2)
  {
    SortedConsolidateCovers(raw, sorted1);
    SortedConsolidateCovers(raw, sorted2);
    NormalizedUnique(Consolidate(sorted1), Consolidate(sorted2));
  }

  lemma SortedConsolidateCovers(raw: seq<IngredientsRange>, sorted: seq<IngredientsRange>)
    requires AllNonEmpty(raw)
    requires multiset(sorted) == multiset(raw) && SortedByCompare(sorted)
    ensures Normalized(Consolidate(sorted))
    ensures forall v :: Covers(Consolidate(sorted), v) <==> Covers(raw, v)
  {
    AllNonEmptyOfPermutation(sorted, raw);
    ConsolidateSorted(sorted);
    forall v ensures Covers(Consolidate(sorted), v) <==> Covers(raw, v) {
      CoversSameElements(sorted, raw, v);
    }
  }

  /** One more range of the input is one more turn of the fold. */
  lemma ConsolidateStep(ranges: seq<IngredientsRange>, i: nat)
    requires i < |ranges|
    ensures Consolidate(ranges[..i + 1]) == Absorb(Consolidate(ranges[..i]), ranges[i])
  {
    assert ranges[..i + 1][..i] == ranges[..i];
  }

  /**
    `remove_overlapping_ranges`: keeps a vector of ranges; each range after the
    first is merged into the last kept one (pop, then push the merge) or pushed.
  */
  method RemoveOverlappingRanges(ranges: seq<IngredientsRange>) returns (nonOverlapping: seq<IngredientsRange>)
    ensures nonOverlapping == Consolidate(ranges)
    ensures |nonOverlapping| <= |ranges|
    ensures SortedByCompare(ranges) && AllNonEmpty(ranges) ==>
      Normalized(nonOverlapping) && forall v :: Covers(nonOverlapping, v) <==> Covers(ranges, v)
  {
    nonOverlapping := [];
    for i := 0 to |ranges|
      invariant nonOverlapping == Consolidate(ranges[..i])
    {
      var range := ranges[i];
      ConsolidateStep(ranges, i);
      if i == 0 {
        nonOverlapping := nonOverlapping + [range];
        continue;
      }
      var mergeResult := MergeOverlappingRanges(nonOverlapping[|nonOverlapping| - 1], range);
      if mergeResult.Ok? {
        nonOverlapping := nonOverlapping[..|nonOverlapping| - 1];
        nonOverlapping := nonOverlapping + [mergeResult.value];
      } else {
        nonOverlapping := nonOverlapping + [range];
      }
    }
    assert ranges[..|ranges|] == ranges;
    if SortedByCompare(ranges) && AllNonEmpty(ranges) {
      ConsolidateSorted(ranges);
    }
  }

  /** The cases pinned by the unit tests of `remove_overlapping_ranges`. */
  lemma ConsolidateExamples()
    ensures Consolidate([]) == []
    ensures Consolidate([RangeInclusive(1, 5)]) == [RangeInclusive(1, 5)]
    ensures Consolidate([RangeInclusive(1, 5), RangeInclusive(2, 6), RangeInclusive(8, 20)])
         == [RangeInclusive(1, 6), RangeInclusive(8, 20)]
    ensures Consolidate([RangeInclusive(1, 5), RangeInclusive(5, 8), RangeInclusive(5, 9), RangeInclusive(8, 10)])
         == [RangeInclusive(1, 10)]
    ensures Consolidate([RangeInclusive(1, 5), RangeInclusive(5, 7), RangeInclusive(5, 8), RangeInclusive(9, 11)])
         == [RangeInclusive(1, 11)]
  {
    var s1 := [RangeInclusive(1, 5), RangeInclusive(2, 6), RangeInclusive(8, 20)];
    assert s1[..2] == [RangeInclusive(1, 5), RangeInclusive(2, 6)];
    assert s1[..2][..1] == [RangeInclusive(1, 5)];
    var s2 := [RangeInclusive(1, 5), RangeInclusive(5, 8), RangeInclusive(5, 9), RangeInclusive(8, 10)];
    assert s2[..3] == [RangeInclusive(1, 5), RangeInclusive(5, 8), RangeInclusive(5, 9)];
    assert s2[..3][..2] == [RangeInclusive(1, 5), RangeInclusive(5, 8)];
    assert s2[..3][..2][..1] == [RangeInclusive(1, 5)];
    var s3 := [RangeInclusive(1, 5), RangeInclusive(5, 7), RangeInclusive(5, 8), RangeInclusive(9, 11)];
    assert s3[..3] == [RangeInclusive(1, 5), RangeInclusive(5, 7), RangeInclusive(5, 8)];
    assert s3[..3][..2] == [RangeInclusive(1, 5), RangeInclusive(5, 7)];
    assert s3[..3][..2][..1] == [RangeInclusive(1, 5)];
  }

  /** Unit test of `remove_overlapping_ranges`: ranges with a gap between them come back unchanged. */
  lemma ConsolidateGapExample()
    ensures Consolidate([RangeInclusive(1, 5), RangeInclusive(8, 20)])
         == [RangeInclusive(1, 5), RangeInclusive(8, 20)]
  {
    var ranges := [RangeInclusive(1, 5), RangeInclusive(8, 20)];
    assert ranges[..1] == [RangeInclusive(1, 5)];
  }

  /**
    The unit test that sorts before removing overlaps: any sort of
    `[5..=7, 1..=5, 9..=11, 5..=8]` by `compare_ranges` folds into `[1..=11]`.
  */
  lemma SortAndRemoveExample(sorted: seq<IngredientsRange>)
    requires multiset(sorted) == multiset([RangeInclusive(5, 7), RangeInclusive(1, 5), RangeInclusive(9, 11), RangeInclusive(5, 8)])
    requires SortedByCompare(sorted)
    ensures Consolidate(sorted) == [RangeInclusive(1, 11)]
  {
    var a, b, c, d := RangeInclusive(5, 7), RangeInclusive(1, 5), RangeInclusive(9, 11), RangeInclusive(5, 8);
    SortExamplePermutation();
    SortedFour(b, a, d, c);
    SortThenConsolidate([a, b, c, d], sorted, [b, a, d, c]);
    ConsolidateExamples();
  }

  /** The order `[1..=5, 5..=7, 5..=8, 9..=11]` is a permutation of the unit test's ranges. */
  lemma SortExamplePermutation()
    ensures multiset([RangeInclusive(1, 5), RangeInclusive(5, 7), RangeInclusive(5, 8), RangeInclusive(9, 11)])
         == multiset([RangeInclusive(5, 7), RangeInclusive(1, 5), RangeInclusive(9, 11), RangeInclusive(5, 8)])
  {
  }

  /** Four ranges in order pairwise next to each other are sorted by `compare_ranges`. */
  lemma SortedFour(a: IngredientsRange, b: IngredientsRange, c: IngredientsRange, d: IngredientsRange)
    requires CompareRanges(a, b) != Greater && CompareRanges(b, c) != Greater && CompareRanges(c, d) != Greater
    ensures SortedByCompare([a, b, c, d])
  {
  }

  // ---------------------------------------------------------------------------
  // integer_position
  // ---------------------------------------------------------------------------

  /** What `integer_position` needs: non-empty ranges, sorted, not overlapping. */
  predicate SortedDisjoint(ranges: seq<IngredientsRange>) {
    && AllNonEmpty(ranges)
    && forall i, j :: 0 <= i < j < |ranges| ==> ranges[i].end < ranges[j].start
  }

  lemma NormalizedIsSortedDisjoint(ranges: seq<IngredientsRange>)
    requires Normalized(ranges)
    ensures SortedDisjoint(ranges)
  {
  }

  /**
    `integer_position`: binary search with the three-way test "below the start",
    "above the end", "inside". Returns the index of the range holding `integer`,
    which is the only one, or `None` when no range holds it.
  */
  method IntegerPosition(ranges: seq<IngredientsRange>, integer: nat) returns (position: Option<nat>)
    requires SortedDisjoint(ranges)
    ensures position.Some? ==> position.value < |ranges| && Contains(ranges[position.value], integer)
    ensures position.Some? ==> forall j :: 0 <= j < |ranges| && Contains(ranges[j], integer) ==> j == position.value
    ensures position.None? <==> !Covers(ranges, integer)
  {
    var low, high := 0, |ranges|;
    while low < high
      invariant 0 <= low <= high <= |ranges|
      invariant forall i :: 0 <= i < low ==> ranges[i].end < integer
      invariant forall i :: high <= i < |ranges| ==> integer < ranges[i].start
    {
      var mid := low + (high - low) / 2;
      if integer < ranges[mid].start {
        high := mid;
      } else if integer > ranges[mid].end {
        low := mid + 1;
      } else {
        return Some(mid);
      }
    }
    return None;
  }

  /**
    The lookups pinned by the first unit tests of `integer_position`, on `[1..=11]`,
    which sorting and folding their input gives (see `SortAndRemoveExample`).
  */
  method IntegerPositionMergedExamples() returns (p1: Option<nat>, p2: Option<nat>, p3: Option<nat>)
    ensures p1 == Some(0) && p2 == Some(0) && p3 == Some(0)
  {
    var merged := [RangeInclusive(1, 11)];
    p1 := IntegerPosition(merged, 1);
    assert Contains(merged[0], 1);
    p2 := IntegerPosition(merged, 11);
    assert Contains(merged[0], 11);
    p3 := IntegerPosition(merged, 2);
    assert Contains(merged[0], 2);
  }

  /** The lookups pinned by the unit tests of `integer_position` on no range and on `[1..=5]`. */
  method IntegerPositionShortExamples() returns (p1: Option<nat>, p2: Option<nat>)
    ensures p1 == None && p2 == Some(0)
  {
    p1 := IntegerPosition([], 1);
    var single := [RangeInclusive(1, 5)];
    p2 := IntegerPosition(single, 3);
    assert Contains(single[0], 3);
  }

  /** The lookups pinned by the unit tests of `integer_position` on `[1..=5, 8..=15]`, the fold of `[8..=15, 1..=5]` sorted. */
  method IntegerPositionExamples() returns (inside: Option<nat>, above: Option<nat>, below: Option<nat>,
                                            gap: Option<nat>, firstEnd: Option<nat>, secondStart: Option<nat>)
    ensures inside == Some(1) && above == None && below == None
    ensures gap == None && firstEnd == Some(0) && secondStart == Some(1)
  {
    var ranges := [RangeInclusive(1, 5), RangeInclusive(8, 15)];
    inside := IntegerPosition(ranges, 14);
    assert Contains(ranges[1], 14);
    above := IntegerPosition(ranges, 20);
    below := IntegerPosition(ranges, 0);
    gap := IntegerPosition(ranges, 6);
    assert !Contains(ranges[0], 6) && !Contains(ranges[1], 6);
    firstEnd := IntegerPosition(ranges, 5);
    assert Contains(ranges[0], 5);
    secondStart := IntegerPosition(ranges, 8);
    assert Contains(ranges[1], 8);
  }
}
