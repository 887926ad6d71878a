/** Rust's `RangeInclusive<u64>`, the `start..=end` ranges of day02 and day05. */
module Interval {
  /** The closed range `start..=end`; it holds no value when `start > end`. */
  datatype RangeInclusive = RangeInclusive(start: nat, end: nat)

  predicate Contains(r: RangeInclusive, v: int) {
    r.start <= v <= r.end
  }

  predicate IsNonEmpty(r: RangeInclusive) {
    r.start <= r.end
  }
}
