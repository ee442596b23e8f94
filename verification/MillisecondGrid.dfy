/** The exact integer arithmetic of the 1 ms grid (src/derive/MillisecondDeriver.cpp): bins
    are [origin + i ms, origin + (i + 1) ms) for every int64 time and origin. */
module MillisecondGrid {
  import opened Machine

  const MILLISECOND := 1_000_000

  datatype DeriveFault =
    | RangeInverted
    | EdgeOverflow
    | OutsideRange
    | CountOverflow
    | PositionOverflow
    | ArithmeticOverflow

  // ---------------------------------------------------------------------
  // C++ division, and floor division made from it
  // ---------------------------------------------------------------------

  /** `/` in C++ truncates toward zero. */
  function TruncatedQuotient(value: int, divisor: int): int
    requires divisor != 0
  {
    var magnitude := (if value < 0 then 0 - value else value) / (if divisor < 0 then 0 - divisor else divisor);
    if (value < 0) == (divisor < 0) then magnitude else 0 - magnitude
  }

  function TruncatedRemainder(value: int, divisor: int): int
    requires divisor > 0
  {
    value - TruncatedQuotient(value, divisor) * divisor
  }

  datatype Parts = Parts(quotient: int64, remainder: int64)

  function FloorParts(value: int64): Parts {
    DivisionFits(value);
    var quotient := TruncatedQuotient(value, MILLISECOND);
    var remainder := TruncatedRemainder(value, MILLISECOND);
    if remainder < 0 then Parts(quotient - 1, remainder + MILLISECOND) else Parts(quotient, remainder)
  }

  lemma DivisionFits(value: int64)
    ensures var quotient := TruncatedQuotient(value, MILLISECOND);
            var remainder := TruncatedRemainder(value, MILLISECOND);
            && -9_223_372_036_854 <= quotient <= 9_223_372_036_854
            && -MILLISECOND < remainder < MILLISECOND
  {
  }

  /** The parts are the floor quotient and its remainder, for every int64. */
  lemma FloorPartsExact(value: int64)
    ensures var parts := FloorParts(value);
            && parts.quotient == value / MILLISECOND && parts.remainder == value % MILLISECOND
            && value == parts.quotient * MILLISECOND + parts.remainder
            && 0 <= parts.remainder < MILLISECOND
  {
  }

  // ---------------------------------------------------------------------
  // Checked arithmetic
  // ---------------------------------------------------------------------

  function CheckedAdd(left: int64, right: int64): Result<int64, DeriveFault> {
    if (right > 0 && left > MAX_INT64 - right) || (right < 0 && left < MIN_INT64 - right) then Err(ArithmeticOverflow)
    else Ok(left + right)
  }

  /** It throws exactly when the true sum leaves int64, and no intermediate value does. */
  lemma CheckedAddExact(left: int64, right: int64)
    ensures CheckedAdd(left, right)
         == if FitsInt64(left + right) then Ok(left + right) else Err(ArithmeticOverflow)
    ensures right > 0 ==> FitsInt64(MAX_INT64 - right)
    ensures right < 0 ==> FitsInt64(MIN_INT64 - right)
  {
  }

  function MultiplyOverflows(left: int64, right: int64): bool
    requires left != 0 && right != 0
  {
    if left > 0 then
      if right > 0 then left > TruncatedQuotient(MAX_INT64, right) else right < TruncatedQuotient(MIN_INT64, left)
    else
      if right > 0 then left < TruncatedQuotient(MIN_INT64, right) else right < TruncatedQuotient(MAX_INT64, left)
  }

  function CheckedMultiply(left: int64, right: int64): Result<int64, DeriveFault> {
    if left == 0 || right == 0 then Ok(0)
    else if MultiplyOverflows(left, right) then Err(ArithmeticOverflow)
    else
      MultiplyOverflowsExact(left, right);
      Ok(left * right)
  }

  /** Multiplying both sides of a comparison by a positive number. */
  lemma ProductWithin(a: nat, b: nat, limit: nat)
    requires b > 0
    ensures a <= limit / b <==> a * b <= limit
  {
    var q := limit / b;
    assert q * b <= limit < (q + 1) * b by {
      assert limit == q * b + limit % b;
      assert (q + 1) * b == q * b + b;
    }
    if a <= q {
      Monotonic(a, q, b);
    } else {
      Monotonic(q + 1, a, b);
    }
  }

  lemma Monotonic(a: nat, b: nat, c: nat)
    requires a <= b
    ensures a * c <= b * c
  {
  }

  lemma Signs(a: int, b: int)
    ensures (0 - a) * b == 0 - a * b
    ensures a * (0 - b) == 0 - a * b
    ensures (0 - a) * (0 - b) == a * b
  {
  }

  lemma MultiplyOverflowsExact(left: int64, right: int64)
    requires left != 0 && right != 0
    ensures MultiplyOverflows(left, right) <==> !FitsInt64(left * right)
  {
    var a: nat := if left < 0 then 0 - left else left;
    var b: nat := if right < 0 then 0 - right else right;
    Signs(left, right);
    ProductWithin(a, b, MAX_INT64);
    ProductWithin(a, b, MAX_INT64 + 1);
    ProductWithin(b, a, MAX_INT64);
    ProductWithin(b, a, MAX_INT64 + 1);
    Commutes(a, b);
    Positive(a, b);
  }

  lemma Commutes(a: int, b: int)
    ensures a * b == b * a
  {
  }

  lemma Positive(a: nat, b: nat)
    requires a > 0 && b > 0
    ensures a * b > 0
  {
  }

  /** It throws exactly when the true product leaves int64. */
  lemma CheckedMultiplyExact(left: int64, right: int64)
    ensures CheckedMultiply(left, right)
         == if FitsInt64(left * right) then Ok(left * right) else Err(ArithmeticOverflow)
  {
    if left != 0 && right != 0 {
      MultiplyOverflowsExact(left, right);
    }
  }

  // ---------------------------------------------------------------------
  // The grid
  // ---------------------------------------------------------------------

  /** The bin of a time, computed with int64 values only. */
  function IndexOf(origin: int64, time: int64): (index: int64)
    ensures index == (time - origin) / MILLISECOND
  {
    FloorPartsExact(time);
    FloorPartsExact(origin);
    FloorDifference(origin, time);
    var t, o := FloorParts(time), FloorParts(origin);
    if t.remainder < o.remainder then t.quotient - o.quotient - 1 else t.quotient - o.quotient
  }

  lemma FloorDifference(origin: int, time: int)
    ensures (time - origin) / MILLISECOND
         == time / MILLISECOND - origin / MILLISECOND - (if time % MILLISECOND < origin % MILLISECOND then 1 else 0)
  {
  }

  function EdgeUnixNs(origin: int64, edge: int64): Result<int64, DeriveFault> {
    var product :- CheckedMultiply(edge, MILLISECOND);
    CheckedAdd(origin, product)
  }

  datatype Interval = Interval(index: int64, begin: int64, end: int64) {
    predicate Contains(time: int64) {
      begin <= time < end
    }
  }

  function IntervalAt(origin: int64, index: int64): Result<Interval, DeriveFault> {
    var begin :- EdgeUnixNs(origin, index);
    var end :- CheckedAdd(begin, MILLISECOND);
    Ok(Interval(index, begin, end))
  }

  /** When an interval is given at all, and what it is. */
  lemma IntervalExact(origin: int64, index: int64)
    ensures IntervalAt(origin, index)
         == if FitsInt64(index * MILLISECOND) && FitsInt64(origin + index * MILLISECOND)
               && FitsInt64(origin + index * MILLISECOND + MILLISECOND)
            then Ok(Interval(index, origin + index * MILLISECOND, origin + index * MILLISECOND + MILLISECOND))
            else Err(ArithmeticOverflow)
  {
    hide CheckedAdd, CheckedMultiply;
    CheckedMultiplyExact(index, MILLISECOND);
    if FitsInt64(index * MILLISECOND) {
      CheckedAddExact(origin, index * MILLISECOND);
      if FitsInt64(origin + index * MILLISECOND) {
        CheckedAddExact(origin + index * MILLISECOND, MILLISECOND);
      }
    }
  }

  /** The interval of a time's bin contains the time, and no other interval does. */
  lemma IntervalContains(origin: int64, time: int64, index: int64)
    requires IntervalAt(origin, index).Ok?
    ensures IntervalAt(origin, index).value.Contains(time) <==> index == IndexOf(origin, time)
  {
    hide IntervalAt;
    IntervalExact(origin, index);
  }

  /** The start of the millisecond of a time. */
  function FloorToMillisecond(time: int64): Result<int64, DeriveFault> {
    CheckedMultiply(FloorParts(time).quotient, MILLISECOND)
  }

  /** It is rejected only in the tail below the first whole millisecond of int64. */
  lemma FloorExact(time: int64)
    ensures FloorToMillisecond(time).Ok? <==> time >= -9_223_372_036_854_000_000
    ensures FloorToMillisecond(time).Ok? ==> FloorToMillisecond(time).value == time - time % MILLISECOND
  {
    hide CheckedMultiply;
    FloorPartsExact(time);
    CheckedMultiplyExact(FloorParts(time).quotient, MILLISECOND);
  }

  datatype Range = Range(first: int64, endExclusive: int64) {
    predicate Contains(index: int64) {
      first <= index < endExclusive
    }

    /** Subtraction of the uint64 images, which is the true difference. */
    function Size(): Result<uint64, DeriveFault> {
      if endExclusive < first then Err(RangeInverted)
      else Ok((ToUInt64(endExclusive) - ToUInt64(first)) % TWO_64)
    }
  }

  lemma SizeExact(range: Range)
    requires range.first <= range.endExclusive
    ensures range.Size() == Ok(range.endExclusive - range.first)
  {
  }
}
