/** Scalar helpers for sketches, over the reals: clamping, linear
    interpolation and linear remapping of ranges. */
module Utils {

  function Max(a: real, b: real): real { if a < b then b else a }

  function Min(a: real, b: real): real { if a < b then a else b }

  /** `constrain`: `max(low, min(high, value))`. */
  function Constrain(value: real, low: real, high: real): (r: real)
    ensures low <= high ==> low <= r <= high
    ensures low <= high ==> (value < low ==> r == low) && (value > high ==> r == high)
    ensures low <= value <= high ==> r == value
    ensures low > high ==> r == low
  {
    Max(low, Min(high, value))
  }

  /** `lerp`: the point `amt` of the way from `start` to `stop`. */
  function Lerp(start: real, stop: real, amt: real): (r: real)
    ensures amt == 0.0 ==> r == start
    ensures amt == 1.0 ==> r == stop
  {
    start + (stop - start) * amt
  }

  /** `map_range`: the point of [start2, stop2] at the same relative
      position as `value` in [start1, stop1]. The source divides by
      `stop1 - start1`, which raises when the source range is empty. */
  function MapRange(value: real, start1: real, stop1: real, start2: real, stop2: real): (r: real)
    requires stop1 != start1
    ensures value == start1 ==> r == start2
    ensures value == stop1 ==> r == stop2
  {
    start2 + (stop2 - start2) * ((value - start1) / (stop1 - start1))
  }

  /** Halfway is the midpoint, and `lerp` extrapolates outside [0, 1]. */
  lemma LerpExamples()
    ensures Lerp(0.0, 100.0, 0.5) == 50.0 && Lerp(0.0, 100.0, 0.25) == 25.0
    ensures Lerp(-100.0, 100.0, 0.5) == 0.0
    ensures Lerp(0.0, 100.0, 1.5) == 150.0 && Lerp(0.0, 100.0, -0.5) == -50.0
  {
  }

  lemma MulNonNegative(a: real, b: real)
    requires a >= 0.0 && b >= 0.0
    ensures a * b >= 0.0
  {
  }

  /** For `amt` in [0, 1] the result stays between `start` and `stop`. */
  lemma LerpBetween(start: real, stop: real, amt: real)
    requires 0.0 <= amt <= 1.0
    ensures Min(start, stop) <= Lerp(start, stop, amt) <= Max(start, stop)
  {
    var d := if start <= stop then stop - start else start - stop;
    MulNonNegative(d, amt);
    MulNonNegative(d, 1.0 - amt);
    assert d * (1.0 - amt) == d - d * amt;
  }

  /** `map_range` is `lerp` over the target range at the relative position
      of `value` in the source range. */
  lemma MapRangeIsLerp(value: real, start1: real, stop1: real, start2: real, stop2: real)
    requires stop1 != start1
    ensures MapRange(value, start1, stop1, start2, stop2) ==
      Lerp(start2, stop2, (value - start1) / (stop1 - start1))
  {
  }

  /** Mapping into a non-empty range and back returns the original value. */
  lemma MapRangeRoundTrip(value: real, start1: real, stop1: real, start2: real, stop2: real)
    requires stop1 != start1 && stop2 != start2
    ensures MapRange(MapRange(value, start1, stop1, start2, stop2), start2, stop2, start1, stop1) == value
  {
    var t := (value - start1) / (stop1 - start1);
    var m := MapRange(value, start1, stop1, start2, stop2);
    assert m - start2 == (stop2 - start2) * t;
    assert (m - start2) / (stop2 - start2) == t;
    assert (stop1 - start1) * t == value - start1;
  }

  /** Mapping cases: mid-range, a reversed target, a source range across
      zero, and extrapolation beyond the source range. */
  lemma MapRangeExamples()
    ensures MapRange(5.0, 0.0, 10.0, 0.0, 100.0) == 50.0
    ensures MapRange(5.0, 0.0, 10.0, 100.0, 0.0) == 50.0
    ensures MapRange(0.0, -10.0, 10.0, 0.0, 100.0) == 50.0
    ensures MapRange(15.0, 0.0, 10.0, 0.0, 100.0) == 150.0
  {
  }

  /** Clamping cases, including a range below zero. */
  lemma ConstrainExamples()
    ensures Constrain(50.0, 0.0, 100.0) == 50.0 && Constrain(-10.0, 0.0, 100.0) == 0.0
    ensures Constrain(150.0, 0.0, 100.0) == 100.0
    ensures Constrain(-50.0, -100.0, -10.0) == -50.0 && Constrain(0.0, -100.0, -10.0) == -10.0
  {
  }
}
