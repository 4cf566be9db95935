/**
 * Saturating arithmetic of the filter engine: the `clamp` template of Filter.h,
 * instantiated at `int` (pixel coordinates, Contrast) and at `float` (every
 * floating-point channel sum), and the implicit float-to-int conversion that
 * QColor applies when a channel is stored.
 *
 * `float` is modelled as exact `real` arithmetic.
 */
module Saturation {

  /**
   * clamp(value, max, min) at `int`. Note the argument order: the upper bound
   * comes first, and it is also tested first, so with inverted bounds
   * (min > max) a value above `max` yields `max`.
   */
  function ClampInt(value: int, max: int, min: int): (r: int)
    ensures r == value || r == max || r == min
    ensures value > max ==> r == max
    ensures value <= max && value < min ==> r == min
    ensures min <= max ==> min <= r <= max
    ensures min <= value <= max ==> r == value
  {
    if value > max then max
    else if value < min then min
    else value
  }

  /** clamp(value, max, min) at `float`, with the same order of tests as ClampInt. */
  function ClampReal(value: real, max: real, min: real): (r: real)
    ensures r == value || r == max || r == min
    ensures value > max ==> r == max
    ensures value <= max && value < min ==> r == min
    ensures min <= max ==> min <= r <= max
    ensures min <= value <= max ==> r == value
  {
    if value > max then max
    else if value < min then min
    else value
  }

  lemma ClampIntIdempotent(value: int, max: int, min: int)
    requires min <= max
    ensures ClampInt(ClampInt(value, max, min), max, min) == ClampInt(value, max, min)
  {
  }

  lemma ClampIntMonotone(v1: int, v2: int, max: int, min: int)
    requires min <= max && v1 <= v2
    ensures ClampInt(v1, max, min) <= ClampInt(v2, max, min)
  {
  }

  lemma ClampRealIdempotent(value: real, max: real, min: real)
    requires min <= max
    ensures ClampReal(ClampReal(value, max, min), max, min) == ClampReal(value, max, min)
  {
  }

  lemma ClampRealMonotone(v1: real, v2: real, max: real, min: real)
    requires min <= max && v1 <= v2
    ensures ClampReal(v1, max, min) <= ClampReal(v2, max, min)
  {
  }

  /** C++'s float-to-int conversion: truncation toward zero. */
  function ToInt(v: real): (r: int)
    ensures 0.0 <= v ==> 0 <= r && r as real <= v < r as real + 1.0
    ensures v < 0.0 ==> r <= 0 && r as real - 1.0 < v <= r as real
  {
    if v >= 0.0 then v.Floor else -((-v).Floor)
  }

  /**
   * A floating-point channel value as QColor stores it: clamp(v, 255.f, 0.f)
   * followed by the implicit conversion to int.
   */
  function Saturate(v: real): (r: int)
    ensures 0 <= r <= 255
    ensures v <= 0.0 ==> r == 0
    ensures v >= 255.0 ==> r == 255
    ensures 0.0 <= v <= 255.0 ==> r as real <= v < r as real + 1.0
  {
    ToInt(ClampReal(v, 255.0, 0.0))
  }

  lemma SaturateMonotone(v1: real, v2: real)
    requires v1 <= v2
    ensures Saturate(v1) <= Saturate(v2)
  {
    ClampRealMonotone(v1, v2, 255.0, 0.0);
  }

  /** An integral channel value in range is stored unchanged. */
  lemma SaturateExact(n: int)
    requires 0 <= n <= 255
    ensures Saturate(n as real) == n
  {
  }
}
