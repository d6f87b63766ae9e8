/** The clamp and blend primitives of `Utils.Math`
    (TerrainGen.Lib/Utilities/Math.cs), over the reals. */
module UtilMath {

  /** The smaller and the larger of two reals. */
  function Min(a: real, b: real): real { if a <= b then a else b }
  function Max(a: real, b: real): real { if a <= b then b else a }

  /** `Clamp`: value limited to [min, max]. The test against min comes first,
      so a value below min gives min even when min > max. */
  function Clamp(value: real, min: real, max: real): (r: real)
    ensures min <= max ==> min <= r <= max
    ensures min <= value <= max ==> r == value
    ensures value < min ==> r == min
    ensures min <= value && max < value ==> r == max
    ensures r == value || r == min || r == max
  {
    if value < min then min else if value > max then max else value
  }

  /** Clamping twice is clamping once. */
  lemma ClampIdempotent(value: real, min: real, max: real)
    requires min <= max
    ensures Clamp(Clamp(value, min, max), min, max) == Clamp(value, min, max)
  {
  }

  /** `Lerp`: the point a fraction `t` (the source's `by`) of the way from firstFloat to secondFloat. */
  function Lerp(firstFloat: real, secondFloat: real, t: real): (r: real)
    ensures t == 0.0 ==> r == firstFloat
    ensures t == 1.0 ==> r == secondFloat
  {
    firstFloat * (1.0 - t) + secondFloat * t
  }

  /** Lerp moves from a towards b by t times their difference. */
  lemma LerpOffset(a: real, b: real, t: real)
    ensures Lerp(a, b, t) == a + (b - a) * t
  {
    assert a * (1.0 - t) == a - a * t;
    assert (b - a) * t == b * t - a * t;
  }

  /** For `t` in [0, 1], Lerp stays between its endpoints, whichever is larger. */
  lemma LerpBetween(a: real, b: real, t: real)
    requires 0.0 <= t <= 1.0
    ensures Min(a, b) <= Lerp(a, b, t) <= Max(a, b)
  {
    LerpOffset(a, b, t);
    var d := b - a;
    assert d - d * t == d * (1.0 - t);
    if d >= 0.0 {
      ProductNonNegative(d, t);
      ProductNonNegative(d, 1.0 - t);
    } else {
      var e := -d;
      ProductNonNegative(e, t);
      ProductNonNegative(e, 1.0 - t);
      assert d * t == -(e * t) && d * (1.0 - t) == -(e * (1.0 - t));
    }
  }

  /** The product of two non-negative reals is non-negative. */
  lemma ProductNonNegative(a: real, b: real)
    requires a >= 0.0 && b >= 0.0
    ensures a * b >= 0.0
  {
  }

  /** `Blerp`: Lerp along x on both rows, then Lerp along y between them. At
      the four corners of the unit square it returns the corner values. */
  function Blerp(c00: real, c10: real, c01: real, c11: real, tx: real, ty: real): (r: real)
    ensures tx == 0.0 && ty == 0.0 ==> r == c00
    ensures tx == 1.0 && ty == 0.0 ==> r == c10
    ensures tx == 0.0 && ty == 1.0 ==> r == c01
    ensures tx == 1.0 && ty == 1.0 ==> r == c11
  {
    Lerp(Lerp(c00, c10, tx), Lerp(c01, c11, tx), ty)
  }

  /** Inside the unit square Blerp stays between the least and the greatest
      corner value. */
  lemma BlerpBetween(c00: real, c10: real, c01: real, c11: real, tx: real, ty: real)
    requires 0.0 <= tx <= 1.0 && 0.0 <= ty <= 1.0
    ensures Min(Min(c00, c10), Min(c01, c11)) <= Blerp(c00, c10, c01, c11, tx, ty)
    ensures Blerp(c00, c10, c01, c11, tx, ty) <= Max(Max(c00, c10), Max(c01, c11))
  {
    LerpBetween(c00, c10, tx);
    LerpBetween(c01, c11, tx);
    LerpBetween(Lerp(c00, c10, tx), Lerp(c01, c11, tx), ty);
  }

  /** `Normalize(val, max, min)`: where val lies on the scale from min (0) to
      max (1). Note the argument order: max before min. */
  function Normalize(val: real, max: real, min: real): (r: real)
    requires max != min
    ensures val == min ==> r == 0.0
    ensures val == max ==> r == 1.0
  {
    var range := max - min;
    assert (max - min) / range == 1.0;
    (val - min) / range
  }

  /** Normalize undoes Lerp from min to max ... */
  lemma NormalizeLerp(t: real, max: real, min: real)
    requires max != min
    ensures Normalize(Lerp(min, max, t), max, min) == t
  {
    LerpOffset(min, max, t);
    assert Lerp(min, max, t) - min == (max - min) * t;
  }

  /** ... and Lerp undoes Normalize. */
  lemma LerpNormalize(val: real, max: real, min: real)
    requires max != min
    ensures Lerp(min, max, Normalize(val, max, min)) == val
  {
    var t := Normalize(val, max, min);
    LerpOffset(min, max, t);
    assert (max - min) * t == val - min;
  }

  /** Between min and max, Normalize lies in [0, 1]. */
  lemma NormalizeUnitRange(val: real, max: real, min: real)
    requires min < max && min <= val <= max
    ensures 0.0 <= Normalize(val, max, min) <= 1.0
  {
    var d := max - min;
    assert (val - min) / d <= d / d;
  }
}
