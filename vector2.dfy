/** `TerrainGen.Vector2` and `MathEx.Map` (TerrainGen/Vector2.cs). */
module Vector2Math {
  import opened UtilMath

  /** A point of the plane. The repository's class sets its two fields in the
      constructor and never changes them, so it is a value here. */
  datatype Vector2 = Vector2(x: real, y: real)
  {
    /** `SquareDistaceTo` (sic): the squared Euclidean distance to p. It is
        never negative, and zero from a point to itself. */
    function SquareDistaceTo(p: Vector2): (r: real)
      ensures r >= 0.0
      ensures this == p ==> r == 0.0
    {
      var dx, dy := x - p.x, y - p.y;
      dx * dx + dy * dy
    }
  }

  /** The squared distance from p to q is the squared distance from q to p. */
  lemma SquareDistanceSymmetric(p: Vector2, q: Vector2)
    ensures p.SquareDistaceTo(q) == q.SquareDistaceTo(p)
  {
    assert (p.x - q.x) * (p.x - q.x) == (q.x - p.x) * (q.x - p.x);
    assert (p.y - q.y) * (p.y - q.y) == (q.y - p.y) * (q.y - p.y);
  }

  /** `MathEx.Map`: n carried from the range [start1, stop1] to the range
      [start2, stop2] by the affine map that sends start1 to start2 and stop1
      to stop2. */
  function Map(n: real, start1: real, stop1: real, start2: real, stop2: real): (r: real)
    requires stop1 != start1
    ensures n == start1 ==> r == start2
    ensures n == stop1 ==> r == stop2
  {
    var range := stop1 - start1;
    assert range / range == 1.0;
    ((n - start1) / range) * (stop2 - start2) + start2
  }

  /** Map is Lerp over the target range of Normalize over the source range. */
  lemma MapIsLerpOfNormalize(n: real, start1: real, stop1: real, start2: real, stop2: real)
    requires stop1 != start1
    ensures Map(n, start1, stop1, start2, stop2) == Lerp(start2, stop2, Normalize(n, stop1, start1))
  {
    LerpOffset(start2, stop2, Normalize(n, stop1, start1));
  }

  /** Mapping [0, 1] onto itself changes nothing. */
  lemma MapIdentity(n: real)
    ensures Map(n, 0.0, 1.0, 0.0, 1.0) == n
  {
  }

  /** Mapping back from the target range to the source range restores n. */
  lemma MapInverse(n: real, start1: real, stop1: real, start2: real, stop2: real)
    requires stop1 != start1 && stop2 != start2
    ensures Map(Map(n, start1, stop1, start2, stop2), start2, stop2, start1, stop1) == n
  {
    MapIsLerpOfNormalize(n, start1, stop1, start2, stop2);
    var m := Map(n, start1, stop1, start2, stop2);
    MapIsLerpOfNormalize(m, start2, stop2, start1, stop1);
    NormalizeLerp(Normalize(n, stop1, start1), stop2, start2);
    LerpNormalize(n, stop1, start1);
  }
}
