/** `TerrainGen.Vector3` (TerrainGen.Lib/Vector3.cs). */
module Vector3Math {

  /** A point of space. The repository's class sets its three fields in the
      constructor and never changes them, so it is a value here. */
  datatype Vector3 = Vector3(x: real, y: real, z: real)
  {
    /** `SquareDistaceTo` (sic): the squared Euclidean distance to p. It is
        never negative, and zero from a point to itself. */
    function SquareDistaceTo(p: Vector3): (r: real)
      ensures r >= 0.0
      ensures this == p ==> r == 0.0
    {
      var dx, dy, dz := x - p.x, y - p.y, z - p.z;
      dx * dx + dy * dy + dz * dz
    }
  }

  /** The squared distance from p to q is the squared distance from q to p. */
  lemma SquareDistanceSymmetric(p: Vector3, q: Vector3)
    ensures p.SquareDistaceTo(q) == q.SquareDistaceTo(p)
  {
    assert (p.x - q.x) * (p.x - q.x) == (q.x - p.x) * (q.x - p.x);
    assert (p.y - q.y) * (p.y - q.y) == (q.y - p.y) * (q.y - p.y);
    assert (p.z - q.z) * (p.z - q.z) == (q.z - p.z) * (q.z - p.z);
  }
}
