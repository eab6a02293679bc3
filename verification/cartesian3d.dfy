/**
 * Cartesian: the default methods of a Cartesian3D point, a Matrix1x3 of
 * either precision: its dimension, the distance to another point through the
 * double readings, and the comparison with three ints through the int
 * readings.
 */
module Cartesian {
  import opened Numeric
  import opened Precision
  import opened Coordinates
  import opened Matrix
  import opened Wrappers
  import Vectors

  /**
   * A Cartesian3d or Cartesian3f point. Like a Vector3D it is a Matrix1x3 of
   * its precision over three stored coordinates, so it shares the vector
   * record's backing array, matrix view and readings.
   */
  type Cartesian3 = Vectors.Vector3

  /** dimension(): a Cartesian3D has as many coordinates as its matrix has columns. */
  function Dimension(p: Cartesian3): (n: nat)
    ensures n == |Vectors.Elements(p)| && n == Vectors.AsMatrix(p).shape.Cols()
  {
    Vectors.Dimension(p)
  }

  // ---------------------------------------------------------------------------
  // distanceTo
  // ---------------------------------------------------------------------------

  /** The squared distance, from the double readings of both points. */
  function SquaredDistance(p: Cartesian3, q: Cartesian3): real {
    var dx := Vectors.Xd(p, X) - Vectors.Xd(q, X);
    var dy := Vectors.Xd(p, Y) - Vectors.Xd(q, Y);
    var dz := Vectors.Xd(p, Z) - Vectors.Xd(q, Z);
    Sq(dx) + Sq(dy) + Sq(dz)
  }

  /**
   * distanceTo(point): the host's square root of the sum of the squared
   * coordinate differences. The differences are of the stored values, in
   * whichever precision each point keeps them.
   */
  function DistanceTo(p: Cartesian3, q: Cartesian3, sqrt: real -> real): (d: real)
    ensures IsSqrt(sqrt) ==> d >= 0.0
    ensures IsSqrt(sqrt) ==> Sq(d) == Sq(p.x - q.x) + Sq(p.y - q.y) + Sq(p.z - q.z)
  {
    SquaredNonNegative(p, q);
    sqrt(SquaredDistance(p, q))
  }

  lemma SquaredNonNegative(p: Cartesian3, q: Cartesian3)
    ensures SquaredDistance(p, q) >= 0.0
    ensures SquaredDistance(p, q) == 0.0 <==> p.x == q.x && p.y == q.y && p.z == q.z
  {
    SqPositive(p.x - q.x);
    SqPositive(p.y - q.y);
    SqPositive(p.z - q.z);
  }

  /** The distance from p to q is the distance from q to p. */
  lemma DistanceSymmetric(p: Cartesian3, q: Cartesian3, sqrt: real -> real)
    ensures DistanceTo(p, q, sqrt) == DistanceTo(q, p, sqrt)
  {
    assert Sq(p.x - q.x) == Sq(q.x - p.x);
    assert Sq(p.y - q.y) == Sq(q.y - p.y);
    assert Sq(p.z - q.z) == Sq(q.z - p.z);
  }

  /** The distance is zero exactly between points with the same stored coordinates. */
  lemma DistanceZero(p: Cartesian3, q: Cartesian3, sqrt: real -> real)
    requires IsSqrt(sqrt)
    ensures DistanceTo(p, q, sqrt) == 0.0 <==> p.x == q.x && p.y == q.y && p.z == q.z
  {
    SquaredNonNegative(p, q);
    SqrtZero(sqrt, SquaredDistance(p, q));
  }

  /** The distance from a point to itself is zero, whatever its precision. */
  lemma DistanceToSelf(p: Cartesian3, sqrt: real -> real)
    requires IsSqrt(sqrt)
    ensures DistanceTo(p, p, sqrt) == 0.0
  {
    DistanceZero(p, p, sqrt);
  }

  /** The distance is the magnitude of the double difference vector. */
  lemma DistanceIsMagnitude(p: Cartesian3, q: Cartesian3, sqrt: real -> real)
    ensures DistanceTo(p, q, sqrt)
            == Vectors.Magnitude(Vectors.Vector3(Double, p.x - q.x, p.y - q.y, p.z - q.z), sqrt)
  {
    var v := Vectors.Vector3(Double, p.x - q.x, p.y - q.y, p.z - q.z);
    SquaredDistanceStored(p, q);
    SquaresAreDot(v);
    assert DistanceTo(p, q, sqrt) == sqrt(SquaredDistance(p, q));
  }

  lemma SquaresAreDot(v: Vectors.Vector3)
    ensures Vectors.Dot(v, v) == Sq(v.x) + Sq(v.y) + Sq(v.z)
  {
  }

  lemma SquaredDistanceStored(p: Cartesian3, q: Cartesian3)
    ensures SquaredDistance(p, q) == Sq(p.x - q.x) + Sq(p.y - q.y) + Sq(p.z - q.z)
  {
  }

  // ---------------------------------------------------------------------------
  // equals(int, int, int)
  // ---------------------------------------------------------------------------

  /**
   * equals(x, y, z): compares the int readings only. Where a reading is
   * equal but the stored coordinate differs, the reading is a saturation
   * constant.
   */
  function EqualsInts(p: Cartesian3, x: Int32, y: Int32, z: Int32): (b: bool)
    ensures b ==> (p.x == x as real || x == INT_MIN || x == INT_MAX)
    ensures b ==> (p.y == y as real || y == INT_MIN || y == INT_MAX)
    ensures b ==> (p.z == z as real || z == INT_MIN || z == INT_MAX)
  {
    IntReadingCases(p.kind, p.x);
    IntReadingCases(p.kind, p.y);
    IntReadingCases(p.kind, p.z);
    Vectors.ReadAxis(p, X).i == x && Vectors.ReadAxis(p, Y).i == y && Vectors.ReadAxis(p, Z).i == z
  }

  /**
   * A coordinate that int holds and float reads exactly: xi() is the stored
   * value itself.
   */
  predicate ExactInt(k: RealKind, stored: real) {
    Representable(stored, Int) && (k == Float || IsBinary32(stored))
  }

  lemma ExactIntReading(k: RealKind, stored: real)
    requires ExactInt(k, stored)
    ensures Read(k, stored).i as real == stored
  {
    IntReading(k, stored);
  }

  /** On whole coordinates that float holds, equals(x, y, z) is equality of the coordinates. */
  lemma EqualsIntsExact(p: Cartesian3, x: Int32, y: Int32, z: Int32)
    requires ExactInt(p.kind, p.x) && ExactInt(p.kind, p.y) && ExactInt(p.kind, p.z)
    ensures EqualsInts(p, x, y, z) <==> p.x == x as real && p.y == y as real && p.z == z as real
  {
    ExactIntReading(p.kind, p.x);
    ExactIntReading(p.kind, p.y);
    ExactIntReading(p.kind, p.z);
  }

  /**
   * A fractional coordinate reads as a saturation constant, so two points
   * with different fractional coordinates both equal Integer.MAX_VALUE.
   */
  lemma FractionsEqualMax()
    ensures EqualsInts(Vectors.Vector3(Float, 2.5, 3.5, 0.5), INT_MAX, INT_MAX, INT_MAX)
    ensures EqualsInts(Vectors.Vector3(Float, 7.25, 1.5, 9.75), INT_MAX, INT_MAX, INT_MAX)
  {
    assert !IsInteger(2.5) && !IsInteger(3.5) && !IsInteger(0.5);
    assert !IsInteger(7.25) && !IsInteger(1.5) && !IsInteger(9.75);
  }

  /** A negative fraction reads as Integer.MIN_VALUE. */
  lemma NegativeFractionEqualsMin()
    ensures EqualsInts(Vectors.Vector3(Float, -0.5, 0.0, 1.0), INT_MIN, 0, 1)
  {
    assert !IsInteger(-0.5) && IsInteger(0.0) && IsInteger(1.0);
  }
}
