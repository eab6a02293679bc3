/**
 * Vector3D: the Vector3f and Vector3d records over a three-element backing
 * array, their component-wise arithmetic, the default dot, cross and
 * magnitude, normalize, and the conversions to and from Point3D.
 *
 * A Vector3f reads an argument vector through its float accessors and a
 * Vector3d through its double accessors, so adding a Vector3d to a Vector3f
 * goes through the precision cast policy. dot, cross and magnitude always use
 * the double accessors, which give back the stored element for both kinds.
 */
module Vectors {
  import opened Numeric
  import opened Wrappers
  import opened Precision
  import opened Coordinates
  import opened Matrix

  /** A Vector3f or Vector3d record: its precision and its three stored coordinates. */
  datatype Vector3 = Vector3(kind: RealKind, x: real, y: real, z: real)

  /** The backing array: x at X_COL_OFFSET, y at Y_COL_OFFSET, z at Z_COL_OFFSET. */
  function Elements(v: Vector3): seq<real> {
    [v.x, v.y, v.z]
  }

  /** The record as the Matrix1x3f or Matrix1x3d it also is. */
  function AsMatrix(v: Vector3): (m: Matrix)
    ensures m.Valid() && m.shape == M1x3 && m.kind == v.kind
  {
    Matrix(M1x3, v.kind, Elements(v))
  }

  /**
   * xd(), xf(), xi(), xj(), xn() and their y and z counterparts: the readings
   * of the stored coordinate, which are those of row 0 of the Matrix1x3.
   */
  function ReadAxis(v: Vector3, axis: Axis): (r: Reading)
    requires axis != W
    ensures r.d == Elements(v)[axis.Offset()]
  {
    Read(v.kind, Elements(v)[axis.Offset()])
  }

  /** A vector's readings are those of row 0 of the Matrix1x3 it is. */
  lemma ReadAxisIsRow(v: Vector3, axis: Axis)
    requires axis != W
    ensures ReadAt(AsMatrix(v), 0, axis) == Ok(ReadAxis(v, axis))
  {
    ReadAtInRange(AsMatrix(v), 0, axis);
  }

  /**
   * xd(), yd() and zd(): in either precision the double reading is the stored
   * coordinate itself (XdIsReading ties it to the full reading).
   */
  function Xd(v: Vector3, axis: Axis): real
    requires axis != W
  {
    Elements(v)[axis.Offset()]
  }

  lemma XdIsReading(v: Vector3, axis: Axis)
    requires axis != W
    ensures Xd(v, axis) == ReadAxis(v, axis).d
  {
  }

  predicate IsZero(v: Vector3) {
    v.x == 0.0 && v.y == 0.0 && v.z == 0.0
  }

  /** dimension() */
  function Dimension(v: Vector3): (n: nat)
    ensures n == |Elements(v)| && n == AsMatrix(v).shape.Cols()
  {
    3
  }

  /** ofDouble(x, y, z): a Vector3d whose double readings are the arguments. */
  function OfDouble(x: real, y: real, z: real): (v: Vector3)
    ensures v.kind == Double
    ensures ReadAxis(v, X).d == x && ReadAxis(v, Y).d == y && ReadAxis(v, Z).d == z
  {
    var v := Vector3(Double, x, y, z);
    ReadAxisIsStored(v);
    v
  }

  /** The d readings of a vector are its stored coordinates. */
  lemma ReadAxisIsStored(v: Vector3)
    ensures ReadAxis(v, X).d == v.x && ReadAxis(v, Y).d == v.y && ReadAxis(v, Z).d == v.z
  {
  }

  /** ofFloat(x, y, z): a Vector3f whose float readings are the (float) arguments. */
  function OfFloat(x: real, y: real, z: real): (v: Vector3)
    requires IsBinary32(x) && IsBinary32(y) && IsBinary32(z)
    ensures v.kind == Float
    ensures ReadAxis(v, X).f == x && ReadAxis(v, Y).f == y && ReadAxis(v, Z).f == z
  {
    var v := Vector3(Float, x, y, z);
    ReadAxisIsStored(v);
    v
  }

  /**
   * The coordinates of an argument vector as a receiver of precision k reads
   * them: through xf() for a Vector3f receiver, through xd() for a Vector3d.
   * They are the stored ones unless a float receiver reads a double vector
   * holding a value float cannot represent.
   */
  function ArgumentAs(k: RealKind, v: Vector3): (r: Vector3)
    ensures r.kind == v.kind
    ensures r == v <==> k == Double || v.kind == Float
                        || (IsBinary32(v.x) && IsBinary32(v.y) && IsBinary32(v.z))
  {
    if k == Float then Vector3(v.kind, ReadAxis(v, X).f, ReadAxis(v, Y).f, ReadAxis(v, Z).f)
    else v
  }

  /**
   * A receiver of kind k reads a vector of kind j exactly: a Vector3d reads
   * any vector through xd(), a Vector3f a Vector3f through xf().
   */
  predicate ReadsExactly(k: RealKind, j: RealKind) {
    k == Double || j == Float
  }

  lemma ExactArgument(k: RealKind, v: Vector3)
    requires ReadsExactly(k, v.kind)
    ensures ArgumentAs(k, v) == v
  {
  }

  /** add(vector): the sum in the receiver's precision. */
  function Add(u: Vector3, v: Vector3): (r: Vector3)
    ensures r.kind == u.kind
    ensures ArgumentAs(u.kind, v) == v ==> r.x == u.x + v.x && r.y == u.y + v.y && r.z == u.z + v.z
  {
    var w := ArgumentAs(u.kind, v);
    Vector3(u.kind, u.x + w.x, u.y + w.y, u.z + w.z)
  }

  /** subtract(vector): the difference in the receiver's precision. */
  function Subtract(u: Vector3, v: Vector3): (r: Vector3)
    ensures r.kind == u.kind
    ensures ArgumentAs(u.kind, v) == v ==> r.x == u.x - v.x && r.y == u.y - v.y && r.z == u.z - v.z
  {
    var w := ArgumentAs(u.kind, v);
    Vector3(u.kind, u.x - w.x, u.y - w.y, u.z - w.z)
  }

  /** Subtracting what was added gives the receiver back, whatever the argument's kind. */
  lemma AddThenSubtract(u: Vector3, v: Vector3)
    ensures Subtract(Add(u, v), v) == u
    ensures Add(Subtract(u, v), v) == u
  {
    var w := ArgumentAs(u.kind, v);
    assert Add(u, v) == Vector3(u.kind, u.x + w.x, u.y + w.y, u.z + w.z);
    assert Subtract(u, v) == Vector3(u.kind, u.x - w.x, u.y - w.y, u.z - w.z);
  }

  /** A vector minus itself is the zero vector of its own kind. */
  lemma SubtractSelf(u: Vector3)
    ensures Subtract(u, u) == Vector3(u.kind, 0.0, 0.0, 0.0)
  {
  }

  /**
   * A Vector3f adding a Vector3d that holds 0.1 adds Float.MAX_VALUE, the
   * saturated float reading of 0.1, not 0.1.
   */
  lemma FloatPlusDoubleTenth()
    ensures Add(Vector3(Float, 0.0, 0.0, 0.0), Vector3(Double, TENTH, TENTH, TENTH))
            == Vector3(Float, FLOAT_MAX, FLOAT_MAX, FLOAT_MAX)
  {
    TenthNotBinary32();
    TenthIsFraction();
    SaturatedDoubleReading(TENTH);
  }

  /** scale(factor): every coordinate times factor, in the receiver's precision. */
  function Scale(v: Vector3, factor: real): (r: Vector3)
    ensures r.kind == v.kind
    ensures IsZero(r) <==> factor == 0.0 || IsZero(v)
  {
    Vector3(v.kind, v.x * factor, v.y * factor, v.z * factor)
  }

  lemma ScaleByOne(v: Vector3)
    ensures Scale(v, 1.0) == v
  {
  }

  /** Scaling twice is scaling once by the product. */
  lemma ScaleTwice(v: Vector3, a: real, b: real)
    ensures Scale(Scale(v, a), b) == Scale(v, a * b)
  {
    assert v.x * a * b == v.x * (a * b);
    assert v.y * a * b == v.y * (a * b);
    assert v.z * a * b == v.z * (a * b);
  }

  /** dot(vector), over the double readings. */
  function Dot(u: Vector3, v: Vector3): real {
    u.x * v.x + u.y * v.y + u.z * v.z
  }

  /** dot(vector) is xd * xd' + yd * yd' + zd * zd'. */
  lemma DotOfReadings(u: Vector3, v: Vector3)
    ensures Dot(u, v) == Xd(u, X) * Xd(v, X) + Xd(u, Y) * Xd(v, Y) + Xd(u, Z) * Xd(v, Z)
  {
  }

  lemma DotSymmetric(u: Vector3, v: Vector3)
    ensures Dot(u, v) == Dot(v, u)
  {
  }

  /** A vector's dot with itself is a sum of squares: never negative, zero only for the zero vector. */
  lemma DotSelf(v: Vector3)
    ensures Dot(v, v) >= 0.0
    ensures Dot(v, v) == 0.0 <==> IsZero(v)
  {
    SqPositive(v.x);
    SqPositive(v.y);
    SqPositive(v.z);
    assert Dot(v, v) == Sq(v.x) + Sq(v.y) + Sq(v.z);
  }

  /** The dot product scales with either factor. */
  lemma DotScale(u: Vector3, v: Vector3, factor: real)
    ensures Dot(Scale(u, factor), v) == factor * Dot(u, v)
    ensures Dot(u, Scale(v, factor)) == factor * Dot(u, v)
  {
    DotScaleLeft(u, v, factor);
    DotScaleLeft(v, u, factor);
    DotSymmetric(u, Scale(v, factor));
    DotSymmetric(u, v);
  }

  /** Scaling the left operand scales the dot, term by term. */
  lemma DotScaleLeft(u: Vector3, v: Vector3, factor: real)
    ensures Dot(Scale(u, factor), v) == factor * Dot(u, v)
  {
    ScaledDot(u, v, factor);
    ScaledTerm(u.x, v.x, factor);
    ScaledTerm(u.y, v.y, factor);
    ScaledTerm(u.z, v.z, factor);
    Distribute(factor, u.x * v.x, u.y * v.y, u.z * v.z);
  }

  /** The dot with a scaled left operand, written out. */
  lemma ScaledDot(u: Vector3, v: Vector3, factor: real)
    ensures Dot(Scale(u, factor), v) == (u.x * factor) * v.x + (u.y * factor) * v.y + (u.z * factor) * v.z
  {
  }

  /** A factor distributes over a sum of three terms. */
  lemma Distribute(factor: real, p: real, q: real, r: real)
    ensures factor * (p + q + r) == factor * p + factor * q + factor * r
  {
  }

  /** One term of a dot product with the left factor scaled. */
  lemma ScaledTerm(a: real, b: real, factor: real)
    ensures (a * factor) * b == factor * (a * b)
  {
  }

  /** cross(vector): always a Vector3d, perpendicular to both operands. */
  function Cross(u: Vector3, v: Vector3): (r: Vector3)
    ensures r.kind == Double
    ensures Dot(u, r) == 0.0 && Dot(v, r) == 0.0
    ensures Determinant(u, v, r) == Dot(r, r)
  {
    Vector3(Double, u.y * v.z - u.z * v.y, u.z * v.x - u.x * v.z, u.x * v.y - u.y * v.x)
  }

  /** A vector crossed with itself is the zero vector. */
  lemma CrossSelf(u: Vector3)
    ensures IsZero(Cross(u, u))
  {
  }

  /** Swapping the operands negates the cross product. */
  lemma CrossAntiCommutes(u: Vector3, v: Vector3)
    ensures Cross(u, v) == Scale(Cross(v, u), -1.0)
  {
  }

  /**
   * Lagrange's identity: |u|^2 |v|^2 = (u.v)^2 + |u x v|^2, the step from the
   * cross product to the Cauchy-Schwarz bound.
   */
  lemma Lagrange(u: Vector3, v: Vector3)
    ensures Dot(u, u) * Dot(v, v) == Dot(u, v) * Dot(u, v) + Dot(Cross(u, v), Cross(u, v))
  {
  }

  /**
   * The determinant of the 3x3 matrix with rows u, v and w, by the rule of
   * Sarrus: the signed volume of the parallelepiped they span.
   */
  function Determinant(u: Vector3, v: Vector3, w: Vector3): real {
    u.x * v.y * w.z + u.y * v.z * w.x + u.z * v.x * w.y
    - u.z * v.y * w.x - u.y * v.x * w.z - u.x * v.z * w.y
  }

  /**
   * The cross product is right-handed: its dot with any w is the determinant
   * of (u, v, w), so u, v and u x v are positively oriented.
   */
  lemma TripleProduct(u: Vector3, v: Vector3, w: Vector3)
    ensures Dot(w, Cross(u, v)) == Determinant(u, v, w)
  {
  }

  /** In particular x cross y is z, y cross z is x and z cross x is y. */
  lemma CrossOfAxes(k: RealKind)
    ensures Cross(UnitX(k), UnitY(k)) == UnitZ(Double)
    ensures Cross(UnitY(k), UnitZ(k)) == UnitX(Double)
    ensures Cross(UnitZ(k), UnitX(k)) == UnitY(Double)
  {
    CrossComponents(UnitX(k), UnitY(k));
    CrossComponents(UnitY(k), UnitZ(k));
    CrossComponents(UnitZ(k), UnitX(k));
  }

  function UnitX(k: RealKind): Vector3 { Vector3(k, 1.0, 0.0, 0.0) }
  function UnitY(k: RealKind): Vector3 { Vector3(k, 0.0, 1.0, 0.0) }
  function UnitZ(k: RealKind): Vector3 { Vector3(k, 0.0, 0.0, 1.0) }

  /** The three components of the cross product, one determinant of two coordinates each. */
  lemma CrossComponents(u: Vector3, v: Vector3)
    ensures Cross(u, v) == Vector3(Double, u.y * v.z - u.z * v.y, u.z * v.x - u.x * v.z, u.x * v.y - u.y * v.x)
  {
  }

  /** magnitude(): the host's square root of the dot with itself. */
  function Magnitude(v: Vector3, sqrt: real -> real): (m: real)
    ensures IsSqrt(sqrt) ==> m >= 0.0 && Sq(m) == Dot(v, v)
    ensures IsSqrt(sqrt) ==> (m == 0.0 <==> IsZero(v))
  {
    DotSelf(v);
    SqrtZero(sqrt, Dot(v, v));
    sqrt(Dot(v, v))
  }

  /**
   * normalize(): each coordinate divided by the magnitude, in the receiver's
   * precision; an ArithmeticException when the magnitude is zero.
   */
  function Normalize(v: Vector3, sqrt: real -> real): (r: Result<Vector3>)
    ensures IsSqrt(sqrt) ==> (r.Err? <==> IsZero(v))
    ensures r.Err? ==> r.fault == ZeroVector
    ensures r.Ok? ==> r.value.kind == v.kind && Scale(r.value, Magnitude(v, sqrt)) == v
  {
    var mag := Magnitude(v, sqrt);
    if mag == 0.0 then Err(ZeroVector)
    else Ok(Vector3(v.kind, v.x / mag, v.y / mag, v.z / mag))
  }

  /** A normalized vector has unit length. */
  lemma NormalizeUnit(v: Vector3, sqrt: real -> real)
    requires IsSqrt(sqrt) && !IsZero(v)
    ensures Normalize(v, sqrt).Ok?
    ensures Dot(Normalize(v, sqrt).value, Normalize(v, sqrt).value) == 1.0
  {
    var m := Magnitude(v, sqrt);
    var n := Normalize(v, sqrt).value;
    assert Sq(m) == Dot(v, v) && m != 0.0;
    assert n == Scale(v, 1.0 / m);
    DotScale(v, v, 1.0 / m);
    DotScale(v, Scale(v, 1.0 / m), 1.0 / m);
    assert Dot(n, n) == (1.0 / m) * ((1.0 / m) * Sq(m));
  }

  /** A Point3D: a Point3f or Point3d record, or another implementation seen through its double accessors. */
  datatype Point = Point3(kind: RealKind, x: real, y: real, z: real) | OtherPoint(xd: real, yd: real, zd: real)

  /** toPoint(): Point3D.ofFloat or Point3D.ofDouble of the stored coordinates. */
  function ToPoint(v: Vector3): (p: Point)
    ensures p.Point3? && p.kind == v.kind
    ensures [p.x, p.y, p.z] == Elements(v)
  {
    Point3(v.kind, v.x, v.y, v.z)
  }

  /**
   * fromPoint(point): a Vector3f from a Point3f, a Vector3d from a Point3d,
   * and a Vector3d of the double readings from any other point.
   */
  function FromPoint(p: Point): (v: Vector3)
    ensures v.kind == Float <==> p.Point3? && p.kind == Float
    ensures p.OtherPoint? ==> Elements(v) == [p.xd, p.yd, p.zd]
  {
    match p
    case Point3(k, x, y, z) => Vector3(k, x, y, z)
    case OtherPoint(x, y, z) => Vector3(Double, x, y, z)
  }

  /** fromPoint(v.toPoint()) is v again, kind included. */
  lemma PointRoundTrip(v: Vector3)
    ensures FromPoint(ToPoint(v)) == v
  {
  }

  /** toPoint(fromPoint(p)) is p again for the two point records. */
  lemma PointRoundTripBack(p: Point)
    requires p.Point3?
    ensures ToPoint(FromPoint(p)) == p
  {
  }
}
