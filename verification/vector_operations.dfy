/**
 * VectorOperations: the angle between two vectors, the projection of one
 * vector onto another and the reflection of a vector about a normal, with
 * the host's Math.sqrt and Math.acos passed in as functions.
 */
module VectorOperations {
  import opened Numeric
  import opened Wrappers
  import opened Precision
  import opened Vectors

  // ---------------------------------------------------------------------------
  // angle
  // ---------------------------------------------------------------------------

  /** The argument angle hands to acos: the dot over the product of the magnitudes. */
  function Cosine(a: Vector3, b: Vector3, sqrt: real -> real): (c: real)
    requires Magnitude(a, sqrt) * Magnitude(b, sqrt) != 0.0
    ensures c * (Magnitude(a, sqrt) * Magnitude(b, sqrt)) == Dot(a, b)
  {
    Dot(a, b) / (Magnitude(a, sqrt) * Magnitude(b, sqrt))
  }

  /**
   * angle(a, b): acos of the cosine; an ArithmeticException when the product
   * of the magnitudes is zero, which is when either vector is zero.
   */
  function Angle(a: Vector3, b: Vector3, sqrt: real -> real, acos: real -> real): (r: Result<real>)
    ensures IsSqrt(sqrt) ==> (r.Err? <==> IsZero(a) || IsZero(b))
    ensures r.Err? ==> r.fault == ZeroVector
    ensures r.Ok? ==> Magnitude(a, sqrt) != 0.0 && Magnitude(b, sqrt) != 0.0
    ensures r.Ok? ==> r.value == acos(Cosine(a, b, sqrt))
  {
    var mag := Magnitude(a, sqrt) * Magnitude(b, sqrt);
    if mag == 0.0 then Err(ZeroVector) else Ok(acos(Cosine(a, b, sqrt)))
  }

  /** If |d| exceeded m, d^2 would exceed m^2. */
  lemma SqBound(d: real, m: real)
    requires m >= 0.0 && Sq(d) <= Sq(m)
    ensures -m <= d <= m
  {
    if d > m {
      calc { Sq(d); d * d; > { assert d > 0.0; } m * d; >= m * m; Sq(m); }
    } else if d < -m {
      calc { Sq(d); (-d) * (-d); > { assert -d > 0.0; } m * (-d); >= m * m; Sq(m); }
    }
  }

  /** A number bounded by a positive m in absolute value, divided by m, lies in [-1, 1]. */
  lemma QuotientBound(c: real, d: real, m: real)
    requires m > 0.0 && -m <= d <= m && c * m == d
    ensures -1.0 <= c <= 1.0
  {
    if c > 1.0 {
      calc { d; c * m; > { assert (c - 1.0) * m > 0.0; } m; }
    } else if c < -1.0 {
      calc { d; c * m; < { assert (-1.0 - c) * m > 0.0; } -m; }
    }
  }

  /** The root of a product of squares bounds anything whose square it bounds. */
  lemma ProductBound(d: real, ma: real, mb: real)
    requires ma >= 0.0 && mb >= 0.0 && Sq(d) <= Sq(ma) * Sq(mb)
    ensures -(ma * mb) <= d <= ma * mb
  {
    calc { Sq(ma * mb); (ma * mb) * (ma * mb); (ma * ma) * (mb * mb); Sq(ma) * Sq(mb); }
    assert ma * mb >= 0.0;
    SqBound(d, ma * mb);
  }

  /** Lagrange's identity with a non-negative remainder bounds d by the product of the roots. */
  lemma SquareBelowProduct(d: real, rest: real, aa: real, bb: real, ma: real, mb: real)
    requires aa * bb == d * d + rest && rest >= 0.0
    requires ma >= 0.0 && mb >= 0.0 && Sq(ma) == aa && Sq(mb) == bb
    ensures -(ma * mb) <= d <= ma * mb
  {
    assert Sq(d) <= Sq(ma) * Sq(mb);
    ProductBound(d, ma, mb);
  }

  /** Cauchy-Schwarz: the dot is at most the product of the magnitudes, in absolute value. */
  lemma CauchySchwarz(a: Vector3, b: Vector3, sqrt: real -> real)
    requires IsSqrt(sqrt)
    ensures -(Magnitude(a, sqrt) * Magnitude(b, sqrt)) <= Dot(a, b)
            <= Magnitude(a, sqrt) * Magnitude(b, sqrt)
  {
    var ma, mb := Magnitude(a, sqrt), Magnitude(b, sqrt);
    var c := Cross(a, b);
    Lagrange(a, b);
    DotSelf(c);
    SquareBelowProduct(Dot(a, b), Dot(c, c), Dot(a, a), Dot(b, b), ma, mb);
  }

  /** The argument angle passes to acos lies in acos's domain [-1, 1]. */
  lemma CosineInRange(a: Vector3, b: Vector3, sqrt: real -> real)
    requires IsSqrt(sqrt) && !IsZero(a) && !IsZero(b)
    ensures Magnitude(a, sqrt) * Magnitude(b, sqrt) > 0.0
    ensures -1.0 <= Cosine(a, b, sqrt) <= 1.0
  {
    var ma, mb := Magnitude(a, sqrt), Magnitude(b, sqrt);
    assert ma > 0.0 && mb > 0.0;
    assert ma * mb > 0.0;
    CauchySchwarz(a, b, sqrt);
    QuotientBound(Cosine(a, b, sqrt), Dot(a, b), ma * mb);
  }

  /** A non-zero vector makes the angle acos(1) with itself. */
  lemma AngleSelf(a: Vector3, sqrt: real -> real, acos: real -> real)
    requires IsSqrt(sqrt) && !IsZero(a)
    ensures Angle(a, a, sqrt, acos) == Ok(acos(1.0))
  {
    var m := Magnitude(a, sqrt);
    assert Sq(m) == Dot(a, a) && m != 0.0;
    SqPositive(m);
    var c := Cosine(a, a, sqrt);
    assert m * m == Sq(m);
    UnitQuotient(c, m * m, Dot(a, a));
  }

  /** The angle does not depend on the order of the vectors. */
  lemma AngleSymmetric(a: Vector3, b: Vector3, sqrt: real -> real, acos: real -> real)
    ensures Angle(a, b, sqrt, acos) == Angle(b, a, sqrt, acos)
  {
    var ma, mb := Magnitude(a, sqrt), Magnitude(b, sqrt);
    if ma * mb != 0.0 {
      DotSymmetric(a, b);
      assert mb * ma == ma * mb;
    }
  }

  /** A quotient of a non-zero number by itself is one. */
  lemma UnitQuotient(c: real, p: real, d: real)
    requires p != 0.0 && c * p == d && d == p
    ensures c == 1.0
  {
    assert (c - 1.0) * p == 0.0;
  }

  // ---------------------------------------------------------------------------
  // project
  // ---------------------------------------------------------------------------

  /**
   * project(a, b): b scaled by (a.b) / |b|^2, in b's precision; an
   * ArithmeticException when b has zero magnitude. The projection lies along
   * b and has the same dot with b as a, so a minus it is perpendicular to b.
   */
  function Project(a: Vector3, b: Vector3, sqrt: real -> real): (r: Result<Vector3>)
    ensures IsSqrt(sqrt) ==> (r.Err? <==> IsZero(b))
    ensures r.Err? ==> r.fault == ZeroVector
    ensures r.Ok? ==> r.value.kind == b.kind
    ensures IsSqrt(sqrt) && r.Ok? ==> Dot(r.value, b) == Dot(a, b)
    ensures IsSqrt(sqrt) && r.Ok? ==> Dot(b, b) > 0.0 && r.value == Scale(b, Dot(a, b) / Dot(b, b))
  {
    var magB := Magnitude(b, sqrt);
    if magB == 0.0 then Err(ZeroVector)
    else
      SqPositive(magB);
      var scale := Dot(a, b) / Sq(magB);
      assert IsSqrt(sqrt) ==> scale == Dot(a, b) / Dot(b, b);
      DotScale(b, b, scale);
      Ok(Scale(b, scale))
  }

  /** A non-zero vector projects onto itself unchanged. */
  lemma ProjectOntoSelf(b: Vector3, sqrt: real -> real)
    requires IsSqrt(sqrt) && !IsZero(b)
    ensures Project(b, b, sqrt) == Ok(b)
  {
    var m := Magnitude(b, sqrt);
    SqPositive(m);
    assert Dot(b, b) / Sq(m) == 1.0;
    ScaleByOne(b);
  }

  /** Projecting a projection again changes nothing. */
  lemma ProjectIdempotent(a: Vector3, b: Vector3, sqrt: real -> real)
    requires IsSqrt(sqrt) && !IsZero(b)
    ensures Project(a, b, sqrt).Ok?
    ensures Project(Project(a, b, sqrt).value, b, sqrt) == Project(a, b, sqrt)
  {
    var p := Project(a, b, sqrt).value;
    assert Dot(p, b) == Dot(a, b);
  }

  /** A vector perpendicular to b projects onto b's zero vector. */
  lemma ProjectPerpendicular(a: Vector3, b: Vector3, sqrt: real -> real)
    requires IsSqrt(sqrt) && !IsZero(b) && Dot(a, b) == 0.0
    ensures Project(a, b, sqrt) == Ok(Vector3(b.kind, 0.0, 0.0, 0.0))
  {
    var m := Magnitude(b, sqrt);
    SqPositive(m);
    assert Dot(a, b) / Sq(m) == 0.0;
  }

  // ---------------------------------------------------------------------------
  // reflect
  // ---------------------------------------------------------------------------

  /**
   * reflect(a, n): a minus twice its component along the normalized n, in a's
   * precision; the ArithmeticException of normalize when n is zero.
   */
  function Reflect(a: Vector3, n: Vector3, sqrt: real -> real): (r: Result<Vector3>)
    ensures IsSqrt(sqrt) ==> (r.Err? <==> IsZero(n))
    ensures r.Err? ==> r.fault == ZeroVector
    ensures r.Ok? ==> r.value.kind == a.kind
  {
    match Normalize(n, sqrt)
    case Err(e) => Err(e)
    case Ok(unit) =>
      var dot := Dot(a, unit);
      Ok(Subtract(a, Scale(unit, 2.0 * dot)))
  }

  /** The mirror image of a in the plane perpendicular to the unit vector u, in a's precision. */
  function Mirror(a: Vector3, u: Vector3): Vector3 {
    Shift(a, u, 2.0 * Dot(a, u))
  }

  /** a less t times u, in a's precision. */
  function Shift(a: Vector3, u: Vector3, t: real): Vector3 {
    Vector3(a.kind, a.x - u.x * t, a.y - u.y * t, a.z - u.z * t)
  }

  /** Mirroring reverses the component along u. */
  lemma MirrorFlips(a: Vector3, u: Vector3)
    requires Dot(u, u) == 1.0
    ensures Dot(Mirror(a, u), u) == -Dot(a, u)
  {
    var t := 2.0 * Dot(a, u);
    calc {
      Dot(Mirror(a, u), u);
      (a.x - u.x * t) * u.x + (a.y - u.y * t) * u.y + (a.z - u.z * t) * u.z;
      Dot(a, u) - t * Dot(u, u);
    }
  }

  /** Mirroring twice gives the vector back. */
  lemma MirrorInvolution(a: Vector3, u: Vector3)
    requires Dot(u, u) == 1.0
    ensures Mirror(Mirror(a, u), u) == a
  {
    MirrorFlips(a, u);
  }

  /** Mirroring keeps the length. */
  lemma MirrorKeepsLength(a: Vector3, u: Vector3)
    requires Dot(u, u) == 1.0
    ensures Dot(Mirror(a, u), Mirror(a, u)) == Dot(a, a)
  {
    var d := Dot(a, u);
    var t := 2.0 * d;
    var r := Mirror(a, u);
    MirrorFlips(a, u);
    calc {
      Dot(r, r);
      (a.x - u.x * t) * r.x + (a.y - u.y * t) * r.y + (a.z - u.z * t) * r.z;
      Dot(a, r) - t * Dot(u, r);
      { assert Dot(u, r) == -d; }
      Dot(a, r) + t * d;
      (a.x * (a.x - u.x * t) + a.y * (a.y - u.y * t) + a.z * (a.z - u.z * t)) + t * d;
      Dot(a, a) - t * d + t * d;
    }
  }

  /**
   * reflect is the mirror image about the normalized n whenever a reads that
   * unit vector exactly.
   */
  lemma ReflectIsMirror(a: Vector3, n: Vector3, sqrt: real -> real)
    requires Normalize(n, sqrt).Ok? && ReadsExactly(a.kind, n.kind)
    ensures Reflect(a, n, sqrt) == Ok(Mirror(a, Normalize(n, sqrt).value))
  {
    var u := Normalize(n, sqrt).value;
    ReflectUnfold(a, n, sqrt);
    MirrorIsSubtract(a, u);
  }

  lemma ReflectUnfold(a: Vector3, n: Vector3, sqrt: real -> real)
    requires Normalize(n, sqrt).Ok?
    ensures var u := Normalize(n, sqrt).value;
            Reflect(a, n, sqrt) == Ok(Subtract(a, Scale(u, 2.0 * Dot(a, u))))
  {
  }

  lemma MirrorIsSubtract(a: Vector3, u: Vector3)
    requires ReadsExactly(a.kind, u.kind)
    ensures Subtract(a, Scale(u, 2.0 * Dot(a, u))) == Mirror(a, u)
  {
    SubtractScaled(a, u, 2.0 * Dot(a, u));
  }

  lemma SubtractScaled(a: Vector3, u: Vector3, t: real)
    requires ReadsExactly(a.kind, u.kind)
    ensures Subtract(a, Scale(u, t)) == Shift(a, u, t)
  {
    ExactArgument(a.kind, Scale(u, t));
  }

  /** Zero is a float value. */
  lemma ZeroIsBinary32()
    ensures IsBinary32(0.0)
  {
    FitsBinary32(0);
  }

  /** A vector perpendicular to the normal is its own reflection, whatever the kinds. */
  lemma ReflectPerpendicular(a: Vector3, n: Vector3, sqrt: real -> real)
    requires IsSqrt(sqrt) && !IsZero(n) && Dot(a, n) == 0.0
    ensures Reflect(a, n, sqrt) == Ok(a)
  {
    var u := Normalize(n, sqrt).value;
    var m := Magnitude(n, sqrt);
    assert u == Scale(n, 1.0 / m);
    DotScale(a, n, 1.0 / m);
    assert Dot(a, u) == 0.0;
    var w := Scale(u, 2.0 * Dot(a, u));
    assert w == Vector3(n.kind, 0.0, 0.0, 0.0);
    ZeroIsBinary32();
    assert ArgumentAs(a.kind, w) == w;
  }

  /** Reflecting reverses the component along the normal. */
  lemma ReflectFlipsNormal(a: Vector3, n: Vector3, sqrt: real -> real)
    requires IsSqrt(sqrt) && !IsZero(n) && ReadsExactly(a.kind, n.kind)
    ensures Reflect(a, n, sqrt).Ok?
    ensures Dot(Reflect(a, n, sqrt).value, Normalize(n, sqrt).value) == -Dot(a, Normalize(n, sqrt).value)
  {
    NormalizeUnit(n, sqrt);
    ReflectIsMirror(a, n, sqrt);
    MirrorFlips(a, Normalize(n, sqrt).value);
  }

  /** Reflecting twice about the same normal gives the vector back. */
  lemma ReflectInvolution(a: Vector3, n: Vector3, sqrt: real -> real)
    requires IsSqrt(sqrt) && !IsZero(n) && ReadsExactly(a.kind, n.kind)
    ensures Reflect(a, n, sqrt).Ok?
    ensures Reflect(Reflect(a, n, sqrt).value, n, sqrt) == Ok(a)
  {
    var u := Normalize(n, sqrt).value;
    NormalizeUnit(n, sqrt);
    ReflectIsMirror(a, n, sqrt);
    var r := Mirror(a, u);
    ReflectIsMirror(r, n, sqrt);
    MirrorInvolution(a, u);
  }

  /** Reflecting keeps the length. */
  lemma ReflectKeepsLength(a: Vector3, n: Vector3, sqrt: real -> real)
    requires IsSqrt(sqrt) && !IsZero(n) && ReadsExactly(a.kind, n.kind)
    ensures Reflect(a, n, sqrt).Ok?
    ensures Dot(Reflect(a, n, sqrt).value, Reflect(a, n, sqrt).value) == Dot(a, a)
  {
    NormalizeUnit(n, sqrt);
    ReflectIsMirror(a, n, sqrt);
    MirrorKeepsLength(a, Normalize(n, sqrt).value);
  }

  /** The reflection of the normal itself is its negation. */
  lemma ReflectNormal(n: Vector3, sqrt: real -> real)
    requires IsSqrt(sqrt) && !IsZero(n)
    ensures Reflect(n, n, sqrt) == Ok(Scale(n, -1.0))
  {
    ReflectIsMirror(n, n, sqrt);
    OwnDirection(n, sqrt);
    MirrorOfOwnDirection(n, Magnitude(n, sqrt), Normalize(n, sqrt).value);
  }

  /** A non-zero n is its magnitude times its direction, and n . direction is the magnitude. */
  lemma OwnDirection(n: Vector3, sqrt: real -> real)
    requires IsSqrt(sqrt) && !IsZero(n)
    ensures Normalize(n, sqrt).Ok? && Magnitude(n, sqrt) != 0.0
    ensures Normalize(n, sqrt).value == Scale(n, 1.0 / Magnitude(n, sqrt))
    ensures Dot(n, Normalize(n, sqrt).value) == Magnitude(n, sqrt)
  {
    var m := Magnitude(n, sqrt);
    var u := Normalize(n, sqrt).value;
    assert u == Scale(n, 1.0 / m);
    DotScale(n, n, 1.0 / m);
    assert Sq(m) == Dot(n, n) && m != 0.0;
    assert Dot(n, u) == (1.0 / m) * Sq(m);
  }

  /** Mirroring n about n / m, where n . (n / m) = m, gives -n. */
  lemma MirrorOfOwnDirection(n: Vector3, m: real, u: Vector3)
    requires m != 0.0 && u == Scale(n, 1.0 / m) && Dot(n, u) == m
    ensures Mirror(n, u) == Scale(n, -1.0)
  {
    assert (n.x * (1.0 / m)) * (2.0 * m) == 2.0 * n.x;
    assert (n.y * (1.0 / m)) * (2.0 * m) == 2.0 * n.y;
    assert (n.z * (1.0 / m)) * (2.0 * m) == 2.0 * n.z;
  }
}
