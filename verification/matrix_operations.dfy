/**
 * MatrixOperations: 4x4 products and the translation, rotation and scaling
 * matrices, over the row-major 16-element layout of a Matrix4. The float and
 * double variants build the same elements and differ only in the precision
 * of the record they return.
 */
module MatrixOperations {
  import opened Precision
  import opened Matrix

  /** The 16 row-major elements of a 4x4 matrix. */
  type Mat4 = s: seq<real> | |s| == 16 witness seq(16, _ => 0.0)

  /** The identity, built as the source builds it: 1 where index % 5 == 0. */
  function Identity(): (r: Mat4)
    ensures r == [1.0, 0.0, 0.0, 0.0,
                  0.0, 1.0, 0.0, 0.0,
                  0.0, 0.0, 1.0, 0.0,
                  0.0, 0.0, 0.0, 1.0]
  {
    seq(16, n => if n % 5 == 0 then 1.0 else 0.0)
  }

  /** Row i, elements 4i .. 4i + 3. */
  function Row(m: Mat4, i: nat): (r: seq<real>)
    requires i < 4
    ensures |r| == 4
  {
    [m[4 * i], m[4 * i + 1], m[4 * i + 2], m[4 * i + 3]]
  }

  /** Column j, elements j, 4 + j, 8 + j, 12 + j. */
  function Col(m: Mat4, j: nat): (r: seq<real>)
    requires j < 4
    ensures |r| == 4
  {
    [m[j], m[4 + j], m[8 + j], m[12 + j]]
  }

  function DotV(u: seq<real>, v: seq<real>): real
    requires |u| == 4 && |v| == 4
  {
    u[0] * v[0] + u[1] * v[1] + u[2] * v[2] + u[3] * v[3]
  }

  /** Row i of a times column j of b. */
  function Dot(a: Mat4, b: Mat4, i: nat, j: nat): real
    requires i < 4 && j < 4
  {
    DotV(Row(a, i), Col(b, j))
  }

  /** The matrix product a * b: element 4i + j is row i of a times column j of b. */
  function Product(a: Mat4, b: Mat4): Mat4 {
    seq(16, n requires 0 <= n < 16 => Dot(a, b, n / 4, n % 4))
  }

  /** Two 4x4 matrices with the same sixteen elements are equal. */
  lemma SameElements(s: seq<real>, t: seq<real>)
    requires |s| == 16 && |t| == 16
    requires s[0] == t[0] && s[1] == t[1] && s[2] == t[2] && s[3] == t[3]
    requires s[4] == t[4] && s[5] == t[5] && s[6] == t[6] && s[7] == t[7]
    requires s[8] == t[8] && s[9] == t[9] && s[10] == t[10] && s[11] == t[11]
    requires s[12] == t[12] && s[13] == t[13] && s[14] == t[14] && s[15] == t[15]
    ensures s == t
  {
    forall n | 0 <= n < 16
      ensures s[n] == t[n]
    {
      if n < 8 {
        if n < 4 {
        } else {
        }
      }
    }
  }

  /**
   * multiplyf / multiplyd: the triple loop, each element summed from zero
   * over k of a[i * 4 + k] * b[k * 4 + j].
   */
  method MultiplyElements(a: Mat4, b: Mat4) returns (r: Mat4)
    ensures r == Product(a, b)
  {
    r := seq(16, _ => 0.0);
    for i := 0 to 4
      invariant forall n | 0 <= n < 4 * i :: r[n] == Product(a, b)[n]
    {
      for j := 0 to 4
        invariant forall n | 0 <= n < 4 * i + j :: r[n] == Product(a, b)[n]
      {
        var sum := 0.0;
        for k := 0 to 4
          invariant sum == PartialDot(a, b, i, j, k)
        {
          sum := sum + a[i * 4 + k] * b[k * 4 + j];
        }
        PartialDotComplete(a, b, i, j);
        r := r[i * 4 + j := sum];
      }
    }
  }

  /** The first k terms of Dot(a, b, i, j). */
  function PartialDot(a: Mat4, b: Mat4, i: nat, j: nat, k: nat): (r: real)
    requires i < 4 && j < 4 && k <= 4
  {
    if k == 0 then 0.0 else PartialDot(a, b, i, j, k - 1) + a[i * 4 + k - 1] * b[(k - 1) * 4 + j]
  }

  /** After all four terms the loop's sum is the dot product. */
  lemma PartialDotComplete(a: Mat4, b: Mat4, i: nat, j: nat)
    requires i < 4 && j < 4
    ensures PartialDot(a, b, i, j, 4) == Dot(a, b, i, j)
  {
    assert PartialDot(a, b, i, j, 1) == a[4 * i] * b[j];
    assert PartialDot(a, b, i, j, 2) == PartialDot(a, b, i, j, 1) + a[4 * i + 1] * b[4 + j];
    assert PartialDot(a, b, i, j, 3) == PartialDot(a, b, i, j, 2) + a[4 * i + 2] * b[8 + j];
    assert PartialDot(a, b, i, j, 4) == PartialDot(a, b, i, j, 3) + a[4 * i + 3] * b[12 + j];
  }

  /** Two 4-vectors with the same coordinates are equal. */
  lemma SameCoordinates(s: seq<real>, t: seq<real>)
    requires |s| == 4 && |t| == 4
    requires s[0] == t[0] && s[1] == t[1] && s[2] == t[2] && s[3] == t[3]
    ensures s == t
  {
  }

  // ---------------------------------------------------------------------------
  // Algebra of the product
  // ---------------------------------------------------------------------------

  lemma IdentityNeutral(m: Mat4)
    ensures Product(Identity(), m) == m
    ensures Product(m, Identity()) == m
  {
    SameElements(Product(Identity(), m), m);
    SameElements(Product(m, Identity()), m);
  }

  /** The product is associative. */
  lemma ProductAssociative(a: Mat4, b: Mat4, c: Mat4)
    ensures Product(Product(a, b), c) == Product(a, Product(b, c))
  {
    forall n | 0 <= n < 16
      ensures Product(Product(a, b), c)[n] == Product(a, Product(b, c))[n]
    {
      AssociativeAt(a, b, c, n / 4, n % 4);
    }
  }

  lemma AssociativeAt(a: Mat4, b: Mat4, c: Mat4, i: nat, j: nat)
    requires i < 4 && j < 4
    ensures Dot(Product(a, b), c, i, j) == Dot(a, Product(b, c), i, j)
  {
    var ab, bc := Product(a, b), Product(b, c);
    assert Row(ab, i) == [Dot(a, b, i, 0), Dot(a, b, i, 1), Dot(a, b, i, 2), Dot(a, b, i, 3)];
    assert Col(bc, j) == [Dot(b, c, 0, j), Dot(b, c, 1, j), Dot(b, c, 2, j), Dot(b, c, 3, j)];
    DotRegroup(Row(a, i), Col(b, 0), Col(b, 1), Col(b, 2), Col(b, 3), Col(c, j));
    assert [Row(b, 0)[0], Row(b, 1)[0], Row(b, 2)[0], Row(b, 3)[0]] == Col(b, 0);
  }

  /**
   * u * (B * w) == (u * B) * w for a row u, the four columns of B and a
   * column w.
   */
  lemma DotRegroup(u: seq<real>, b0: seq<real>, b1: seq<real>, b2: seq<real>, b3: seq<real>, w: seq<real>)
    requires |u| == 4 && |b0| == 4 && |b1| == 4 && |b2| == 4 && |b3| == 4 && |w| == 4
    ensures DotV([DotV(u, b0), DotV(u, b1), DotV(u, b2), DotV(u, b3)], w)
            == DotV(u, [DotV([b0[0], b1[0], b2[0], b3[0]], w), DotV([b0[1], b1[1], b2[1], b3[1]], w),
                        DotV([b0[2], b1[2], b2[2], b3[2]], w), DotV([b0[3], b1[3], b2[3], b3[3]], w)])
  {
    RegroupLeft(u, b0, b1, b2, b3, w);
    RegroupRight(u, b0, b1, b2, b3, w);
    Regroup(u[0], u[1], u[2], u[3], b0[0], b0[1], b0[2], b0[3], b1[0], b1[1], b1[2], b1[3],
            b2[0], b2[1], b2[2], b2[3], b3[0], b3[1], b3[2], b3[3], w[0], w[1], w[2], w[3]);
  }

  /** (u * B) * w written out coordinate by coordinate. */
  lemma RegroupLeft(u: seq<real>, b0: seq<real>, b1: seq<real>, b2: seq<real>, b3: seq<real>, w: seq<real>)
    requires |u| == 4 && |b0| == 4 && |b1| == 4 && |b2| == 4 && |b3| == 4 && |w| == 4
    ensures DotV([DotV(u, b0), DotV(u, b1), DotV(u, b2), DotV(u, b3)], w)
            == (u[0] * b0[0] + u[1] * b0[1] + u[2] * b0[2] + u[3] * b0[3]) * w[0]
             + (u[0] * b1[0] + u[1] * b1[1] + u[2] * b1[2] + u[3] * b1[3]) * w[1]
             + (u[0] * b2[0] + u[1] * b2[1] + u[2] * b2[2] + u[3] * b2[3]) * w[2]
             + (u[0] * b3[0] + u[1] * b3[1] + u[2] * b3[2] + u[3] * b3[3]) * w[3]
  {
    DisplayDot(DotV(u, b0), DotV(u, b1), DotV(u, b2), DotV(u, b3), w);
  }

  /** u * (B * w) written out coordinate by coordinate. */
  lemma RegroupRight(u: seq<real>, b0: seq<real>, b1: seq<real>, b2: seq<real>, b3: seq<real>, w: seq<real>)
    requires |u| == 4 && |b0| == 4 && |b1| == 4 && |b2| == 4 && |b3| == 4 && |w| == 4
    ensures DotV(u, [DotV([b0[0], b1[0], b2[0], b3[0]], w), DotV([b0[1], b1[1], b2[1], b3[1]], w),
                     DotV([b0[2], b1[2], b2[2], b3[2]], w), DotV([b0[3], b1[3], b2[3], b3[3]], w)])
            == u[0] * (b0[0] * w[0] + b1[0] * w[1] + b2[0] * w[2] + b3[0] * w[3])
             + u[1] * (b0[1] * w[0] + b1[1] * w[1] + b2[1] * w[2] + b3[1] * w[3])
             + u[2] * (b0[2] * w[0] + b1[2] * w[1] + b2[2] * w[2] + b3[2] * w[3])
             + u[3] * (b0[3] * w[0] + b1[3] * w[1] + b2[3] * w[2] + b3[3] * w[3])
  {
    DotDisplay(u, DotV([b0[0], b1[0], b2[0], b3[0]], w), DotV([b0[1], b1[1], b2[1], b3[1]], w),
               DotV([b0[2], b1[2], b2[2], b3[2]], w), DotV([b0[3], b1[3], b2[3], b3[3]], w));
    DisplayDot(b0[0], b1[0], b2[0], b3[0], w);
    DisplayDot(b0[1], b1[1], b2[1], b3[1], w);
    DisplayDot(b0[2], b1[2], b2[2], b3[2], w);
    DisplayDot(b0[3], b1[3], b2[3], b3[3], w);
  }

  lemma DisplayDot(x0: real, x1: real, x2: real, x3: real, w: seq<real>)
    requires |w| == 4
    ensures DotV([x0, x1, x2, x3], w) == x0 * w[0] + x1 * w[1] + x2 * w[2] + x3 * w[3]
  {
  }

  lemma DotDisplay(u: seq<real>, y0: real, y1: real, y2: real, y3: real)
    requires |u| == 4
    ensures DotV(u, [y0, y1, y2, y3]) == u[0] * y0 + u[1] * y1 + u[2] * y2 + u[3] * y3
  {
  }

  /** The same identity on the 24 coordinates: sixteen products summed in either order. */
  lemma Regroup(u0: real, u1: real, u2: real, u3: real,
                a0: real, a1: real, a2: real, a3: real,
                b0: real, b1: real, b2: real, b3: real,
                c0: real, c1: real, c2: real, c3: real,
                d0: real, d1: real, d2: real, d3: real,
                w0: real, w1: real, w2: real, w3: real)
    ensures (u0 * a0 + u1 * a1 + u2 * a2 + u3 * a3) * w0 + (u0 * b0 + u1 * b1 + u2 * b2 + u3 * b3) * w1
          + (u0 * c0 + u1 * c1 + u2 * c2 + u3 * c3) * w2 + (u0 * d0 + u1 * d1 + u2 * d2 + u3 * d3) * w3
         == u0 * (a0 * w0 + b0 * w1 + c0 * w2 + d0 * w3) + u1 * (a1 * w0 + b1 * w1 + c1 * w2 + d1 * w3)
          + u2 * (a2 * w0 + b2 * w1 + c2 * w2 + d2 * w3) + u3 * (a3 * w0 + b3 * w1 + c3 * w2 + d3 * w3)
  {
  }

  // ---------------------------------------------------------------------------
  // The transformation matrices
  // ---------------------------------------------------------------------------

  /** translation(x, y, z): the offset in the last column. */
  function TranslationElements(x: real, y: real, z: real): Mat4 {
    [1.0, 0.0, 0.0, x,
     0.0, 1.0, 0.0, y,
     0.0, 0.0, 1.0, z,
     0.0, 0.0, 0.0, 1.0]
  }

  /** scaling(x, y, z): the factors on the diagonal. */
  function ScalingElements(x: real, y: real, z: real): Mat4 {
    [x, 0.0, 0.0, 0.0,
     0.0, y, 0.0, 0.0,
     0.0, 0.0, z, 0.0,
     0.0, 0.0, 0.0, 1.0]
  }

  /** rotationX with c = cos(angle), s = sin(angle). */
  function RotationXElements(c: real, s: real): Mat4 {
    [1.0, 0.0, 0.0, 0.0,
     0.0, c, -s, 0.0,
     0.0, s, c, 0.0,
     0.0, 0.0, 0.0, 1.0]
  }

  /** rotationY with c = cos(angle), s = sin(angle). */
  function RotationYElements(c: real, s: real): Mat4 {
    [c, 0.0, s, 0.0,
     0.0, 1.0, 0.0, 0.0,
     -s, 0.0, c, 0.0,
     0.0, 0.0, 0.0, 1.0]
  }

  /** rotationZ with c = cos(angle), s = sin(angle). */
  function RotationZElements(c: real, s: real): Mat4 {
    [c, -s, 0.0, 0.0,
     s, c, 0.0, 0.0,
     0.0, 0.0, 1.0, 0.0,
     0.0, 0.0, 0.0, 1.0]
  }

  /** m applied to the column vector (x, y, z, w). */
  function Apply(m: Mat4, x: real, y: real, z: real, w: real): (r: seq<real>)
    ensures |r| == 4
  {
    [m[0] * x + m[1] * y + m[2] * z + m[3] * w,
     m[4] * x + m[5] * y + m[6] * z + m[7] * w,
     m[8] * x + m[9] * y + m[10] * z + m[11] * w,
     m[12] * x + m[13] * y + m[14] * z + m[15] * w]
  }

  /** A translation moves a point by its offset and leaves directions alone. */
  lemma TranslationMovesPoints(tx: real, ty: real, tz: real, x: real, y: real, z: real)
    ensures Apply(TranslationElements(tx, ty, tz), x, y, z, 1.0) == [x + tx, y + ty, z + tz, 1.0]
    ensures Apply(TranslationElements(tx, ty, tz), x, y, z, 0.0) == [x, y, z, 0.0]
  {
  }

  /** A scaling multiplies each coordinate by its factor. */
  lemma ScalingScalesPoints(sx: real, sy: real, sz: real, x: real, y: real, z: real)
    ensures Apply(ScalingElements(sx, sy, sz), x, y, z, 1.0) == [sx * x, sy * y, sz * z, 1.0]
  {
    SameCoordinates(Apply(ScalingElements(sx, sy, sz), x, y, z, 1.0), [sx * x, sy * y, sz * z, 1.0]);
  }

  /** m moves every point (w = 1) by (tx, ty, tz) and leaves directions (w = 0) alone. */
  ghost predicate Translates(m: Mat4, tx: real, ty: real, tz: real) {
    forall x, y, z, w :: Apply(m, x, y, z, w) == [x + tx * w, y + ty * w, z + tz * w, w]
  }

  /** m multiplies x, y and z by their factors and keeps w. */
  ghost predicate Scales(m: Mat4, sx: real, sy: real, sz: real) {
    forall x, y, z, w :: Apply(m, x, y, z, w) == [sx * x, sy * y, sz * z, w]
  }

  /** m keeps x and w and turns the (y, z) plane by the angle with cosine c and sine s. */
  ghost predicate RotatesAboutX(m: Mat4, c: real, s: real) {
    forall x, y, z, w :: Apply(m, x, y, z, w) == [x, c * y - s * z, s * y + c * z, w]
  }

  /** m keeps y and w and turns the (z, x) plane. */
  ghost predicate RotatesAboutY(m: Mat4, c: real, s: real) {
    forall x, y, z, w :: Apply(m, x, y, z, w) == [c * x + s * z, y, c * z - s * x, w]
  }

  /** m keeps z and w and turns the (x, y) plane. */
  ghost predicate RotatesAboutZ(m: Mat4, c: real, s: real) {
    forall x, y, z, w :: Apply(m, x, y, z, w) == [c * x - s * y, s * x + c * y, z, w]
  }

  /** A translation adds w times its offset: points move, directions stay. */
  lemma TranslationMap(tx: real, ty: real, tz: real)
    ensures Translates(TranslationElements(tx, ty, tz), tx, ty, tz)
  {
    var t := TranslationElements(tx, ty, tz);
    forall x, y, z, w
      ensures Apply(t, x, y, z, w) == [x + tx * w, y + ty * w, z + tz * w, w]
    {
      assert t[0] == 1.0 && t[1] == 0.0 && t[2] == 0.0 && t[3] == tx;
      assert t[4] == 0.0 && t[5] == 1.0 && t[6] == 0.0 && t[7] == ty;
      assert t[8] == 0.0 && t[9] == 0.0 && t[10] == 1.0 && t[11] == tz;
      assert t[12] == 0.0 && t[13] == 0.0 && t[14] == 0.0 && t[15] == 1.0;
      SameCoordinates(Apply(t, x, y, z, w), [x + tx * w, y + ty * w, z + tz * w, w]);
    }
  }

  /** A scaling multiplies x, y and z by their factors and keeps w. */
  lemma ScalingMap(sx: real, sy: real, sz: real)
    ensures Scales(ScalingElements(sx, sy, sz), sx, sy, sz)
  {
    forall x, y, z, w {
      SameCoordinates(Apply(ScalingElements(sx, sy, sz), x, y, z, w), [sx * x, sy * y, sz * z, w]);
    }
  }

  /** rotationX keeps x and w and turns the (y, z) plane counter-clockwise. */
  lemma RotationXMap(c: real, s: real)
    ensures RotatesAboutX(RotationXElements(c, s), c, s)
  {
    forall x, y, z, w {
      SameCoordinates(Apply(RotationXElements(c, s), x, y, z, w), [x, c * y - s * z, s * y + c * z, w]);
    }
  }

  /** rotationY keeps y and w and turns the (z, x) plane counter-clockwise. */
  lemma RotationYMap(c: real, s: real)
    ensures RotatesAboutY(RotationYElements(c, s), c, s)
  {
    forall x, y, z, w {
      SameCoordinates(Apply(RotationYElements(c, s), x, y, z, w), [c * x + s * z, y, c * z - s * x, w]);
    }
  }

  /** rotationZ keeps z and w and turns the (x, y) plane counter-clockwise. */
  lemma RotationZMap(c: real, s: real)
    ensures RotatesAboutZ(RotationZElements(c, s), c, s)
  {
    forall x, y, z, w {
      SameCoordinates(Apply(RotationZElements(c, s), x, y, z, w), [c * x - s * y, s * x + c * y, z, w]);
    }
  }

  /**
   * The rotations are counter-clockwise about their axis: each fixes its own
   * axis and w, takes the next axis' unit vector to (cos, sin) in the plane
   * it turns, and the one after that to (-sin, cos).
   */
  lemma RotationsTurnAxes(c: real, s: real)
    ensures Apply(RotationXElements(c, s), 1.0, 0.0, 0.0, 0.0) == [1.0, 0.0, 0.0, 0.0]
    ensures Apply(RotationXElements(c, s), 0.0, 1.0, 0.0, 0.0) == [0.0, c, s, 0.0]
    ensures Apply(RotationXElements(c, s), 0.0, 0.0, 1.0, 0.0) == [0.0, -s, c, 0.0]
    ensures Apply(RotationXElements(c, s), 0.0, 0.0, 0.0, 1.0) == [0.0, 0.0, 0.0, 1.0]
    ensures Apply(RotationYElements(c, s), 1.0, 0.0, 0.0, 0.0) == [c, 0.0, -s, 0.0]
    ensures Apply(RotationYElements(c, s), 0.0, 1.0, 0.0, 0.0) == [0.0, 1.0, 0.0, 0.0]
    ensures Apply(RotationYElements(c, s), 0.0, 0.0, 1.0, 0.0) == [s, 0.0, c, 0.0]
    ensures Apply(RotationYElements(c, s), 0.0, 0.0, 0.0, 1.0) == [0.0, 0.0, 0.0, 1.0]
    ensures Apply(RotationZElements(c, s), 1.0, 0.0, 0.0, 0.0) == [c, s, 0.0, 0.0]
    ensures Apply(RotationZElements(c, s), 0.0, 1.0, 0.0, 0.0) == [-s, c, 0.0, 0.0]
    ensures Apply(RotationZElements(c, s), 0.0, 0.0, 1.0, 0.0) == [0.0, 0.0, 1.0, 0.0]
    ensures Apply(RotationZElements(c, s), 0.0, 0.0, 0.0, 1.0) == [0.0, 0.0, 0.0, 1.0]
  {
    RotationXMap(c, s);
    RotationYMap(c, s);
    RotationZMap(c, s);
  }

  /** Successive translations add their offsets. */
  lemma TranslationsCompose(x1: real, y1: real, z1: real, x2: real, y2: real, z2: real)
    ensures Product(TranslationElements(x1, y1, z1), TranslationElements(x2, y2, z2))
            == TranslationElements(x1 + x2, y1 + y2, z1 + z2)
  {
    SameElements(Product(TranslationElements(x1, y1, z1), TranslationElements(x2, y2, z2)),
                 TranslationElements(x1 + x2, y1 + y2, z1 + z2));
  }

  /** Successive scalings multiply their factors. */
  lemma ScalingsCompose(x1: real, y1: real, z1: real, x2: real, y2: real, z2: real)
    ensures Product(ScalingElements(x1, y1, z1), ScalingElements(x2, y2, z2))
            == ScalingElements(x1 * x2, y1 * y2, z1 * z2)
  {
    SameElements(Product(ScalingElements(x1, y1, z1), ScalingElements(x2, y2, z2)),
                 ScalingElements(x1 * x2, y1 * y2, z1 * z2));
  }

  /**
   * Successive rotations about one axis compose by the angle-addition
   * formulas: (c1, s1) then (c2, s2) is (c1 c2 - s1 s2, s1 c2 + c1 s2).
   */
  lemma RotationsCompose(c1: real, s1: real, c2: real, s2: real)
    ensures Product(RotationXElements(c1, s1), RotationXElements(c2, s2))
            == RotationXElements(c1 * c2 - s1 * s2, s1 * c2 + c1 * s2)
    ensures Product(RotationYElements(c1, s1), RotationYElements(c2, s2))
            == RotationYElements(c1 * c2 - s1 * s2, s1 * c2 + c1 * s2)
    ensures Product(RotationZElements(c1, s1), RotationZElements(c2, s2))
            == RotationZElements(c1 * c2 - s1 * s2, s1 * c2 + c1 * s2)
  {
    var c, s := c1 * c2 - s1 * s2, s1 * c2 + c1 * s2;
    SameElements(Product(RotationXElements(c1, s1), RotationXElements(c2, s2)), RotationXElements(c, s));
    SameElements(Product(RotationYElements(c1, s1), RotationYElements(c2, s2)), RotationYElements(c, s));
    SameElements(Product(RotationZElements(c1, s1), RotationZElements(c2, s2)), RotationZElements(c, s));
  }

  /** With cos^2 + sin^2 = 1 a rotation is undone by its transpose, the rotation by -angle. */
  lemma RotationsOrthogonal(c: real, s: real)
    requires c * c + s * s == 1.0
    ensures Product(RotationXElements(c, s), RotationXElements(c, -s)) == Identity()
    ensures Product(RotationYElements(c, s), RotationYElements(c, -s)) == Identity()
    ensures Product(RotationZElements(c, s), RotationZElements(c, -s)) == Identity()
  {
    SameElements(Product(RotationXElements(c, s), RotationXElements(c, -s)), Identity());
    SameElements(Product(RotationYElements(c, s), RotationYElements(c, -s)), Identity());
    SameElements(Product(RotationZElements(c, s), RotationZElements(c, -s)), Identity());
  }

  // ---------------------------------------------------------------------------
  // The operations as the source exposes them, returning Matrix4 records
  // ---------------------------------------------------------------------------

  /** A Matrix4 record of precision kind over the given elements. */
  function Matrix4(kind: RealKind, e: Mat4): (m: Matrix)
    ensures m.Valid() && m.shape == M4x4 && m.kind == kind && m.elements == e
  {
    Matrix(M4x4, kind, e)
  }

  /** A Matrix4's elements as at(index) reads them. */
  function Elements(m: Matrix): (e: Mat4)
    requires m.Valid() && m.shape == M4x4
    ensures e == m.elements
  {
    m.elements
  }

  /**
   * multiplyf (kind Float) and multiplyd (kind Double); multiply is multiplyd.
   * Element (i, j) of the result is row i of a times column j of b.
   */
  function Multiply(kind: RealKind, a: Matrix, b: Matrix): (r: Matrix)
    requires a.Valid() && a.shape == M4x4 && b.Valid() && b.shape == M4x4
    ensures r.Valid() && r.shape == M4x4 && r.kind == kind
    ensures forall i: nat, j: nat | i < 4 && j < 4 ::
              r.elements[4 * i + j] == Dot(a.elements, b.elements, i, j)
  {
    Matrix4(kind, Product(a.elements, b.elements))
  }

  /** translationf / translationd; translation is translationd. */
  function Translation(kind: RealKind, x: real, y: real, z: real): (r: Matrix)
    ensures r.Valid() && r.shape == M4x4 && r.kind == kind
    ensures Apply(Elements(r), 0.0, 0.0, 0.0, 1.0) == [x, y, z, 1.0]
    ensures Translates(Elements(r), x, y, z)
  {
    TranslationMap(x, y, z);
    Matrix4(kind, TranslationElements(x, y, z))
  }

  /** scalingf / scalingd; scaling is scalingd. */
  function Scaling(kind: RealKind, x: real, y: real, z: real): (r: Matrix)
    ensures r.Valid() && r.shape == M4x4 && r.kind == kind
    ensures Apply(Elements(r), 1.0, 1.0, 1.0, 1.0) == [x, y, z, 1.0]
    ensures Scales(Elements(r), x, y, z)
  {
    ScalingMap(x, y, z);
    Matrix4(kind, ScalingElements(x, y, z))
  }

  /**
   * rotationXf / rotationXd; rotationX is rotationXd. The host's Math.cos and
   * Math.sin are parameters.
   */
  function RotationX(kind: RealKind, angle: real, cos: real -> real, sin: real -> real): (r: Matrix)
    ensures r.Valid() && r.shape == M4x4 && r.kind == kind
    ensures Apply(Elements(r), 0.0, 1.0, 0.0, 0.0) == [0.0, cos(angle), sin(angle), 0.0]
    ensures RotatesAboutX(Elements(r), cos(angle), sin(angle))
  {
    var c, s := cos(angle), sin(angle);
    RotationsTurnAxes(c, s);
    RotationXMap(c, s);
    Matrix4(kind, RotationXElements(c, s))
  }

  /** rotationYf / rotationYd; rotationY is rotationYd. */
  function RotationY(kind: RealKind, angle: real, cos: real -> real, sin: real -> real): (r: Matrix)
    ensures r.Valid() && r.shape == M4x4 && r.kind == kind
    ensures Apply(Elements(r), 0.0, 0.0, 1.0, 0.0) == [sin(angle), 0.0, cos(angle), 0.0]
    ensures RotatesAboutY(Elements(r), cos(angle), sin(angle))
  {
    var c, s := cos(angle), sin(angle);
    RotationsTurnAxes(c, s);
    RotationYMap(c, s);
    Matrix4(kind, RotationYElements(c, s))
  }

  /** rotationZf / rotationZd; rotationZ is rotationZd, and rotationZj builds the same double matrix. */
  function RotationZ(kind: RealKind, angle: real, cos: real -> real, sin: real -> real): (r: Matrix)
    ensures r.Valid() && r.shape == M4x4 && r.kind == kind
    ensures Apply(Elements(r), 1.0, 0.0, 0.0, 0.0) == [cos(angle), sin(angle), 0.0, 0.0]
    ensures RotatesAboutZ(Elements(r), cos(angle), sin(angle))
  {
    var c, s := cos(angle), sin(angle);
    RotationsTurnAxes(c, s);
    RotationZMap(c, s);
    Matrix4(kind, RotationZElements(c, s))
  }
}
