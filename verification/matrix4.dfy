/**
 * Matrix4Transforms: the instance operations of the Matrix4f and Matrix4d
 * records. Each multiplies the receiver on the right by another matrix (an
 * argument, or a double translation, rotation or scaling matrix) or inverts
 * it, and returns a record of the receiver's own precision.
 *
 * Right multiplication means the argument's transformation is applied to a
 * point first and the receiver's after it; the lemmas below state each
 * operation in those terms.
 */
module Matrix4Transforms {
  import opened Wrappers
  import opened Precision
  import opened Matrix
  import opened MatrixOperations
  import opened Inversion

  /** A Matrix4f or Matrix4d record. */
  predicate IsMatrix4(m: Matrix) {
    m.Valid() && m.shape == M4x4
  }

  /** Applying a product applies the right factor first. */
  lemma ApplyProduct(a: Mat4, b: Mat4, x: real, y: real, z: real, w: real)
    ensures var v := Apply(b, x, y, z, w);
            Apply(Product(a, b), x, y, z, w) == Apply(a, v[0], v[1], v[2], v[3])
  {
    var v := Apply(b, x, y, z, w);
    ApplyProductAt(a, b, [x, y, z, w], 0);
    ApplyProductAt(a, b, [x, y, z, w], 1);
    ApplyProductAt(a, b, [x, y, z, w], 2);
    ApplyProductAt(a, b, [x, y, z, w], 3);
    SameCoordinates(Apply(Product(a, b), x, y, z, w), Apply(a, v[0], v[1], v[2], v[3]));
  }

  /** r acts on every point as m acts on t's image of it: t applies first. */
  ghost predicate AppliesAfter(r: Mat4, m: Mat4, t: Mat4) {
    forall x, y, z, w :: Apply(r, x, y, z, w)
                         == var v := Apply(t, x, y, z, w); Apply(m, v[0], v[1], v[2], v[3])
  }

  /** The product a * b applies b first and a after it, at every point. */
  lemma ProductAppliesAfter(a: Mat4, b: Mat4)
    ensures AppliesAfter(Product(a, b), a, b)
  {
    forall x, y, z, w {
      ApplyProduct(a, b, x, y, z, w);
    }
  }

  /** Coordinate r of m applied to p is row r of m times p. */
  lemma ApplyIsDot(m: Mat4, p: seq<real>, r: nat)
    requires |p| == 4 && r < 4
    ensures Apply(m, p[0], p[1], p[2], p[3])[r] == DotV(Row(m, r), p)
  {
    if r == 0 {
    } else if r == 1 {
    } else if r == 2 {
    } else {
    }
  }

  lemma ApplyProductAt(a: Mat4, b: Mat4, p: seq<real>, r: nat)
    requires |p| == 4 && r < 4
    ensures var v := Apply(b, p[0], p[1], p[2], p[3]);
            Apply(Product(a, b), p[0], p[1], p[2], p[3])[r] == Apply(a, v[0], v[1], v[2], v[3])[r]
  {
    var v := Apply(b, p[0], p[1], p[2], p[3]);
    var ab := Product(a, b);
    ApplyIsDot(ab, p, r);
    ApplyIsDot(a, v, r);
    ApplyIsDot(b, p, 0);
    ApplyIsDot(b, p, 1);
    ApplyIsDot(b, p, 2);
    ApplyIsDot(b, p, 3);
    ProductAt(a, b, r, 0);
    ProductAt(a, b, r, 1);
    ProductAt(a, b, r, 2);
    ProductAt(a, b, r, 3);
    assert Row(ab, r) == [Dot(a, b, r, 0), Dot(a, b, r, 1), Dot(a, b, r, 2), Dot(a, b, r, 3)];
    DotRegroup(Row(a, r), Col(b, 0), Col(b, 1), Col(b, 2), Col(b, 3), p);
    assert v == [DotV(Row(b, 0), p), DotV(Row(b, 1), p), DotV(Row(b, 2), p), DotV(Row(b, 3), p)];
  }

  /**
   * multiply(other): multiplyf or multiplyd of the receiver and other, by
   * the receiver's precision. Its elements are the product, receiver on the
   * left, so other's transformation applies first (ApplyProduct).
   */
  function MultiplyBy(m: Matrix, other: Matrix): (r: Matrix)
    requires IsMatrix4(m) && IsMatrix4(other)
    ensures IsMatrix4(r) && r.kind == m.kind
    ensures r.elements == Product(m.elements, other.elements)
  {
    Multiply(m.kind, m, other)
  }

  /** The receiver of multiply(other) acts on other's image of a point. */
  lemma MultiplyByComposes(m: Matrix, other: Matrix, x: real, y: real, z: real, w: real)
    requires IsMatrix4(m) && IsMatrix4(other)
    ensures var v := Apply(other.elements, x, y, z, w);
            Apply(MultiplyBy(m, other).elements, x, y, z, w) == Apply(m.elements, v[0], v[1], v[2], v[3])
  {
    ApplyProduct(m.elements, other.elements, x, y, z, w);
  }

  /** translate(x, y, z): the receiver applied after a move by (x, y, z). */
  function Translate(m: Matrix, x: real, y: real, z: real): (r: Matrix)
    requires IsMatrix4(m)
    ensures IsMatrix4(r) && r.kind == m.kind
    ensures Apply(r.elements, 0.0, 0.0, 0.0, 1.0) == Apply(m.elements, x, y, z, 1.0)
    ensures AppliesAfter(r.elements, m.elements, Elements(Translation(Double, x, y, z)))
  {
    TranslateMovesPoints(m, x, y, z, 0.0, 0.0, 0.0);
    ProductAppliesAfter(m.elements, TranslationElements(x, y, z));
    MultiplyBy(m, Translation(Double, x, y, z))
  }

  lemma TranslateMovesPoints(m: Matrix, x: real, y: real, z: real, px: real, py: real, pz: real)
    requires IsMatrix4(m)
    ensures Apply(Product(m.elements, TranslationElements(x, y, z)), px, py, pz, 1.0)
            == Apply(m.elements, px + x, py + y, pz + z, 1.0)
  {
    TranslationMovesPoints(x, y, z, px, py, pz);
    ApplyProduct(m.elements, TranslationElements(x, y, z), px, py, pz, 1.0);
  }

  /** scale(x, y, z): the receiver applied after scaling each coordinate. */
  function Scale(m: Matrix, x: real, y: real, z: real): (r: Matrix)
    requires IsMatrix4(m)
    ensures IsMatrix4(r) && r.kind == m.kind
    ensures Apply(r.elements, 1.0, 1.0, 1.0, 1.0) == Apply(m.elements, x, y, z, 1.0)
    ensures AppliesAfter(r.elements, m.elements, Elements(Scaling(Double, x, y, z)))
  {
    var s := Scaling(Double, x, y, z);
    ProductAppliesAfter(m.elements, s.elements);
    MultiplyByComposes(m, s, 1.0, 1.0, 1.0, 1.0);
    MultiplyBy(m, s)
  }

  lemma ScaleScalesPoints(m: Matrix, x: real, y: real, z: real, px: real, py: real, pz: real)
    requires IsMatrix4(m)
    ensures Apply(Product(m.elements, ScalingElements(x, y, z)), px, py, pz, 1.0)
            == Apply(m.elements, x * px, y * py, z * pz, 1.0)
  {
    ScalingScalesPoints(x, y, z, px, py, pz);
    ApplyProduct(m.elements, ScalingElements(x, y, z), px, py, pz, 1.0);
  }

  /** rotateX(angle), rotateY(angle), rotateZ(angle), with the host's cos and sin. */
  function RotateX(m: Matrix, angle: real, cos: real -> real, sin: real -> real): (r: Matrix)
    requires IsMatrix4(m)
    ensures IsMatrix4(r) && r.kind == m.kind
    ensures Apply(r.elements, 0.0, 1.0, 0.0, 0.0) == Apply(m.elements, 0.0, cos(angle), sin(angle), 0.0)
    ensures AppliesAfter(r.elements, m.elements, Elements(RotationX(Double, angle, cos, sin)))
  {
    var t := RotationX(Double, angle, cos, sin);
    MultiplyByComposes(m, t, 0.0, 1.0, 0.0, 0.0);
    ProductAppliesAfter(m.elements, t.elements);
    MultiplyBy(m, t)
  }

  function RotateY(m: Matrix, angle: real, cos: real -> real, sin: real -> real): (r: Matrix)
    requires IsMatrix4(m)
    ensures IsMatrix4(r) && r.kind == m.kind
    ensures Apply(r.elements, 0.0, 0.0, 1.0, 0.0) == Apply(m.elements, sin(angle), 0.0, cos(angle), 0.0)
    ensures AppliesAfter(r.elements, m.elements, Elements(RotationY(Double, angle, cos, sin)))
  {
    var t := RotationY(Double, angle, cos, sin);
    MultiplyByComposes(m, t, 0.0, 0.0, 1.0, 0.0);
    ProductAppliesAfter(m.elements, t.elements);
    MultiplyBy(m, t)
  }

  function RotateZ(m: Matrix, angle: real, cos: real -> real, sin: real -> real): (r: Matrix)
    requires IsMatrix4(m)
    ensures IsMatrix4(r) && r.kind == m.kind
    ensures Apply(r.elements, 1.0, 0.0, 0.0, 0.0) == Apply(m.elements, cos(angle), sin(angle), 0.0, 0.0)
    ensures AppliesAfter(r.elements, m.elements, Elements(RotationZ(Double, angle, cos, sin)))
  {
    var t := RotationZ(Double, angle, cos, sin);
    MultiplyByComposes(m, t, 1.0, 0.0, 0.0, 0.0);
    ProductAppliesAfter(m.elements, t.elements);
    MultiplyBy(m, t)
  }

  /** invert(): invertf or invertd of the receiver; None for null. */
  function InvertSelf(m: Matrix): (r: Option<Matrix>)
    requires IsMatrix4(m)
    ensures r.Some? ==> IsMatrix4(r.value) && r.value.kind == m.kind
    ensures r.Some? ==> Product(r.value.elements, m.elements) == Identity()
                        && Product(m.elements, r.value.elements) == Identity()
  {
    InvertMatrix(m.kind, m)
  }

  /** Two translations in a row are one translation by the sum. */
  lemma TranslateTwice(m: Matrix, x1: real, y1: real, z1: real, x2: real, y2: real, z2: real)
    requires IsMatrix4(m)
    ensures Translate(Translate(m, x1, y1, z1), x2, y2, z2).elements
            == Translate(m, x1 + x2, y1 + y2, z1 + z2).elements
  {
    ProductAssociative(m.elements, TranslationElements(x1, y1, z1), TranslationElements(x2, y2, z2));
    TranslationsCompose(x1, y1, z1, x2, y2, z2);
  }

  /** Translating by zero and scaling by one leave the elements unchanged. */
  lemma NeutralTransforms(m: Matrix)
    requires IsMatrix4(m)
    ensures Translate(m, 0.0, 0.0, 0.0).elements == m.elements
    ensures Scale(m, 1.0, 1.0, 1.0).elements == m.elements
  {
    SameElements(TranslationElements(0.0, 0.0, 0.0), Identity());
    SameElements(ScalingElements(1.0, 1.0, 1.0), Identity());
    IdentityNeutral(m.elements);
  }

  /** Undoing: a translation followed by the opposite translation gives the receiver's elements back. */
  lemma TranslateBack(m: Matrix, x: real, y: real, z: real)
    requires IsMatrix4(m)
    ensures Translate(Translate(m, x, y, z), -x, -y, -z).elements == m.elements
  {
    var e := m.elements;
    var t1, t2 := TranslationElements(x, y, z), TranslationElements(-x, -y, -z);
    assert Translate(Translate(m, x, y, z), -x, -y, -z).elements == Product(Product(e, t1), t2);
    ProductAssociative(e, t1, t2);
    TranslationsCancel(x, y, z);
    IdentityNeutral(e);
  }

  lemma TranslationsCancel(x: real, y: real, z: real)
    ensures Product(TranslationElements(x, y, z), TranslationElements(-x, -y, -z)) == Identity()
  {
    TranslationsCompose(x, y, z, -x, -y, -z);
    SameElements(TranslationElements(x + -x, y + -y, z + -z), Identity());
  }

  /** Multiplying a record by its inverse gives the identity in the receiver's precision. */
  lemma MultiplyByInverse(m: Matrix)
    requires IsMatrix4(m) && InvertSelf(m).Some?
    ensures MultiplyBy(m, InvertSelf(m).value).elements == Identity()
    ensures MultiplyBy(m, InvertSelf(m).value).kind == m.kind
  {
  }
}
