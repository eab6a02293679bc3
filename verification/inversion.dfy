/**
 * Inversion: invertf / invertd, Gauss-Jordan elimination without row
 * exchanges. The working copy `mat` starts as the input and `inv` as the
 * identity; for each diagonal position in turn the pivot row of both is
 * divided by the pivot and that column is cleared from every other row by
 * subtracting a multiple of the pivot row. A pivot whose magnitude is below
 * 1e-10 ends the inversion with null.
 *
 * The row operations are stated as functions on the 16 row-major elements;
 * the correctness proof carries, next to `mat` and `inv`, a ghost matrix F
 * that undoes the operations applied so far, which gives both
 * inv * m == I and m * inv == I.
 */
module Inversion {
  import opened Numeric
  import opened Wrappers
  import opened Precision
  import opened Matrix
  import opened MatrixOperations

  /**
   * The double literal 1e-10 the pivot is compared against, exactly: the
   * double nearest to 10^-10 is 7737125245533627 * 2^-86. A float pivot is
   * widened to double for the comparison, so both variants use this bound.
   */
  const PIVOT_EPSILON: real := 7737125245533627.0 / 77371252455336267181195264.0

  // ---------------------------------------------------------------------------
  // Row operations and their column duals
  // ---------------------------------------------------------------------------

  /** Row i divided by p. */
  function DivideRow(m: Mat4, i: nat, p: real): (r: Mat4)
    requires i < 4 && p != 0.0
  {
    seq(16, n requires 0 <= n < 16 => if n / 4 == i then m[n] / p else m[n])
  }

  /** Row k minus f times row i. */
  function SubtractRow(m: Mat4, k: nat, i: nat, f: real): (r: Mat4)
    requires k < 4 && i < 4
  {
    seq(16, n requires 0 <= n < 16 => if n / 4 == k then m[n] - f * m[4 * i + n % 4] else m[n])
  }

  /** Column i multiplied by p: undoes DivideRow(_, i, p) from the right. */
  ghost function MultiplyColumn(m: Mat4, i: nat, p: real): Mat4
    requires i < 4
  {
    seq(16, n requires 0 <= n < 16 => if n % 4 == i then m[n] * p else m[n])
  }

  /** Column i plus f times column k: undoes SubtractRow(_, k, i, f) from the right. */
  ghost function AddColumn(m: Mat4, i: nat, k: nat, f: real): Mat4
    requires i < 4 && k < 4
  {
    seq(16, n requires 0 <= n < 16 => if n % 4 == i then m[n] + f * m[4 * (n / 4) + k] else m[n])
  }

  lemma DivMod4(r: nat, t: nat)
    requires t < 4
    ensures (4 * r + t) / 4 == r && (4 * r + t) % 4 == t
  {
  }

  lemma ProductAt(a: Mat4, b: Mat4, r: nat, c: nat)
    requires r < 4 && c < 4
    ensures Product(a, b)[4 * r + c] == Dot(a, b, r, c)
  {
    DivMod4(r, c);
  }

  lemma DivideRowAt(m: Mat4, i: nat, p: real, r: nat, t: nat)
    requires i < 4 && p != 0.0 && r < 4 && t < 4
    ensures DivideRow(m, i, p)[4 * r + t] == if r == i then m[4 * r + t] / p else m[4 * r + t]
  {
    DivMod4(r, t);
  }

  lemma SubtractRowAt(m: Mat4, k: nat, i: nat, f: real, r: nat, t: nat)
    requires k < 4 && i < 4 && r < 4 && t < 4
    ensures SubtractRow(m, k, i, f)[4 * r + t]
            == if r == k then m[4 * r + t] - f * m[4 * i + t] else m[4 * r + t]
  {
    DivMod4(r, t);
  }

  lemma MultiplyColumnAt(m: Mat4, i: nat, p: real, r: nat, t: nat)
    requires i < 4 && r < 4 && t < 4
    ensures MultiplyColumn(m, i, p)[4 * r + t] == if t == i then m[4 * r + t] * p else m[4 * r + t]
  {
    DivMod4(r, t);
  }

  lemma AddColumnAt(m: Mat4, i: nat, k: nat, f: real, r: nat, t: nat)
    requires i < 4 && k < 4 && r < 4 && t < 4
    ensures AddColumn(m, i, k, f)[4 * r + t]
            == if t == i then m[4 * r + t] + f * m[4 * r + k] else m[4 * r + t]
  {
    DivMod4(r, t);
  }

  /** A row operation applied to the left factor is the same row operation on the product. */
  lemma DivideRowOfProduct(a: Mat4, b: Mat4, i: nat, p: real)
    requires i < 4 && p != 0.0
    ensures Product(DivideRow(a, i, p), b) == DivideRow(Product(a, b), i, p)
  {
    forall n | 0 <= n < 16
      ensures Product(DivideRow(a, i, p), b)[n] == DivideRow(Product(a, b), i, p)[n]
    {
      var r, c := n / 4, n % 4;
      ProductAt(DivideRow(a, i, p), b, r, c);
      ProductAt(a, b, r, c);
      DivideRowAt(Product(a, b), i, p, r, c);
      DivideRowEntry(a, b, i, p, r, c);
    }
  }

  lemma DivideRowEntry(a: Mat4, b: Mat4, i: nat, p: real, r: nat, c: nat)
    requires i < 4 && p != 0.0 && r < 4 && c < 4
    ensures Dot(DivideRow(a, i, p), b, r, c) == if r == i then Dot(a, b, r, c) / p else Dot(a, b, r, c)
  {
    var da := DivideRow(a, i, p);
    DivideRowAt(a, i, p, r, 0);
    DivideRowAt(a, i, p, r, 1);
    DivideRowAt(a, i, p, r, 2);
    DivideRowAt(a, i, p, r, 3);
    if r == i {
      assert Row(da, r) == [a[4 * r] / p, a[4 * r + 1] / p, a[4 * r + 2] / p, a[4 * r + 3] / p];
      DotScaled(Row(a, r), Col(b, c), p);
    } else {
      assert Row(da, r) == Row(a, r);
    }
  }

  lemma DotScaled(u: seq<real>, v: seq<real>, p: real)
    requires |u| == 4 && |v| == 4 && p != 0.0
    ensures DotV([u[0] / p, u[1] / p, u[2] / p, u[3] / p], v) == DotV(u, v) / p
  {
  }

  lemma SubtractRowOfProduct(a: Mat4, b: Mat4, k: nat, i: nat, f: real)
    requires k < 4 && i < 4 && k != i
    ensures Product(SubtractRow(a, k, i, f), b) == SubtractRow(Product(a, b), k, i, f)
  {
    forall n | 0 <= n < 16
      ensures Product(SubtractRow(a, k, i, f), b)[n] == SubtractRow(Product(a, b), k, i, f)[n]
    {
      SubtractRowOfProductAt(a, b, k, i, f, n / 4, n % 4);
    }
  }

  lemma SubtractRowOfProductAt(a: Mat4, b: Mat4, k: nat, i: nat, f: real, r: nat, c: nat)
    requires k < 4 && i < 4 && r < 4 && c < 4
    ensures Product(SubtractRow(a, k, i, f), b)[4 * r + c] == SubtractRow(Product(a, b), k, i, f)[4 * r + c]
  {
    ProductOfSubtractedAt(a, b, k, i, f, r, c);
    SubtractedProductAt(a, b, k, i, f, r, c);
  }

  lemma ProductOfSubtractedAt(a: Mat4, b: Mat4, k: nat, i: nat, f: real, r: nat, c: nat)
    requires k < 4 && i < 4 && r < 4 && c < 4
    ensures Product(SubtractRow(a, k, i, f), b)[4 * r + c]
            == if r == k then Dot(a, b, r, c) - f * Dot(a, b, i, c) else Dot(a, b, r, c)
  {
    ProductAt(SubtractRow(a, k, i, f), b, r, c);
    SubtractRowEntry(a, b, k, i, f, r, c);
  }

  lemma SubtractedProductAt(a: Mat4, b: Mat4, k: nat, i: nat, f: real, r: nat, c: nat)
    requires k < 4 && i < 4 && r < 4 && c < 4
    ensures SubtractRow(Product(a, b), k, i, f)[4 * r + c]
            == if r == k then Dot(a, b, r, c) - f * Dot(a, b, i, c) else Dot(a, b, r, c)
  {
    ProductAt(a, b, r, c);
    ProductAt(a, b, i, c);
    SubtractRowOfValues(Product(a, b), k, i, f, r, c, Dot(a, b, r, c), Dot(a, b, i, c));
  }

  lemma SubtractRowOfValues(m: Mat4, k: nat, i: nat, f: real, r: nat, c: nat, x: real, y: real)
    requires k < 4 && i < 4 && r < 4 && c < 4 && m[4 * r + c] == x && m[4 * i + c] == y
    ensures SubtractRow(m, k, i, f)[4 * r + c] == if r == k then x - f * y else x
  {
    SubtractRowAt(m, k, i, f, r, c);
  }

  lemma SubtractRowEntry(a: Mat4, b: Mat4, k: nat, i: nat, f: real, r: nat, c: nat)
    requires k < 4 && i < 4 && r < 4 && c < 4
    ensures Dot(SubtractRow(a, k, i, f), b, r, c)
            == if r == k then Dot(a, b, r, c) - f * Dot(a, b, i, c) else Dot(a, b, r, c)
  {
    if r == k {
      SubtractedRowDot(a, b, k, i, f, c);
    } else {
      UntouchedRowDot(a, b, k, i, f, r, c);
    }
  }

  lemma SubtractedRowDot(a: Mat4, b: Mat4, k: nat, i: nat, f: real, c: nat)
    requires k < 4 && i < 4 && c < 4
    ensures Dot(SubtractRow(a, k, i, f), b, k, c) == Dot(a, b, k, c) - f * Dot(a, b, i, c)
  {
    DotOfSubtractedRow(a, b, k, i, f, c);
    DotDifferenceRows(a, b, k, i, f, c);
  }

  lemma DotDifferenceRows(a: Mat4, b: Mat4, k: nat, i: nat, f: real, c: nat)
    requires k < 4 && i < 4 && c < 4
    ensures DotV(RowMinus(Row(a, k), f, Row(a, i)), Col(b, c)) == Dot(a, b, k, c) - f * Dot(a, b, i, c)
  {
    DotDifference(Row(a, k), Row(a, i), Col(b, c), f);
  }

  lemma DotOfSubtractedRow(a: Mat4, b: Mat4, k: nat, i: nat, f: real, c: nat)
    requires k < 4 && i < 4 && c < 4
    ensures Dot(SubtractRow(a, k, i, f), b, k, c) == DotV(RowMinus(Row(a, k), f, Row(a, i)), Col(b, c))
  {
    RowOfSubtract(a, k, i, f, k);
  }

  lemma UntouchedRowDot(a: Mat4, b: Mat4, k: nat, i: nat, f: real, r: nat, c: nat)
    requires k < 4 && i < 4 && r < 4 && c < 4 && r != k
    ensures Dot(SubtractRow(a, k, i, f), b, r, c) == Dot(a, b, r, c)
  {
    RowOfSubtract(a, k, i, f, r);
  }

  /** u - f * w, coordinatewise. */
  function RowMinus(u: seq<real>, f: real, w: seq<real>): (r: seq<real>)
    requires |u| == 4 && |w| == 4
    ensures |r| == 4
  {
    [u[0] - f * w[0], u[1] - f * w[1], u[2] - f * w[2], u[3] - f * w[3]]
  }

  lemma RowOfSubtract(a: Mat4, k: nat, i: nat, f: real, r: nat)
    requires k < 4 && i < 4 && r < 4
    ensures Row(SubtractRow(a, k, i, f), r) == if r == k then RowMinus(Row(a, r), f, Row(a, i)) else Row(a, r)
  {
    var target := if r == k then RowMinus(Row(a, r), f, Row(a, i)) else Row(a, r);
    RowOfSubtractAt(a, k, i, f, r, 0);
    RowOfSubtractAt(a, k, i, f, r, 1);
    RowOfSubtractAt(a, k, i, f, r, 2);
    RowOfSubtractAt(a, k, i, f, r, 3);
    SameCoordinates(Row(SubtractRow(a, k, i, f), r), target);
  }

  lemma RowOfSubtractAt(a: Mat4, k: nat, i: nat, f: real, r: nat, t: nat)
    requires k < 4 && i < 4 && r < 4 && t < 4
    ensures Row(SubtractRow(a, k, i, f), r)[t]
            == (if r == k then RowMinus(Row(a, r), f, Row(a, i)) else Row(a, r))[t]
  {
    SubtractRowRowAt(a, k, i, f, r, t);
    RowAt(a, r, t);
    if r == k {
      RowMinusRowAt(a, f, r, i, t);
    }
  }

  lemma SubtractRowRowAt(a: Mat4, k: nat, i: nat, f: real, r: nat, t: nat)
    requires k < 4 && i < 4 && r < 4 && t < 4
    ensures Row(SubtractRow(a, k, i, f), r)[t] == if r == k then a[4 * r + t] - f * a[4 * i + t] else a[4 * r + t]
  {
    RowAt(SubtractRow(a, k, i, f), r, t);
    SubtractRowAt(a, k, i, f, r, t);
  }

  lemma RowMinusRowAt(a: Mat4, f: real, r: nat, i: nat, t: nat)
    requires r < 4 && i < 4 && t < 4
    ensures RowMinus(Row(a, r), f, Row(a, i))[t] == a[4 * r + t] - f * a[4 * i + t]
  {
    RowMinusAt(Row(a, r), f, Row(a, i), t);
    RowAt(a, r, t);
    RowAt(a, i, t);
  }

  lemma RowMinusAt(u: seq<real>, f: real, w: seq<real>, t: nat)
    requires |u| == 4 && |w| == 4 && t < 4
    ensures RowMinus(u, f, w)[t] == u[t] - f * w[t]
  {
  }

  lemma DotDifference(u: seq<real>, w: seq<real>, v: seq<real>, f: real)
    requires |u| == 4 && |w| == 4 && |v| == 4
    ensures DotV(RowMinus(u, f, w), v) == DotV(u, v) - f * DotV(w, v)
  {
  }

  /** Multiplying column i of F by p cancels dividing row i of x by p. */
  lemma DivideRowUndone(F: Mat4, x: Mat4, i: nat, p: real)
    requires i < 4 && p != 0.0
    ensures Product(MultiplyColumn(F, i, p), DivideRow(x, i, p)) == Product(F, x)
  {
    forall n | 0 <= n < 16
      ensures Product(MultiplyColumn(F, i, p), DivideRow(x, i, p))[n] == Product(F, x)[n]
    {
      DivideRowUndoneAt(F, x, i, p, n / 4, n % 4);
    }
  }

  lemma DivideRowUndoneAt(F: Mat4, x: Mat4, i: nat, p: real, r: nat, c: nat)
    requires i < 4 && p != 0.0 && r < 4 && c < 4
    ensures Product(MultiplyColumn(F, i, p), DivideRow(x, i, p))[4 * r + c] == Product(F, x)[4 * r + c]
  {
    ProductAt(MultiplyColumn(F, i, p), DivideRow(x, i, p), r, c);
    ProductAt(F, x, r, c);
    RowOfMultiplyColumn(F, i, p, r);
    ColOfDivideRow(x, i, p, c);
    ScaleCancels(Row(F, r), Col(x, c), i, p);
  }

  /** u with coordinate i multiplied by p. */
  function MultiplyAt(u: seq<real>, i: nat, p: real): (r: seq<real>)
    requires |u| == 4
    ensures |r| == 4
  {
    [if i == 0 then u[0] * p else u[0], if i == 1 then u[1] * p else u[1],
     if i == 2 then u[2] * p else u[2], if i == 3 then u[3] * p else u[3]]
  }

  /** v with coordinate i divided by p. */
  function DivideAt(v: seq<real>, i: nat, p: real): (r: seq<real>)
    requires |v| == 4 && p != 0.0
    ensures |r| == 4
  {
    [if i == 0 then v[0] / p else v[0], if i == 1 then v[1] / p else v[1],
     if i == 2 then v[2] / p else v[2], if i == 3 then v[3] / p else v[3]]
  }

  lemma RowOfMultiplyColumn(F: Mat4, i: nat, p: real, r: nat)
    requires i < 4 && r < 4
    ensures Row(MultiplyColumn(F, i, p), r) == MultiplyAt(Row(F, r), i, p)
  {
    MultiplyColumnAt(F, i, p, r, 0);
    MultiplyColumnAt(F, i, p, r, 1);
    MultiplyColumnAt(F, i, p, r, 2);
    MultiplyColumnAt(F, i, p, r, 3);
    SameCoordinates(Row(MultiplyColumn(F, i, p), r), MultiplyAt(Row(F, r), i, p));
  }

  lemma ColOfDivideRow(x: Mat4, i: nat, p: real, c: nat)
    requires i < 4 && p != 0.0 && c < 4
    ensures Col(DivideRow(x, i, p), c) == DivideAt(Col(x, c), i, p)
  {
    DivideRowAt(x, i, p, 0, c);
    DivideRowAt(x, i, p, 1, c);
    DivideRowAt(x, i, p, 2, c);
    DivideRowAt(x, i, p, 3, c);
    SameCoordinates(Col(DivideRow(x, i, p), c), DivideAt(Col(x, c), i, p));
  }

  lemma ScaleCancels(u: seq<real>, v: seq<real>, i: nat, p: real)
    requires |u| == 4 && |v| == 4 && i < 4 && p != 0.0
    ensures DotV(MultiplyAt(u, i, p), DivideAt(v, i, p)) == DotV(u, v)
  {
    assert u[i] * p * (v[i] / p) == u[i] * v[i];
  }

  /** Adding f times column k to column i of F cancels subtracting f times row i from row k of x. */
  lemma SubtractRowUndone(F: Mat4, x: Mat4, k: nat, i: nat, f: real)
    requires k < 4 && i < 4 && k != i
    ensures Product(AddColumn(F, i, k, f), SubtractRow(x, k, i, f)) == Product(F, x)
  {
    forall n | 0 <= n < 16
      ensures Product(AddColumn(F, i, k, f), SubtractRow(x, k, i, f))[n] == Product(F, x)[n]
    {
      SubtractRowUndoneAt(F, x, k, i, f, n / 4, n % 4);
    }
  }

  lemma SubtractRowUndoneAt(F: Mat4, x: Mat4, k: nat, i: nat, f: real, r: nat, c: nat)
    requires k < 4 && i < 4 && k != i && r < 4 && c < 4
    ensures Product(AddColumn(F, i, k, f), SubtractRow(x, k, i, f))[4 * r + c] == Product(F, x)[4 * r + c]
  {
    ProductAt(AddColumn(F, i, k, f), SubtractRow(x, k, i, f), r, c);
    ProductAt(F, x, r, c);
    RowOfAddColumn(F, i, k, f, r);
    ColOfSubtractRow(x, k, i, f, c);
    ShearIsSheared(Row(F, r), Col(x, c), k, i, f);
    ShearCancels(Row(AddColumn(F, i, k, f), r), Col(SubtractRow(x, k, i, f), c), Row(F, r), Col(x, c), k, i, f);
  }

  /** u with f times coordinate k added to coordinate i. */
  function AddAt(u: seq<real>, i: nat, k: nat, f: real): (r: seq<real>)
    requires |u| == 4 && k < 4
    ensures |r| == 4
  {
    [if i == 0 then u[0] + f * u[k] else u[0], if i == 1 then u[1] + f * u[k] else u[1],
     if i == 2 then u[2] + f * u[k] else u[2], if i == 3 then u[3] + f * u[k] else u[3]]
  }

  /** v with f times coordinate i subtracted from coordinate k. */
  function SubtractAt(v: seq<real>, k: nat, i: nat, f: real): (r: seq<real>)
    requires |v| == 4 && i < 4
    ensures |r| == 4
  {
    [if k == 0 then v[0] - f * v[i] else v[0], if k == 1 then v[1] - f * v[i] else v[1],
     if k == 2 then v[2] - f * v[i] else v[2], if k == 3 then v[3] - f * v[i] else v[3]]
  }

  lemma RowOfAddColumn(F: Mat4, i: nat, k: nat, f: real, r: nat)
    requires i < 4 && k < 4 && r < 4
    ensures Row(AddColumn(F, i, k, f), r) == AddAt(Row(F, r), i, k, f)
  {
    RowOfAddColumnAt(F, i, k, f, r, 0);
    RowOfAddColumnAt(F, i, k, f, r, 1);
    RowOfAddColumnAt(F, i, k, f, r, 2);
    RowOfAddColumnAt(F, i, k, f, r, 3);
    SameCoordinates(Row(AddColumn(F, i, k, f), r), AddAt(Row(F, r), i, k, f));
  }

  lemma RowOfAddColumnAt(F: Mat4, i: nat, k: nat, f: real, r: nat, t: nat)
    requires i < 4 && k < 4 && r < 4 && t < 4
    ensures Row(AddColumn(F, i, k, f), r)[t] == AddAt(Row(F, r), i, k, f)[t]
  {
    AddColumnRowAt(F, i, k, f, r, t);
    AddAtRowAt(F, i, k, f, r, t);
  }

  lemma AddColumnRowAt(F: Mat4, i: nat, k: nat, f: real, r: nat, t: nat)
    requires i < 4 && k < 4 && r < 4 && t < 4
    ensures Row(AddColumn(F, i, k, f), r)[t] == if t == i then F[4 * r + t] + f * F[4 * r + k] else F[4 * r + t]
  {
    RowAt(AddColumn(F, i, k, f), r, t);
    AddColumnAt(F, i, k, f, r, t);
  }

  lemma AddAtRowAt(F: Mat4, i: nat, k: nat, f: real, r: nat, t: nat)
    requires i < 4 && k < 4 && r < 4 && t < 4
    ensures AddAt(Row(F, r), i, k, f)[t] == if t == i then F[4 * r + t] + f * F[4 * r + k] else F[4 * r + t]
  {
    AddAtAt(Row(F, r), i, k, f, t);
    RowAt(F, r, t);
    RowAt(F, r, k);
  }

  lemma AddAtAt(u: seq<real>, i: nat, k: nat, f: real, t: nat)
    requires |u| == 4 && k < 4 && t < 4
    ensures AddAt(u, i, k, f)[t] == if t == i then u[t] + f * u[k] else u[t]
  {
  }

  lemma ColOfSubtractRow(x: Mat4, k: nat, i: nat, f: real, c: nat)
    requires k < 4 && i < 4 && c < 4
    ensures Col(SubtractRow(x, k, i, f), c) == SubtractAt(Col(x, c), k, i, f)
  {
    ColOfSubtractRowAt(x, k, i, f, c, 0);
    ColOfSubtractRowAt(x, k, i, f, c, 1);
    ColOfSubtractRowAt(x, k, i, f, c, 2);
    ColOfSubtractRowAt(x, k, i, f, c, 3);
    SameCoordinates(Col(SubtractRow(x, k, i, f), c), SubtractAt(Col(x, c), k, i, f));
  }

  lemma ColOfSubtractRowAt(x: Mat4, k: nat, i: nat, f: real, c: nat, t: nat)
    requires k < 4 && i < 4 && c < 4 && t < 4
    ensures Col(SubtractRow(x, k, i, f), c)[t] == SubtractAt(Col(x, c), k, i, f)[t]
  {
    SubtractRowColAt(x, k, i, f, c, t);
    SubtractAtColAt(x, k, i, f, c, t);
  }

  lemma SubtractRowColAt(x: Mat4, k: nat, i: nat, f: real, c: nat, t: nat)
    requires k < 4 && i < 4 && c < 4 && t < 4
    ensures Col(SubtractRow(x, k, i, f), c)[t] == if t == k then x[4 * t + c] - f * x[4 * i + c] else x[4 * t + c]
  {
    ColAt(SubtractRow(x, k, i, f), c, t);
    SubtractRowAt(x, k, i, f, t, c);
  }

  lemma SubtractAtColAt(x: Mat4, k: nat, i: nat, f: real, c: nat, t: nat)
    requires k < 4 && i < 4 && c < 4 && t < 4
    ensures SubtractAt(Col(x, c), k, i, f)[t] == if t == k then x[4 * t + c] - f * x[4 * i + c] else x[4 * t + c]
  {
    SubtractAtAt(Col(x, c), k, i, f, t);
    ColAt(x, c, t);
    ColAt(x, c, i);
  }

  lemma SubtractAtAt(v: seq<real>, k: nat, i: nat, f: real, t: nat)
    requires |v| == 4 && i < 4 && t < 4
    ensures SubtractAt(v, k, i, f)[t] == if t == k then v[t] - f * v[i] else v[t]
  {
  }

  /** A symbolic coordinate of a row or a column is the matrix element it comes from. */
  lemma RowAt(m: Mat4, r: nat, t: nat)
    requires r < 4 && t < 4
    ensures Row(m, r)[t] == m[4 * r + t]
  {
  }

  lemma ColAt(m: Mat4, c: nat, t: nat)
    requires c < 4 && t < 4
    ensures Col(m, c)[t] == m[4 * t + c]
  {
  }

  /**
   * u' and v' are u and v after the shear: f times coordinate k added to
   * coordinate i of u, f times coordinate i taken from coordinate k of v,
   * and the products elsewhere unchanged.
   */
  ghost predicate Sheared(u': seq<real>, v': seq<real>, u: seq<real>, v: seq<real>, k: nat, i: nat, f: real) {
    ShearedAt(u', v', u, v, k, i, f) && Rest(u', v', i, k) == Rest(u, v, i, k)
  }

  /** The coordinates i and k after the shear. */
  ghost predicate ShearedAt(u': seq<real>, v': seq<real>, u: seq<real>, v: seq<real>, k: nat, i: nat, f: real) {
    |u'| == 4 && |v'| == 4 && |u| == 4 && |v| == 4 && i < 4 && k < 4 && i != k
    && u'[i] == u[i] + f * u[k] && u'[k] == u[k] && v'[i] == v[i] && v'[k] == v[k] - f * v[i]
  }

  /** A shear of the row against the opposite shear of the column keeps their dot product. */
  lemma ShearCancels(u': seq<real>, v': seq<real>, u: seq<real>, v: seq<real>, k: nat, i: nat, f: real)
    requires Sheared(u', v', u, v, k, i, f)
    ensures DotV(u', v') == DotV(u, v)
  {
    ShearAgrees(u', v', u, v, k, i, f);
    DotsAgree(u', v', u, v, i, k);
  }

  lemma ShearAgrees(u': seq<real>, v': seq<real>, u: seq<real>, v: seq<real>, k: nat, i: nat, f: real)
    requires ShearedAt(u', v', u, v, k, i, f)
    ensures PairsAgree(u', v', u, v, i, k)
  {
    ShearPair(u'[i], u'[k], v'[i], v'[k], u[i], u[k], v[i], v[k], f);
  }

  lemma ShearIsSheared(u: seq<real>, v: seq<real>, k: nat, i: nat, f: real)
    requires |u| == 4 && |v| == 4 && k < 4 && i < 4 && k != i
    ensures Sheared(AddAt(u, i, k, f), SubtractAt(v, k, i, f), u, v, k, i, f)
  {
    AddAtAt(u, i, k, f, i);
    AddAtAt(u, i, k, f, k);
    SubtractAtAt(v, k, i, f, i);
    SubtractAtAt(v, k, i, f, k);
    ShearKeepsRest(u, v, k, i, f);
  }

  /** The products at i and k add up to the same before and after. */
  ghost predicate PairsAgree(u': seq<real>, v': seq<real>, u: seq<real>, v: seq<real>, i: nat, k: nat) {
    |u'| == 4 && |v'| == 4 && |u| == 4 && |v| == 4 && i < 4 && k < 4 && i != k
    && u'[i] * v'[i] + u'[k] * v'[k] == u[i] * v[i] + u[k] * v[k]
  }

  /** The products at i and k, and the rest, add up to the same before and after. */
  ghost predicate Agree(u': seq<real>, v': seq<real>, u: seq<real>, v: seq<real>, i: nat, k: nat) {
    PairsAgree(u', v', u, v, i, k) && Rest(u', v', i, k) == Rest(u, v, i, k)
  }

  /** Dot products whose products at i and k and whose rests agree are equal. */
  lemma DotsAgree(u': seq<real>, v': seq<real>, u: seq<real>, v: seq<real>, i: nat, k: nat)
    requires Agree(u', v', u, v, i, k)
    ensures DotV(u', v') == DotV(u, v)
  {
    DotPairs(u', v', i, k);
    DotPairs(u, v, i, k);
  }

  /** The two products a shear changes add up to the same. */
  lemma ShearPair(a': real, b': real, c': real, d': real, a: real, b: real, c: real, d: real, f: real)
    requires a' == a + f * b && b' == b && c' == c && d' == d - f * c
    ensures a' * c' + b' * d' == a * c + b * d
  {
  }

  /** The four products a dot product adds up. */
  function Products(u: seq<real>, v: seq<real>): (p: seq<real>)
    requires |u| == 4 && |v| == 4
    ensures |p| == 4
  {
    [u[0] * v[0], u[1] * v[1], u[2] * v[2], u[3] * v[3]]
  }

  lemma ProductsAt(u: seq<real>, v: seq<real>, t: nat)
    requires |u| == 4 && |v| == 4 && t < 4
    ensures Products(u, v)[t] == u[t] * v[t]
  {
  }

  /** The products of a dot product outside coordinates i and k. */
  function Rest(u: seq<real>, v: seq<real>, i: nat, k: nat): real
    requires |u| == 4 && |v| == 4
  {
    Others(Products(u, v), i, k)
  }

  function Others(p: seq<real>, i: nat, k: nat): real
    requires |p| == 4
  {
    (if i != 0 && k != 0 then p[0] else 0.0) + (if i != 1 && k != 1 then p[1] else 0.0)
    + (if i != 2 && k != 2 then p[2] else 0.0) + (if i != 3 && k != 3 then p[3] else 0.0)
  }

  /** A dot product is its products at i and k plus the rest. */
  lemma DotPairs(u: seq<real>, v: seq<real>, i: nat, k: nat)
    requires |u| == 4 && |v| == 4 && i < 4 && k < 4 && i != k
    ensures DotV(u, v) == u[i] * v[i] + u[k] * v[k] + Rest(u, v, i, k)
  {
    var p := Products(u, v);
    ProductsAt(u, v, i);
    ProductsAt(u, v, k);
    assert DotV(u, v) == p[0] + p[1] + p[2] + p[3];
    SumPairs(p, i, k);
  }

  /** Four numbers add up to the two at i and k plus the others. */
  lemma SumPairs(p: seq<real>, i: nat, k: nat)
    requires |p| == 4 && i < 4 && k < 4 && i != k
    ensures p[0] + p[1] + p[2] + p[3] == p[i] + p[k] + Others(p, i, k)
  {
  }

  /** A shear leaves the coordinates other than i and k alone. */
  lemma ShearKeepsRest(u: seq<real>, v: seq<real>, k: nat, i: nat, f: real)
    requires |u| == 4 && |v| == 4 && k < 4 && i < 4
    ensures Rest(AddAt(u, i, k, f), SubtractAt(v, k, i, f), i, k) == Rest(u, v, i, k)
  {
    AddAtOutside(u, i, k, f);
    SubtractAtOutside(v, k, i, f);
    RestKept(AddAt(u, i, k, f), SubtractAt(v, k, i, f), u, v, i, k);
  }

  /** The coordinates of u other than i and k, with zero in their place. */
  function Outside(u: seq<real>, i: nat, k: nat): (r: seq<real>)
    requires |u| == 4
    ensures |r| == 4
  {
    [if i != 0 && k != 0 then u[0] else 0.0, if i != 1 && k != 1 then u[1] else 0.0,
     if i != 2 && k != 2 then u[2] else 0.0, if i != 3 && k != 3 then u[3] else 0.0]
  }

  lemma AddAtOutside(u: seq<real>, i: nat, k: nat, f: real)
    requires |u| == 4 && k < 4
    ensures Outside(AddAt(u, i, k, f), i, k) == Outside(u, i, k)
  {
  }

  lemma SubtractAtOutside(v: seq<real>, k: nat, i: nat, f: real)
    requires |v| == 4 && i < 4
    ensures Outside(SubtractAt(v, k, i, f), i, k) == Outside(v, i, k)
  {
  }

  /** The rest depends only on the coordinates outside i and k. */
  lemma RestKept(u': seq<real>, v': seq<real>, u: seq<real>, v: seq<real>, i: nat, k: nat)
    requires |u'| == 4 && |v'| == 4 && |u| == 4 && |v| == 4
    requires Outside(u', i, k) == Outside(u, i, k) && Outside(v', i, k) == Outside(v, i, k)
    ensures Rest(u', v', i, k) == Rest(u, v, i, k)
  {
    assert Outside(u', i, k)[0] == Outside(u, i, k)[0] && Outside(v', i, k)[0] == Outside(v, i, k)[0];
    assert Outside(u', i, k)[1] == Outside(u, i, k)[1] && Outside(v', i, k)[1] == Outside(v, i, k)[1];
    assert Outside(u', i, k)[2] == Outside(u, i, k)[2] && Outside(v', i, k)[2] == Outside(v, i, k)[2];
    assert Outside(u', i, k)[3] == Outside(u, i, k)[3] && Outside(v', i, k)[3] == Outside(v, i, k)[3];
  }

  // ---------------------------------------------------------------------------
  // The elimination
  // ---------------------------------------------------------------------------

  /**
   * Clears column i from rows k .. 3 other than the pivot row i, in the
   * source's order: row k loses mat[k][i] times the pivot row, in both
   * working matrices.
   */
  function Eliminate(mat: Mat4, inv: Mat4, i: nat, k: nat): (r: (Mat4, Mat4))
    requires i < 4 && k <= 4
    decreases 4 - k
  {
    if k == 4 then (mat, inv)
    else if k == i then Eliminate(mat, inv, i, k + 1)
    else
      var factor := Entry(mat, k, i);
      Eliminate(SubtractRow(mat, k, i, factor), SubtractRow(inv, k, i, factor), i, k + 1)
  }

  /** The pivot steps i .. 3: None as soon as a pivot is below the bound. */
  function PivotFrom(mat: Mat4, inv: Mat4, i: nat): (r: Option<Mat4>)
    requires i <= 4
    decreases 4 - i
  {
    if i == 4 then Some(inv)
    else
      var pivot := mat[4 * i + i];
      if AbsReal(pivot) < PIVOT_EPSILON then None
      else
        var e := Eliminate(DivideRow(mat, i, pivot), DivideRow(inv, i, pivot), i, 0);
        PivotFrom(e.0, e.1, i + 1)
  }

  /**
   * The inverse invertf / invertd compute from the elements of m, or None
   * where they return null. A result is a two-sided inverse.
   */
  function Invert(m: Mat4): (r: Option<Mat4>)
    ensures r.Some? ==> Product(r.value, m) == Identity() && Product(m, r.value) == Identity()
  {
    IdentityNeutral(m);
    IdentityNeutral(Identity());
    PivotFromCorrect(m, m, Identity(), Identity(), 0);
    PivotFrom(m, Identity(), 0)
  }

  // ---------------------------------------------------------------------------
  // Correctness
  // ---------------------------------------------------------------------------

  /**
   * The invariant of the elimination: inv * m0 is the working matrix, and F
   * undoes the row operations so far, taking inv back to the identity.
   */
  ghost predicate Tracks(m0: Mat4, mat: Mat4, inv: Mat4, F: Mat4) {
    Product(inv, m0) == mat && Product(F, inv) == Identity()
  }

  /** A left inverse of m0 that has a left inverse itself is also a right inverse of m0. */
  lemma LeftInverseIsRight(m0: Mat4, inv: Mat4, F: Mat4)
    requires Product(inv, m0) == Identity() && Product(F, inv) == Identity()
    ensures Product(m0, inv) == Identity()
  {
    ProductAssociative(F, inv, m0);
    IdentityNeutral(F);
    IdentityNeutral(m0);
  }

  /** Columns 0 .. i - 1 of mat are those of the identity. */
  ghost predicate ReducedBefore(mat: Mat4, i: nat) {
    forall r: nat, c: nat | r < 4 && c < i && c < 4 :: Entry(mat, r, c) == if r == c then 1.0 else 0.0
  }

  /** The element in row r and column c. */
  function Entry(m: Mat4, r: nat, c: nat): real
    requires r < 4 && c < 4
  {
    m[4 * r + c]
  }

  lemma DivideKeeps(m0: Mat4, mat: Mat4, inv: Mat4, F: Mat4, i: nat, p: real)
    requires i < 4 && p != 0.0 && Tracks(m0, mat, inv, F)
    ensures Tracks(m0, DivideRow(mat, i, p), DivideRow(inv, i, p), MultiplyColumn(F, i, p))
  {
    DivideRowOfProduct(inv, m0, i, p);
    DivideRowUndone(F, inv, i, p);
  }

  lemma SubtractKeeps(m0: Mat4, mat: Mat4, inv: Mat4, F: Mat4, k: nat, i: nat, f: real)
    requires k < 4 && i < 4 && k != i && Tracks(m0, mat, inv, F)
    ensures Tracks(m0, SubtractRow(mat, k, i, f), SubtractRow(inv, k, i, f), AddColumn(F, i, k, f))
  {
    SubtractRowOfProduct(inv, m0, k, i, f);
    SubtractRowUndone(F, inv, k, i, f);
  }

  /** A working matrix whose every column is reduced is the identity. */
  lemma FullyReduced(mat: Mat4)
    requires ReducedBefore(mat, 4)
    ensures mat == Identity()
  {
    forall n | 0 <= n < 16
      ensures mat[n] == Identity()[n]
    {
      var r, c := n / 4, n % 4;
      assert Entry(mat, r, c) == if r == c then 1.0 else 0.0;
      assert n == 4 * r + c;
    }
  }

  /** Dividing the pivot row by a pivot of 1 after the reduced columns keeps them reduced. */
  lemma DivideReduced(mat: Mat4, i: nat)
    requires i < 4 && ReducedBefore(mat, i) && mat[4 * i + i] != 0.0
    ensures ReducedBefore(DivideRow(mat, i, mat[4 * i + i]), i)
    ensures Entry(DivideRow(mat, i, mat[4 * i + i]), i, i) == 1.0
  {
    var p := mat[4 * i + i];
    forall r: nat, c: nat | r < 4 && c < i && c < 4
      ensures Entry(DivideRow(mat, i, p), r, c) == if r == c then 1.0 else 0.0
    {
      DivideRowAt(mat, i, p, r, c);
      assert Entry(mat, r, c) == if r == c then 1.0 else 0.0;
    }
    DivideRowAt(mat, i, p, i, i);
  }

  /** One subtraction of the elimination keeps the reduced columns and clears one more row of column i. */
  lemma SubtractReduced(mat: Mat4, i: nat, k: nat)
    requires i < 4 && k < 4 && k != i
    requires ReducedBefore(mat, i) && Entry(mat, i, i) == 1.0
    requires forall r: nat | r < k && r != i :: Entry(mat, r, i) == 0.0
    ensures ReducedBefore(SubtractRow(mat, k, i, Entry(mat, k, i)), i)
    ensures Entry(SubtractRow(mat, k, i, Entry(mat, k, i)), i, i) == 1.0
    ensures forall r: nat | r < k + 1 && r != i :: Entry(SubtractRow(mat, k, i, Entry(mat, k, i)), r, i) == 0.0
  {
    var factor := Entry(mat, k, i);
    var mat' := SubtractRow(mat, k, i, factor);
    forall r: nat, c: nat | r < 4 && c < i && c < 4
      ensures Entry(mat', r, c) == if r == c then 1.0 else 0.0
    {
      SubtractRowAt(mat, k, i, factor, r, c);
      assert Entry(mat, i, c) == 0.0;
      assert Entry(mat, r, c) == if r == c then 1.0 else 0.0;
    }
    forall r: nat | r < k + 1 && r != i
      ensures Entry(mat', r, i) == 0.0
    {
      SubtractRowAt(mat, k, i, factor, r, i);
      if r < k {
        assert Entry(mat, r, i) == 0.0;
      }
    }
    SubtractRowAt(mat, k, i, factor, i, i);
  }

  /** Column i cleared outside a unit pivot extends the reduced columns by one. */
  lemma ColumnReduced(mat: Mat4, i: nat)
    requires i < 4 && ReducedBefore(mat, i) && Entry(mat, i, i) == 1.0
    requires forall r: nat | r < 4 && r != i :: Entry(mat, r, i) == 0.0
    ensures ReducedBefore(mat, i + 1)
  {
    forall r: nat, c: nat | r < 4 && c < i + 1 && c < 4
      ensures Entry(mat, r, c) == if r == c then 1.0 else 0.0
    {
      if c == i {
        if r != i {
          assert Entry(mat, r, i) == 0.0;
        }
      } else {
        assert Entry(mat, r, c) == if r == c then 1.0 else 0.0;
      }
    }
  }

  /** One step of Eliminate. */
  lemma EliminateUnfold(mat: Mat4, inv: Mat4, i: nat, k: nat)
    requires i < 4 && k <= 4
    ensures k == 4 ==> Eliminate(mat, inv, i, k) == (mat, inv)
    ensures k < 4 && k == i ==> Eliminate(mat, inv, i, k) == Eliminate(mat, inv, i, k + 1)
    ensures k < 4 && k != i ==>
              Eliminate(mat, inv, i, k)
              == Eliminate(SubtractRow(mat, k, i, Entry(mat, k, i)), SubtractRow(inv, k, i, Entry(mat, k, i)), i, k + 1)
  {
  }

  /** The rest of the elimination of column i keeps the tracking invariant, with its own undo matrix. */
  lemma {:induction false} EliminateTracks(m0: Mat4, mat: Mat4, inv: Mat4, F: Mat4, i: nat, k: nat)
      returns (F': Mat4)
    requires i < 4 && k <= 4 && Tracks(m0, mat, inv, F)
    ensures Tracks(m0, Eliminate(mat, inv, i, k).0, Eliminate(mat, inv, i, k).1, F')
    decreases 4 - k
  {
    EliminateUnfold(mat, inv, i, k);
    if k == 4 {
      F' := F;
    } else if k == i {
      F' := EliminateTracks(m0, mat, inv, F, i, k + 1);
    } else {
      var f := Entry(mat, k, i);
      SubtractKeeps(m0, mat, inv, F, k, i, f);
      F' := EliminateTracks(m0, SubtractRow(mat, k, i, f), SubtractRow(inv, k, i, f), AddColumn(F, i, k, f), i, k + 1);
    }
  }

  /**
   * Column i in elimination before row k: the columns before i reduced, a
   * unit pivot, and column i cleared in the rows before k other than the
   * pivot row.
   */
  ghost predicate Clearing(mat: Mat4, i: nat, k: nat) {
    && i < 4 && k <= 4 && ReducedBefore(mat, i) && Entry(mat, i, i) == 1.0
    && forall r: nat | r < k && r != i :: Entry(mat, r, i) == 0.0
  }

  /** The rest of the elimination of column i reduces it. */
  lemma {:induction false} EliminateReduces(mat: Mat4, inv: Mat4, i: nat, k: nat)
    requires Clearing(mat, i, k)
    ensures ReducedBefore(Eliminate(mat, inv, i, k).0, i + 1)
    decreases 4 - k
  {
    EliminateUnfold(mat, inv, i, k);
    if k == 4 {
      ColumnReduced(mat, i);
    } else if k == i {
      EliminateReduces(mat, inv, i, k + 1);
    } else {
      var f := Entry(mat, k, i);
      SubtractReduced(mat, i, k);
      EliminateReduces(SubtractRow(mat, k, i, f), SubtractRow(inv, k, i, f), i, k + 1);
    }
  }

  lemma {:induction false} PivotFromCorrect(m0: Mat4, mat: Mat4, inv: Mat4, F: Mat4, i: nat)
    requires i <= 4 && Tracks(m0, mat, inv, F) && ReducedBefore(mat, i)
    ensures PivotFrom(mat, inv, i).Some? ==>
              Product(PivotFrom(mat, inv, i).value, m0) == Identity()
              && Product(m0, PivotFrom(mat, inv, i).value) == Identity()
    decreases 4 - i
  {
    if i == 4 {
      FullyReduced(mat);
      LeftInverseIsRight(m0, inv, F);
    } else {
      var pivot := mat[4 * i + i];
      if AbsReal(pivot) >= PIVOT_EPSILON {
        var mat1, inv1 := DivideRow(mat, i, pivot), DivideRow(inv, i, pivot);
        DivideKeeps(m0, mat, inv, F, i, pivot);
        DivideReduced(mat, i);
        var F' := EliminateTracks(m0, mat1, inv1, MultiplyColumn(F, i, pivot), i, 0);
        EliminateReduces(mat1, inv1, i, 0);
        var e := Eliminate(mat1, inv1, i, 0);
        PivotFromCorrect(m0, e.0, e.1, F', i + 1);
      }
    }
  }

  // ---------------------------------------------------------------------------
  // When the inversion returns null, and what a result determines
  // ---------------------------------------------------------------------------

  /** A first pivot below 1e-10 ends the inversion at once. */
  lemma SmallPivotRejected(m: Mat4)
    requires AbsReal(m[0]) < PIVOT_EPSILON
    ensures Invert(m) == None
  {
  }

  /** A matrix with a zero row has no inverse, so the inversion returns None. */
  lemma ZeroRowRejected(m: Mat4, r: nat)
    requires r < 4 && Row(m, r) == [0.0, 0.0, 0.0, 0.0]
    ensures Invert(m) == None
  {
    if Invert(m).Some? {
      var v := Invert(m).value;
      ProductAt(m, v, r, r);
      assert Dot(m, v, r, r) == 0.0;
      DiagonalOfIdentity(r);
      assert false;
    }
  }

  lemma DiagonalOfIdentity(r: nat)
    requires r < 4
    ensures Identity()[4 * r + r] == 1.0
  {
    if r == 0 {
    } else if r == 1 {
    } else if r == 2 {
    } else {
    }
  }

  /** The permutation exchanging the first two rows. */
  const SWAP_01: Mat4 := [0.0, 1.0, 0.0, 0.0,
                          1.0, 0.0, 0.0, 0.0,
                          0.0, 0.0, 1.0, 0.0,
                          0.0, 0.0, 0.0, 1.0]

  /**
   * Without row exchanges an invertible matrix can be rejected: the swap of
   * the first two rows is its own inverse, but its first pivot is zero.
   */
  lemma NoRowExchange()
    ensures Product(SWAP_01, SWAP_01) == Identity()
    ensures Invert(SWAP_01) == None
  {
    SameElements(Product(SWAP_01, SWAP_01), Identity());
  }

  /** Rows divided by 1 and rows less 0 times another are unchanged. */
  lemma DivideByOne(m: Mat4, i: nat)
    requires i < 4
    ensures DivideRow(m, i, 1.0) == m
  {
  }

  lemma SubtractZero(m: Mat4, k: nat, i: nat)
    requires k < 4 && i < 4
    ensures SubtractRow(m, k, i, 0.0) == m
  {
  }

  /** With column i already clear outside the pivot row, elimination changes nothing. */
  lemma {:induction false} EliminateCleared(mat: Mat4, inv: Mat4, i: nat, k: nat)
    requires i < 4 && k <= 4
    requires forall r: nat | r < 4 && r != i :: Entry(mat, r, i) == 0.0
    ensures Eliminate(mat, inv, i, k) == (mat, inv)
    decreases 4 - k
  {
    EliminateUnfold(mat, inv, i, k);
    if k < 4 {
      if k != i {
        SubtractZero(mat, k, i);
        SubtractZero(inv, k, i);
      }
      EliminateCleared(mat, inv, i, k + 1);
    }
  }

  /** The identity inverts to itself. */
  lemma InvertIdentity()
    ensures Invert(Identity()) == Some(Identity())
  {
    IdentityPivots(0);
  }

  lemma {:induction false} IdentityPivots(i: nat)
    requires i <= 4
    ensures PivotFrom(Identity(), Identity(), i) == Some(Identity())
    decreases 4 - i
  {
    if i < 4 {
      var I := Identity();
      assert I[4 * i + i] == 1.0;
      DivideByOne(I, i);
      forall r: nat | r < 4 && r != i
        ensures Entry(I, r, i) == 0.0
      {
      }
      EliminateCleared(I, I, i, 0);
      IdentityPivots(i + 1);
    }
  }

  /** Every entry off the diagonal is zero. */
  ghost predicate IsDiagonal(m: Mat4) {
    forall r: nat, c: nat | r < 4 && c < 4 && r != c :: Entry(m, r, c) == 0.0
  }

  /** Dividing a row of a diagonal matrix keeps it diagonal and leaves the other rows' pivots. */
  lemma DivideDiagonal(m: Mat4, i: nat, p: real)
    requires i < 4 && p != 0.0 && IsDiagonal(m)
    ensures IsDiagonal(DivideRow(m, i, p))
    ensures forall j: nat | j < 4 && j != i :: Entry(DivideRow(m, i, p), j, j) == Entry(m, j, j)
  {
    forall r: nat, c: nat | r < 4 && c < 4
      ensures Entry(DivideRow(m, i, p), r, c) == if r == i then Entry(m, r, c) / p else Entry(m, r, c)
    {
      DivideRowAt(m, i, p, r, c);
    }
  }

  /**
   * On diagonal working matrices every elimination step clears nothing, so
   * the inversion succeeds exactly when each remaining pivot passes.
   */
  lemma {:induction false} DiagonalPivots(mat: Mat4, inv: Mat4, i: nat)
    requires i <= 4 && IsDiagonal(mat) && IsDiagonal(inv)
    requires forall j: nat | i <= j < 4 :: AbsReal(Entry(mat, j, j)) >= PIVOT_EPSILON
    ensures PivotFrom(mat, inv, i).Some?
    decreases 4 - i
  {
    if i < 4 {
      var p := Entry(mat, i, i);
      assert AbsReal(p) >= PIVOT_EPSILON;
      var mat', inv' := DivideRow(mat, i, p), DivideRow(inv, i, p);
      DivideDiagonal(mat, i, p);
      DivideDiagonal(inv, i, p);
      EliminateCleared(mat', inv', i, 0);
      assert PivotFrom(mat, inv, i) == PivotFrom(mat', inv', i + 1);
      DiagonalPivots(mat', inv', i + 1);
    }
  }

  lemma ScalingDiagonal(x: real, y: real, z: real)
    ensures IsDiagonal(ScalingElements(x, y, z))
    ensures Entry(ScalingElements(x, y, z), 0, 0) == x && Entry(ScalingElements(x, y, z), 1, 1) == y
    ensures Entry(ScalingElements(x, y, z), 2, 2) == z && Entry(ScalingElements(x, y, z), 3, 3) == 1.0
  {
    var s := ScalingElements(x, y, z);
    forall r: nat, c: nat | r < 4 && c < 4 && r != c
      ensures Entry(s, r, c) == 0.0
    {
      DivMod4(r, c);
    }
  }

  /**
   * A scaling whose factors all pass the pivot bound inverts to the scaling
   * by the reciprocals.
   */
  lemma InvertScaling(x: real, y: real, z: real)
    requires AbsReal(x) >= PIVOT_EPSILON && AbsReal(y) >= PIVOT_EPSILON && AbsReal(z) >= PIVOT_EPSILON
    ensures Invert(ScalingElements(x, y, z)) == Some(ScalingElements(1.0 / x, 1.0 / y, 1.0 / z))
  {
    ScalingInvertible(x, y, z);
    ScalingReciprocal(x, y, z);
    InverseUnique(ScalingElements(x, y, z), ScalingElements(1.0 / x, 1.0 / y, 1.0 / z));
  }

  /** invert(scaling(x, y, z)) is scaling(1 / x, 1 / y, 1 / z), in either precision. */
  lemma InvertScalingMatrix(kind: RealKind, x: real, y: real, z: real)
    requires AbsReal(x) >= PIVOT_EPSILON && AbsReal(y) >= PIVOT_EPSILON && AbsReal(z) >= PIVOT_EPSILON
    ensures InvertMatrix(kind, Scaling(kind, x, y, z)) == Some(Scaling(kind, 1.0 / x, 1.0 / y, 1.0 / z))
  {
    InvertScaling(x, y, z);
  }

  lemma ScalingInvertible(x: real, y: real, z: real)
    requires AbsReal(x) >= PIVOT_EPSILON && AbsReal(y) >= PIVOT_EPSILON && AbsReal(z) >= PIVOT_EPSILON
    ensures Invert(ScalingElements(x, y, z)).Some?
  {
    var s := ScalingElements(x, y, z);
    ScalingDiagonal(x, y, z);
    ScalingDiagonal(1.0, 1.0, 1.0);
    assert Identity() == ScalingElements(1.0, 1.0, 1.0);
    forall j: nat | j < 4
      ensures AbsReal(Entry(s, j, j)) >= PIVOT_EPSILON
    {
    }
    DiagonalPivots(s, Identity(), 0);
    assert Invert(s) == PivotFrom(s, Identity(), 0);
  }

  lemma ScalingReciprocal(x: real, y: real, z: real)
    requires x != 0.0 && y != 0.0 && z != 0.0
    ensures Product(ScalingElements(x, y, z), ScalingElements(1.0 / x, 1.0 / y, 1.0 / z)) == Identity()
  {
    var a, b, c := 1.0 / x, 1.0 / y, 1.0 / z;
    ScalingsCompose(x, y, z, a, b, c);
    assert x * a == 1.0 && y * b == 1.0 && z * c == 1.0;
    calc {
      Product(ScalingElements(x, y, z), ScalingElements(a, b, c));
      ScalingElements(x * a, y * b, z * c);
      ScalingElements(1.0, 1.0, 1.0);
      Identity();
    }
  }

  /**
   * The inverse is unique: any right inverse of m is the matrix the
   * inversion returns, and inverting that result gives m back.
   */
  lemma InverseUnique(m: Mat4, w: Mat4)
    requires Invert(m).Some? && Product(m, w) == Identity()
    ensures Invert(m).value == w
  {
    var v := Invert(m).value;
    IdentityNeutral(v);
    IdentityNeutral(w);
    ProductAssociative(v, m, w);
  }

  lemma InvertInvolutive(m: Mat4)
    requires Invert(m).Some? && Invert(Invert(m).value).Some?
    ensures Invert(Invert(m).value).value == m
  {
    InverseUnique(Invert(m).value, m);
  }

  // ---------------------------------------------------------------------------
  // The operations as the source exposes them
  // ---------------------------------------------------------------------------

  /**
   * invertf (kind Float) and invertd (kind Double); invert is invertd. The
   * result is a Matrix4 of that precision, or None for null.
   */
  function InvertMatrix(kind: RealKind, m: Matrix): (r: Option<Matrix>)
    requires m.Valid() && m.shape == M4x4
    ensures r.None? <==> Invert(m.elements).None?
    ensures r.Some? ==> r.value.Valid() && r.value.shape == M4x4 && r.value.kind == kind
    ensures r.Some? ==> Product(r.value.elements, m.elements) == Identity()
                        && Product(m.elements, r.value.elements) == Identity()
  {
    match Invert(m.elements)
    case None => None
    case Some(v) => Some(Matrix4(kind, v))
  }

  // ---------------------------------------------------------------------------
  // The loops as written
  // ---------------------------------------------------------------------------

  /**
   * invertf / invertd on the elements: the copy into mat and inv, then for
   * each pivot the division loop over j and the elimination loop over k,
   * updating one element at a time.
   */
  method InvertLoops(m: Mat4) returns (r: Option<Mat4>)
    ensures r == Invert(m)
  {
    var mat: Mat4, inv: Mat4 := m, Identity();
    for i := 0 to 4
      invariant PivotFrom(mat, inv, i) == Invert(m)
    {
      var pivot := mat[i * 4 + i];
      PivotFromUnfold(mat, inv, i);
      if AbsReal(pivot) < PIVOT_EPSILON {
        return None;
      }
      mat, inv := DivideRowLoop(mat, inv, i, pivot);
      ghost var e := Eliminate(mat, inv, i, 0);
      for k := 0 to 4
        invariant Eliminate(mat, inv, i, k) == e
      {
        EliminateUnfold(mat, inv, i, k);
        if k != i {
          mat, inv := SubtractRowLoop(mat, inv, k, i);
        }
      }
      EliminateUnfold(mat, inv, i, 4);
    }
    PivotFromUnfold(mat, inv, 4);
    return Some(inv);
  }

  /** One pivot step of PivotFrom. */
  lemma PivotFromUnfold(mat: Mat4, inv: Mat4, i: nat)
    requires i <= 4
    ensures i == 4 ==> PivotFrom(mat, inv, i) == Some(inv)
    ensures i < 4 && AbsReal(mat[4 * i + i]) < PIVOT_EPSILON ==> PivotFrom(mat, inv, i) == None
    ensures i < 4 && AbsReal(mat[4 * i + i]) >= PIVOT_EPSILON ==>
              var p := mat[4 * i + i];
              var e := Eliminate(DivideRow(mat, i, p), DivideRow(inv, i, p), i, 0);
              PivotFrom(mat, inv, i) == PivotFrom(e.0, e.1, i + 1)
  {
  }

  /** The loop dividing row i of mat and of inv by the pivot, element by element. */
  method DivideRowLoop(mat: Mat4, inv: Mat4, i: nat, pivot: real) returns (mat': Mat4, inv': Mat4)
    requires i < 4 && pivot != 0.0
    ensures mat' == DivideRow(mat, i, pivot) && inv' == DivideRow(inv, i, pivot)
  {
    mat', inv' := mat, inv;
    for j := 0 to 4
      invariant forall n | 0 <= n < 16 :: mat'[n] == if n / 4 == i && n % 4 < j then mat[n] / pivot else mat[n]
      invariant forall n | 0 <= n < 16 :: inv'[n] == if n / 4 == i && n % 4 < j then inv[n] / pivot else inv[n]
    {
      mat' := mat'[i * 4 + j := mat'[i * 4 + j] / pivot];
      inv' := inv'[i * 4 + j := inv'[i * 4 + j] / pivot];
    }
  }

  /**
   * The loop subtracting factor times row i from row k of mat and of inv,
   * with factor read from mat[k][i] before the loop. The source updates both
   * arrays in one loop over j; the two updates touch different arrays, so
   * they are run here as one loop per array.
   */
  method SubtractRowLoop(mat: Mat4, inv: Mat4, k: nat, i: nat) returns (mat': Mat4, inv': Mat4)
    requires k < 4 && i < 4 && k != i
    ensures mat' == SubtractRow(mat, k, i, Entry(mat, k, i)) && inv' == SubtractRow(inv, k, i, Entry(mat, k, i))
  {
    var factor := mat[k * 4 + i];
    mat' := SubtractRowOf(mat, k, i, factor);
    inv' := SubtractRowOf(inv, k, i, factor);
  }

  /** for j in 0 .. 3: x[k * 4 + j] -= factor * x[i * 4 + j]. */
  method SubtractRowOf(x: Mat4, k: nat, i: nat, factor: real) returns (x': Mat4)
    requires k < 4 && i < 4 && k != i
    ensures x' == SubtractRow(x, k, i, factor)
  {
    x' := x;
    for j := 0 to 4
      invariant forall n | 0 <= n < 16 :: x'[n] == SubtractedBefore(x, k, i, factor, j, n)
    {
      var y := x'[k * 4 + j := x'[k * 4 + j] - factor * x'[i * 4 + j]];
      RowStep(x', y, x, k, i, factor, j, j + 1);
      x' := y;
    }
    RowReplaced(x', x, k, i, factor);
  }

  /** Element n of x once the j loop has updated the columns of row k before j. */
  function SubtractedBefore(x: Mat4, k: nat, i: nat, factor: real, j: nat, n: nat): real
    requires i < 4 && n < 16
  {
    if n / 4 == k && n % 4 < j then x[n] - factor * x[4 * i + n % 4] else x[n]
  }

  /** The update of element (k, j) extends the updated part of row k by one column. */
  lemma RowStep(x': Mat4, y: Mat4, x: Mat4, k: nat, i: nat, factor: real, j: nat, j1: nat)
    requires k < 4 && i < 4 && k != i && j < 4 && j1 == j + 1
    requires forall n | 0 <= n < 16 :: x'[n] == SubtractedBefore(x, k, i, factor, j, n)
    requires y == x'[k * 4 + j := x'[k * 4 + j] - factor * x'[i * 4 + j]]
    ensures forall n | 0 <= n < 16 :: y[n] == SubtractedBefore(x, k, i, factor, j1, n)
  {
    DivMod4(k, j);
    DivMod4(i, j);
    assert x'[k * 4 + j] == x[k * 4 + j];
    assert x'[i * 4 + j] == x[i * 4 + j];
  }

  /** Once every column of row k is updated, x' is SubtractRow(x, k, i, factor). */
  lemma RowReplaced(x': Mat4, x: Mat4, k: nat, i: nat, factor: real)
    requires k < 4 && i < 4
    requires forall n | 0 <= n < 16 :: x'[n] == SubtractedBefore(x, k, i, factor, 4, n)
    ensures x' == SubtractRow(x, k, i, factor)
  {
    forall n | 0 <= n < 16
      ensures x'[n] == SubtractRow(x, k, i, factor)[n]
    {
    }
  }
}
