/**
 * The `Matrix` hierarchy: the four shapes with their ROWS, COLS and SIZE
 * constants, the backing array and the shape-agnostic defaults at(index),
 * rows(), cols() and size(), and the row accessors of the Matrix1x3, Matrix3
 * and Matrix4 records, which check the row and read the row-major element
 * array[row * COLS + offset].
 */
module Matrix {
  import opened Numeric
  import opened Precision
  import opened Coordinates
  import opened Wrappers

  /** Matrix1x2, Matrix1x3, Matrix3 (3x3) and Matrix4 (4x4). */
  datatype Shape = M1x2 | M1x3 | M3x3 | M4x4
  {
    /** ROWS */
    function Rows(): nat {
      match this
      case M1x2 => 1
      case M1x3 => 1
      case M3x3 => 3
      case M4x4 => 4
    }

    /** COLS */
    function Cols(): nat {
      match this
      case M1x2 => 2
      case M1x3 => 3
      case M3x3 => 3
      case M4x4 => 4
    }

    /** SIZE, the length of the backing array: ROWS * COLS. */
    function Size(): (n: nat)
      ensures n == Rows() * Cols()
    {
      match this
      case M1x2 => 2
      case M1x3 => 3
      case M3x3 => 9
      case M4x4 => 16
    }
  }

  /** What array() returns: one of the four primitive arrays, or some other array. */
  datatype Storage =
    | IntArray(ints: seq<Int32>)
    | LongArray(longs: seq<Int64>)
    | FloatArray(floats: seq<real>)
    | DoubleArray(doubles: seq<real>)
    | OtherArray(length: nat)
  {
    /** Array.getLength(array()), which is also the default size(). */
    function Length(): nat {
      match this
      case IntArray(a) => |a|
      case LongArray(a) => |a|
      case FloatArray(a) => |a|
      case DoubleArray(a) => |a|
      case OtherArray(n) => n
    }

    /** The elements of a primitive array as the numbers they denote. */
    function Reals(): (s: seq<real>)
      requires !OtherArray?
      ensures |s| == Length()
    {
      match this
      case IntArray(a) => seq(|a|, i requires 0 <= i < |a| => a[i] as real)
      case LongArray(a) => seq(|a|, i requires 0 <= i < |a| => a[i] as real)
      case FloatArray(a) => a
      case DoubleArray(a) => a
    }

    /** The component type, for the four primitive arrays. */
    function Component(): Option<Kind> {
      match this
      case IntArray(_) => Some(Int)
      case LongArray(_) => Some(Long)
      case FloatArray(_) => Some(Float)
      case DoubleArray(_) => Some(Double)
      case OtherArray(_) => None
    }
  }

  /**
   * at(index): the element boxed in the array's own precision; an array of
   * another component type is an IllegalStateException, an index outside the
   * array an ArrayIndexOutOfBoundsException.
   */
  function At(a: Storage, index: int): (r: Result<Number>)
    ensures r.Ok? <==> !a.OtherArray? && 0 <= index < a.Length()
    ensures a.OtherArray? ==> r == Err(UnexpectedBackingArray)
    ensures !a.OtherArray? && !(0 <= index < a.Length()) ==> r == Err(IndexOutOfBounds)
    ensures r.Ok? ==> r.value.Boxed? && a.Component() == Some(r.value.v.Kind())
    ensures r.Ok? ==> r.value.v.Real() == a.Reals()[index]
  {
    if a.OtherArray? then Err(UnexpectedBackingArray)
    else if !(0 <= index < a.Length()) then Err(IndexOutOfBounds)
    else Ok(Boxed(ElementValue(a, index)))
  }

  /** The element at an in-range index, in the array's component type. */
  function ElementValue(a: Storage, index: nat): (v: Value)
    requires !a.OtherArray? && index < a.Length()
    ensures a.Component() == Some(v.Kind()) && v.Real() == a.Reals()[index]
  {
    match a
    case IntArray(s) => IntV(s[index])
    case LongArray(s) => LongV(s[index])
    case FloatArray(s) => FloatV(s[index])
    case DoubleArray(s) => DoubleV(s[index])
  }

  /**
   * The default cols(): the column count implied by the array length. Up to
   * four elements are one row of that many columns; 9 and 16 are square.
   */
  function ColsOf(length: nat): (r: Result<nat>)
    ensures r.Ok? <==> length in {2, 3, 4, 9, 16}
    ensures r.Err? ==> r.fault == UnknownShape
    ensures r.Ok? && length <= 4 ==> r.value == length
    ensures r.Ok? && length > 4 ==> r.value * r.value == length
  {
    match length
    case 2 => Ok(2)
    case 3 => Ok(3)
    case 9 => Ok(3)
    case 4 => Ok(4)
    case 16 => Ok(4)
    case _ => Err(UnknownShape)
  }

  /** The default rows(): one row up to four elements, square for 9 and 16. */
  function RowsOf(length: nat): (r: Result<nat>)
    ensures r.Ok? <==> length in {2, 3, 4, 9, 16}
    ensures r.Err? ==> r.fault == UnknownShape
    ensures r.Ok? && length <= 4 ==> r.value == 1
    ensures r.Ok? && length > 4 ==> r.value * r.value == length
  {
    match length
    case 2 => Ok(1)
    case 3 => Ok(1)
    case 4 => Ok(1)
    case 9 => Ok(3)
    case 16 => Ok(4)
    case _ => Err(UnknownShape)
  }

  /**
   * The length-derived shape is consistent: rows times cols is the length,
   * and for each shape the defaults agree with its ROWS and COLS overrides.
   */
  lemma ShapeOfLength(length: nat)
    requires RowsOf(length).Ok?
    ensures ColsOf(length).Ok?
    ensures RowsOf(length).value * ColsOf(length).value == length
    ensures RowsOf(length).value <= ColsOf(length).value
    ensures RowsOf(length).value == 1 || RowsOf(length).value == ColsOf(length).value
  {
  }

  /** Four elements are one row of four columns, not a 2x2 matrix. */
  lemma FourIsOneRow()
    ensures ColsOf(4) == Ok(4) && RowsOf(4) == Ok(1)
  {
  }

  lemma DefaultsAgreeWithShape(s: Shape)
    ensures ColsOf(s.Size()) == Ok(s.Cols()) && RowsOf(s.Size()) == Ok(s.Rows())
  {
  }

  /**
   * A Matrix1x2, Matrix1x3, Matrix3 or Matrix4 of precision kind over its
   * backing array, row-major.
   */
  datatype Matrix = Matrix(shape: Shape, kind: RealKind, elements: seq<real>)
  {
    /** The backing array has SIZE elements. */
    predicate Valid() {
      |elements| == shape.Size()
    }

    /** array(), as the float[] or double[] it is. */
    function Storage(): Storage {
      if kind == Float then FloatArray(elements) else DoubleArray(elements)
    }
  }

  /** The records' no-argument constructors: a zero-filled array of SIZE elements. */
  function Zero(shape: Shape, kind: RealKind): (m: Matrix)
    ensures m.Valid() && m.shape == shape && m.kind == kind
    ensures forall i | 0 <= i < |m.elements| :: m.elements[i] == 0.0
  {
    Matrix(shape, kind, seq(shape.Size(), _ => 0.0))
  }

  /**
   * x(row), y(row), z(row), w(row): Objects.checkIndex(row, ROWS), then the
   * element at row * COLS + the axis' column offset.
   */
  function Element(m: Matrix, row: int, axis: Axis): (r: Result<real>)
    requires m.Valid() && axis.Offset() < m.shape.Cols()
    ensures r.Ok? <==> 0 <= row < m.shape.Rows()
    ensures r.Err? ==> r.fault == IndexOutOfBounds
  {
    if 0 <= row < m.shape.Rows() then
      RowMajorIndex(m.shape, row, axis.Offset());
      Ok(m.elements[row * m.shape.Cols() + axis.Offset()])
    else
      Err(IndexOutOfBounds)
  }

  /** Row-major indices of in-range cells stay inside the array. */
  lemma RowMajorIndex(s: Shape, row: nat, col: nat)
    requires row < s.Rows() && col < s.Cols()
    ensures 0 <= row * s.Cols() + col < s.Size()
  {
    match s
    case M1x2 =>
    case M1x3 =>
    case M3x3 =>
    case M4x4 =>
  }

  /**
   * Every array index is exactly one cell: row index / COLS, column
   * index % COLS.
   */
  lemma RowMajorCovers(s: Shape, index: nat)
    requires index < s.Size()
    ensures index / s.Cols() < s.Rows() && index % s.Cols() < s.Cols()
    ensures (index / s.Cols()) * s.Cols() + index % s.Cols() == index
  {
  }

  /**
   * The typed row accessors xd(row), xf(row), xi(row), xj(row), xn(row) and
   * their y, z and w counterparts, for the records that have them.
   */
  function ReadAt(m: Matrix, row: int, axis: Axis): (r: Result<Reading>)
    requires m.Valid() && m.shape != M1x2 && axis.Offset() < m.shape.Cols()
    ensures r.Ok? <==> 0 <= row < m.shape.Rows()
    ensures r.Ok? ==> r.value.d == Element(m, row, axis).value
    ensures r.Ok? && m.kind == Float ==> r.value.f == r.value.d
    ensures r.Ok? ==> NumberToInt(r.value.n) == r.value.i && NumberToLong(r.value.n) == r.value.j
  {
    match Element(m, row, axis)
    case Ok(x) => Ok(Read(m.kind, x))
    case Err(e) => Err(e)
  }

  /** An in-range row reads the element at row * COLS + offset in the matrix's precision. */
  lemma ReadAtInRange(m: Matrix, row: nat, axis: Axis)
    requires m.Valid() && m.shape != M1x2 && axis.Offset() < m.shape.Cols()
    requires row < m.shape.Rows()
    ensures 0 <= row * m.shape.Cols() + axis.Offset() < |m.elements|
    ensures ReadAt(m, row, axis) == Ok(Read(m.kind, m.elements[row * m.shape.Cols() + axis.Offset()]))
  {
    RowMajorIndex(m.shape, row, axis.Offset());
  }

  /**
   * at(index) and the row accessors address the same element: the boxed
   * element at row * COLS + offset is, as a double, the xd(row) reading.
   */
  lemma AtAgreesWithReadAt(m: Matrix, row: nat, axis: Axis)
    requires m.Valid() && m.shape != M1x2 && axis.Offset() < m.shape.Cols()
    requires row < m.shape.Rows()
    ensures At(m.Storage(), row * m.shape.Cols() + axis.Offset()).Ok?
    ensures NumberToDouble(At(m.Storage(), row * m.shape.Cols() + axis.Offset()).value)
            == ReadAt(m, row, axis).value.d
  {
    ReadAtInRange(m, row, axis);
    StoredAsDouble(m, row * m.shape.Cols() + axis.Offset());
  }

  /** at(index) of an in-range index boxes the stored element, which reads back as itself. */
  lemma StoredAsDouble(m: Matrix, index: int)
    requires m.Valid() && 0 <= index < |m.elements|
    ensures At(m.Storage(), index).Ok?
    ensures NumberToDouble(At(m.Storage(), index).value) == m.elements[index]
  {
  }

  /** A Matrix3d with 0.1 in every cell. */
  function TenthMatrix(): (m: Matrix)
    ensures m.Valid() && m.shape == M3x3 && m.kind == Double && m.elements[0] == TENTH
  {
    Matrix(M3x3, Double, seq(9, _ => TENTH))
  }

  /**
   * A double matrix holding 0.1 reads Float.MAX_VALUE through xf(row) and
   * Integer.MAX_VALUE through xi(row); xd(row) still reads the stored double.
   */
  lemma Matrix3dTenth()
    ensures ReadAt(TenthMatrix(), 0, X) == Ok(Read(Double, TENTH))
    ensures Read(Double, TENTH).d == TENTH && Read(Double, TENTH).f == FLOAT_MAX && Read(Double, TENTH).i == INT_MAX
  {
    ReadAtInRange(TenthMatrix(), 0, X);
    TenthNotBinary32();
    TenthIsFraction();
    SaturatedDoubleReading(TENTH);
  }

  /** A Matrix3f with 2.5 in every cell. */
  function TwoAndAHalfMatrix(): (m: Matrix)
    ensures m.Valid() && m.shape == M3x3 && m.kind == Float && m.elements[8] == 2.5
  {
    Matrix(M3x3, Float, seq(9, _ => 2.5))
  }

  /** A float matrix holding 2.5 reads 2 through xj(row) but Integer.MAX_VALUE through xi(row). */
  lemma Matrix3fTwoAndAHalf()
    ensures ReadAt(TwoAndAHalfMatrix(), 2, Z) == Ok(Read(Float, 2.5))
    ensures Read(Float, 2.5).j == 2 && Read(Float, 2.5).i == INT_MAX
  {
    ReadAtInRange(TwoAndAHalfMatrix(), 2, Z);
    assert !IsInteger(2.5);
  }
}
