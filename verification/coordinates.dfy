/**
 * The typed readings of one stored coordinate, shared by every matrix, vector
 * and point: the column offsets of the x, y, z and w axes, and how the double,
 * float, int, long and Number readings derive from the stored element.
 *
 * A float-stored element is read as float directly; a double-stored element
 * is read as double directly and as float through the precision policy. The
 * int, long and Number readings always go through the float reading.
 */
module Coordinates {
  import opened Numeric
  import opened Precision

  /** X_COL_OFFSET, Y_COL_OFFSET, Z_COL_OFFSET and W_COL_OFFSET. */
  datatype Axis = X | Y | Z | W
  {
    function Offset(): nat {
      match this
      case X => 0
      case Y => 1
      case Z => 2
      case W => 3
    }
  }

  /** The five readings xd, xf, xi, xj and xn of one coordinate. */
  datatype Reading = Reading(d: real, f: real, i: Int32, j: Int64, n: Number)

  /**
   * The readings the default methods derive from a float reading: xd widens
   * it, xi and xj convert it with the float overloads, xn boxes it.
   */
  function FromFloat(f: real): (r: Reading)
    ensures r.f == f && r.d == f
    ensures r.i as real == f <==> Representable(f, Int)
    ensures !Representable(f, Int) ==> r.i == (if f < 0.0 then INT_MIN else INT_MAX)
    ensures Representable(f, Long) ==> r.j as real == f
    ensures InInt64(Trunc(f)) ==> r.j == Trunc(f)
    ensures f > LONG_MAX as real ==> r.j == LONG_MAX
    ensures f < LONG_MIN as real ==> r.j == LONG_MIN
    ensures r.n == Boxed(FloatV(f))
    ensures NumberToInt(r.n) == r.i && NumberToLong(r.n) == r.j
    ensures NumberToFloat(r.n) == r.f && NumberToDouble(r.n) == r.d
  {
    Reading(f, f, RealToInt(f), FloatToLong(f), Boxed(FloatV(f)))
  }

  /**
   * The readings of an element stored in precision k. Only the double reading
   * of a double-stored element bypasses the float reading.
   */
  function Read(k: RealKind, stored: real): (r: Reading)
    ensures r.d == stored
    ensures r.f == stored <==> k == Float || IsBinary32(stored)
    ensures r.d == r.f <==> k == Float || IsBinary32(stored)
    ensures k == Double ==> IsBinary32(r.f)
    ensures k == Double && !IsBinary32(stored) ==> r.f == (if stored < 0.0 then FLOAT_MIN else FLOAT_MAX)
    ensures NumberToInt(r.n) == r.i && NumberToLong(r.n) == r.j && NumberToFloat(r.n) == r.f
  {
    match k
    case Float => FromFloat(stored)
    case Double =>
      var rf := FromFloat(DoubleToFloat(stored));
      rf.(d := stored)
  }

  /**
   * A positive double-stored value that float cannot hold reads as
   * Float.MAX_VALUE through xf and as Integer.MAX_VALUE through xi.
   */
  lemma SaturatedDoubleReading(stored: real)
    requires 0.0 < stored && !IsBinary32(stored)
    ensures Read(Double, stored).f == FLOAT_MAX && Read(Double, stored).i == INT_MAX
  {
    PositiveOffFloatGrid(stored);
    FloatMaxToInt();
  }

  /**
   * A double-stored whole number that float cannot hold reads as
   * Integer.MAX_VALUE through xi, although int holds it: 2^24 + 1 is one.
   */
  lemma DoubleStoredIntReadsSaturated()
    ensures Representable(0x100_0001 as real, Int)
    ensures IsBinary64(0x100_0001 as real)
    ensures Read(Double, 0x100_0001 as real).i == INT_MAX
  {
    OddIsOwnOddPart(0x100_0001);
    FitsBinary64(0x100_0001);
    WideIntReadsSaturated(0x100_0001);
  }

  /** The same for any positive long whose odd part needs more than 24 bits. */
  lemma WideIntReadsSaturated(n: int)
    requires 0 < n && InInt64(n) && !FitsSignificand(n, TWO_24)
    ensures Read(Double, n as real).i == INT_MAX
  {
    WideNotBinary32(n);
    SaturatedDoubleReading(n as real);
  }

  /**
   * The int, long and Number readings of a stored coordinate go through its
   * float reading: the policy's int cast, the float to long narrowing, and
   * the boxed float.
   */
  lemma IntReading(k: RealKind, stored: real)
    ensures Read(k, stored).i == RealToInt(Read(k, stored).f)
    ensures Read(k, stored).j == FloatToLong(Read(k, stored).f)
    ensures Read(k, stored).n == Boxed(FloatV(Read(k, stored).f))
  {
  }

  /** xi() is the stored coordinate or one of the int saturation constants. */
  lemma IntReadingCases(k: RealKind, stored: real)
    ensures var i := Read(k, stored).i;
            i as real == stored || i == INT_MIN || i == INT_MAX
  {
    IntReading(k, stored);
    if Read(k, stored).f != stored {
      SaturatedFloatIsNotInt(Read(k, stored).f);
    }
  }

  /** The two float saturation constants are far outside int. */
  lemma SaturatedFloatIsNotInt(f: real)
    requires f == FLOAT_MIN || f == FLOAT_MAX
    ensures RealToInt(f) == INT_MIN || RealToInt(f) == INT_MAX
  {
    FloatExtremes();
    assert !Representable(f, Int);
  }
}
