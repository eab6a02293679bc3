/**
 * The precision-cast policy of the `Precision` interface: every conversion
 * between int, long, float and double either preserves the value exactly or
 * substitutes a saturation constant chosen by the sign of the input.
 *
 * The exactness test is the primitive `instanceof` pattern of Java 23
 * (JEP 455): a conversion is exact when the value is a value of the target
 * type. Floating-point values are exact reals; a float or double payload is
 * well formed when it is a value of the binary32 or binary64 format.
 */
module Precision {
  import opened Numeric

  /** PrecisionType: the four primitive precisions an element can be stored in. */
  datatype Kind = Int | Long | Float | Double

  /**
   * The floating-point precisions; PrecisionTf and PrecisionTd report these,
   * and every matrix, vector and point is stored in one of them.
   */
  type RealKind = k: Kind | k.Float? || k.Double? witness Double

  /** A Java primitive number: its precision and its payload. */
  datatype Value = IntV(i: Int32) | LongV(j: Int64) | FloatV(f: real) | DoubleV(d: real)
  {
    function Kind(): Kind {
      match this
      case IntV(_) => Int
      case LongV(_) => Long
      case FloatV(_) => Float
      case DoubleV(_) => Double
    }

    /** The mathematical value the payload denotes. */
    function Real(): real {
      match this
      case IntV(i) => i as real
      case LongV(j) => j as real
      case FloatV(f) => f
      case DoubleV(d) => d
    }

    /** A float payload is a binary32 value and a double payload a binary64 value. */
    predicate Valid() {
      Representable(Real(), Kind())
    }
  }

  /** x is a value of precision k: the primitive `instanceof` test succeeds. */
  predicate Representable(x: real, k: Kind) {
    match k
    case Int => IsInteger(x) && InInt32(x.Floor)
    case Long => IsInteger(x) && InInt64(x.Floor)
    case Float => IsBinary32(x)
    case Double => IsBinary64(x)
  }

  /**
   * The constant the policy returns for a value that is not a value of k:
   * MIN_VALUE below zero, MAX_VALUE otherwise. For float and double MIN_VALUE
   * is the smallest POSITIVE value, so a negative input saturates to a
   * positive result.
   */
  function Saturated(x: real, k: Kind): real {
    match k
    case Int => if x < 0.0 then INT_MIN as real else INT_MAX as real
    case Long => if x < 0.0 then LONG_MIN as real else LONG_MAX as real
    case Float => if x < 0.0 then FLOAT_MIN else FLOAT_MAX
    case Double => if x < 0.0 then DOUBLE_MIN else DOUBLE_MAX
  }

  // ---------------------------------------------------------------------------
  // The conversion overloads that are not the identity
  // ---------------------------------------------------------------------------

  /** precisionCastToInt(long): exact inside the int range, saturated outside. */
  function LongToInt(vj: Int64): (r: Int32)
    ensures r == vj <==> InInt32(vj)
    ensures r != vj ==> (r == INT_MIN <==> vj < 0)
    ensures !InInt32(vj) ==> r == (if vj < 0 then INT_MIN else INT_MAX)
  {
    if InInt32(vj) then vj else if vj < 0 then INT_MIN else INT_MAX
  }

  /** precisionCastToInt(double) and precisionCastToInt(float). */
  function RealToInt(x: real): (r: Int32)
    ensures r as real == x <==> Representable(x, Int)
    ensures r as real != x ==> (r == INT_MIN <==> x < 0.0)
    ensures !Representable(x, Int) ==> r as real == Saturated(x, Int)
  {
    if IsInteger(x) && InInt32(x.Floor) then x.Floor else if x < 0.0 then INT_MIN else INT_MAX
  }

  /** precisionCastToLong(double). */
  function RealToLong(x: real): (r: Int64)
    ensures r as real == x <==> Representable(x, Long)
    ensures r as real != x ==> (r == LONG_MIN <==> x < 0.0)
    ensures !Representable(x, Long) ==> r as real == Saturated(x, Long)
  {
    if IsInteger(x) && InInt64(x.Floor) then x.Floor else if x < 0.0 then LONG_MIN else LONG_MAX
  }

  /**
   * precisionCastToLong(float): a plain Java narrowing, the one conversion
   * that does not follow the policy: the fraction is dropped toward zero and
   * out-of-range values clamp to the nearest bound (section 5.1.3 of the Java
   * Language Specification).
   */
  function FloatToLong(vf: real): (r: Int64)
    ensures Representable(vf, Long) ==> r as real == vf
    ensures InInt64(Trunc(vf)) ==> r == Trunc(vf) && AbsReal(vf - r as real) < 1.0
    ensures (r as real) * vf >= 0.0 && AbsReal(r as real) <= AbsReal(vf)
    ensures vf > LONG_MAX as real ==> r == LONG_MAX
    ensures vf < LONG_MIN as real ==> r == LONG_MIN
  {
    var t := Trunc(vf);
    if t < LONG_MIN then LONG_MIN else if t > LONG_MAX then LONG_MAX else t
  }

  /** The float to long narrowing is monotone: clamping keeps the order truncation gives. */
  lemma FloatToLongMonotone(x: real, y: real)
    requires x <= y
    ensures FloatToLong(x) <= FloatToLong(y)
  {
  }

  /**
   * precisionCastToFloat(int) and precisionCastToFloat(long): exact when the
   * integer's odd part fits the 24-bit significand.
   */
  function IntegralToFloat(n: Int64): (r: real)
    ensures IsBinary32(r)
    ensures r == n as real <==> IsBinary32(n as real)
    ensures r != n as real ==> r > 0.0 && (r == FLOAT_MIN <==> n < 0)
    ensures r != n as real ==> r == Saturated(n as real, Float)
  {
    Int64OnFloatGrid(n);
    FloatExtremes();
    if FitsSignificand(n, TWO_24) then n as real else if n < 0 then FLOAT_MIN else FLOAT_MAX
  }

  /** precisionCastToDouble(long): exact when the odd part fits 53 bits. */
  function LongToDouble(vj: Int64): (r: real)
    ensures IsBinary64(r)
    ensures r == vj as real <==> IsBinary64(vj as real)
    ensures r != vj as real ==> r > 0.0 && (r == DOUBLE_MIN <==> vj < 0)
    ensures r != vj as real ==> r == Saturated(vj as real, Double)
  {
    Int64OnDoubleGrid(vj);
    DoubleExtremes();
    if FitsSignificand(vj, TWO_53) then vj as real else if vj < 0 then DOUBLE_MIN else DOUBLE_MAX
  }

  /** precisionCastToFloat(double): exact on binary32 values, saturated elsewhere. */
  function DoubleToFloat(vd: real): (r: real)
    ensures IsBinary32(r)
    ensures r == vd <==> IsBinary32(vd)
    ensures r != vd ==> r > 0.0 && (r == FLOAT_MIN <==> vd < 0.0)
    ensures r != vd ==> r == Saturated(vd, Float)
  {
    FloatExtremes();
    if IsBinary32(vd) then vd else if vd < 0.0 then FLOAT_MIN else FLOAT_MAX
  }

  // ---------------------------------------------------------------------------
  // Overload selection by the static type of the argument
  // ---------------------------------------------------------------------------

  /** The four precisionCastToInt overloads. */
  function CastToInt(v: Value): (r: Int32)
    ensures v.Kind() == Int ==> r as real == v.Real()
  {
    match v
    case IntV(i) => i
    case LongV(j) => LongToInt(j)
    case FloatV(f) => RealToInt(f)
    case DoubleV(d) => RealToInt(d)
  }

  /** The four precisionCastToLong overloads. */
  function CastToLong(v: Value): (r: Int64)
    ensures v.Kind() == Int || v.Kind() == Long ==> r as real == v.Real()
  {
    match v
    case IntV(i) => i
    case LongV(j) => j
    case FloatV(f) => FloatToLong(f)
    case DoubleV(d) => RealToLong(d)
  }

  /** The four precisionCastToFloat overloads. */
  function CastToFloat(v: Value): (r: real)
    ensures v.Valid() ==> IsBinary32(r)
  {
    match v
    case IntV(i) => IntegralToFloat(i)
    case LongV(j) => IntegralToFloat(j)
    case FloatV(f) => f
    case DoubleV(d) => DoubleToFloat(d)
  }

  /** The four precisionCastToDouble overloads; int and float widen exactly. */
  function CastToDouble(v: Value): (r: real)
    ensures v.Valid() ==> IsBinary64(r)
    ensures v.Kind() != Long ==> r == v.Real()
  {
    match v
    case IntV(i) =>
      Int32FitsDouble(i);
      Int64OnDoubleGrid(i);
      i as real
    case LongV(j) => LongToDouble(j)
    case FloatV(f) =>
      assert IsBinary32(f) ==> IsBinary64(f) by {
        if IsBinary32(f) {
          Binary32IsBinary64(f);
        }
      }
      f
    case DoubleV(d) => d
  }

  /** A conversion to precision k, as a tagged value of that precision. */
  function Cast(v: Value, k: Kind): (r: Value)
    ensures r.Kind() == k
    ensures v.Valid() ==> r.Valid()
  {
    match k
    case Int => IntV(CastToInt(v))
    case Long =>
      var j := CastToLong(v);
      assert (j as real).Floor == j;
      LongV(j)
    case Float => FloatV(CastToFloat(v))
    case Double => DoubleV(CastToDouble(v))
  }

  // ---------------------------------------------------------------------------
  // The Number dispatchers
  // ---------------------------------------------------------------------------

  /**
   * A java.lang.Number: a boxed primitive, or some other subclass (Short,
   * BigDecimal, AtomicLong, ...) known only through its xxxValue() methods.
   */
  datatype Number =
    | Boxed(v: Value)
    | OtherNumber(intValue: Int32, longValue: Int64, floatValue: real, doubleValue: real)

  /**
   * precisionCastToInt(Number): Long, Float and Double go through their
   * overloads; anything else, Integer included, answers intValue().
   */
  function NumberToInt(n: Number): (r: Int32)
    ensures n.Boxed? ==> r == CastToInt(n.v)
    ensures n.OtherNumber? ==> r == n.intValue
  {
    match n
    case Boxed(LongV(j)) => LongToInt(j)
    case Boxed(FloatV(f)) => RealToInt(f)
    case Boxed(DoubleV(d)) => RealToInt(d)
    case Boxed(IntV(i)) => i
    case OtherNumber(i, _, _, _) => i
  }

  /** precisionCastToLong(Number): Integer falls to longValue(), a widening. */
  function NumberToLong(n: Number): (r: Int64)
    ensures n.Boxed? ==> r == CastToLong(n.v)
    ensures n.OtherNumber? ==> r == n.longValue
  {
    match n
    case Boxed(LongV(j)) => j
    case Boxed(FloatV(f)) => FloatToLong(f)
    case Boxed(DoubleV(d)) => RealToLong(d)
    case Boxed(IntV(i)) => i
    case OtherNumber(_, j, _, _) => j
  }

  /** precisionCastToFloat(Number): Float falls to floatValue(), its own payload. */
  function NumberToFloat(n: Number): (r: real)
    ensures n.Boxed? ==> r == CastToFloat(n.v)
    ensures n.OtherNumber? ==> r == n.floatValue
  {
    match n
    case Boxed(IntV(i)) => IntegralToFloat(i)
    case Boxed(LongV(j)) => IntegralToFloat(j)
    case Boxed(DoubleV(d)) => DoubleToFloat(d)
    case Boxed(FloatV(f)) => f
    case OtherNumber(_, _, f, _) => f
  }

  /** precisionCastToDouble(Number): Double falls to doubleValue(), its own payload. */
  function NumberToDouble(n: Number): (r: real)
    ensures n.Boxed? ==> r == CastToDouble(n.v)
    ensures n.OtherNumber? ==> r == n.doubleValue
  {
    match n
    case Boxed(IntV(i)) => i as real
    case Boxed(LongV(j)) => LongToDouble(j)
    case Boxed(FloatV(f)) => f
    case Boxed(DoubleV(d)) => d
    case OtherNumber(_, _, _, d) => d
  }

  // ---------------------------------------------------------------------------
  // The policy as a whole
  // ---------------------------------------------------------------------------

  /**
   * Every conversion but float to long keeps a value the target can hold and
   * otherwise substitutes the saturation constant for the input's sign.
   */
  lemma CastPolicy(v: Value, k: Kind)
    requires v.Valid()
    requires !(v.Kind() == Float && k == Long)
    ensures Representable(v.Real(), k) ==> Cast(v, k).Real() == v.Real()
    ensures !Representable(v.Real(), k) ==> Cast(v, k).Real() == Saturated(v.Real(), k)
  {
    match k
    case Int => ToIntPolicy(v);
    case Long => ToLongPolicy(v);
    case Float => ToFloatPolicy(v);
    case Double => ToDoublePolicy(v);
  }

  lemma ToIntPolicy(v: Value)
    requires v.Valid()
    ensures Representable(v.Real(), Int) ==> CastToInt(v) as real == v.Real()
    ensures !Representable(v.Real(), Int) ==> CastToInt(v) as real == Saturated(v.Real(), Int)
  {
  }

  lemma ToLongPolicy(v: Value)
    requires v.Valid() && !v.FloatV?
    ensures Representable(v.Real(), Long) ==> CastToLong(v) as real == v.Real()
    ensures !Representable(v.Real(), Long) ==> CastToLong(v) as real == Saturated(v.Real(), Long)
  {
  }

  lemma ToFloatPolicy(v: Value)
    requires v.Valid()
    ensures Representable(v.Real(), Float) ==> CastToFloat(v) == v.Real()
    ensures !Representable(v.Real(), Float) ==> CastToFloat(v) == Saturated(v.Real(), Float)
  {
    match v
    case IntV(i) => Int64OnFloatGrid(i);
    case LongV(j) => Int64OnFloatGrid(j);
    case _ =>
  }

  lemma ToDoublePolicy(v: Value)
    requires v.Valid()
    ensures Representable(v.Real(), Double) ==> CastToDouble(v) == v.Real()
    ensures !Representable(v.Real(), Double) ==> CastToDouble(v) == Saturated(v.Real(), Double)
  {
    match v
    case IntV(i) =>
      Int64OnDoubleGrid(i);
      Int32FitsDouble(i);
    case LongV(j) => Int64OnDoubleGrid(j);
    case FloatV(f) => Binary32IsBinary64(f);
    case DoubleV(d) =>
  }

  /** Converting to one's own precision changes nothing. */
  lemma CastSameKind(v: Value)
    requires v.Valid()
    ensures Cast(v, v.Kind()) == v
  {
    if v.FloatV? {
      assert Representable(v.f, Float);
    }
  }

  /** A conversion's result is a value of its precision, so converting it again is a no-op. */
  lemma CastIdempotent(v: Value, k: Kind)
    requires v.Valid()
    ensures Cast(Cast(v, k), k) == Cast(v, k)
  {
    CastSameKind(Cast(v, k));
  }

  /**
   * When the target holds the value exactly, converting back to the source's
   * precision restores the original.
   */
  lemma CastRoundTrip(v: Value, k: Kind)
    requires v.Valid() && Representable(v.Real(), k)
    ensures Cast(Cast(v, k), v.Kind()) == v
  {
    var w := Cast(v, k);
    CastExact(v, k);
    CastExact(w, v.Kind());
    SameKindSameReal(Cast(w, v.Kind()), v);
  }

  /** A conversion whose target holds the value keeps it, float to long included. */
  lemma CastExact(v: Value, k: Kind)
    requires v.Valid() && Representable(v.Real(), k)
    ensures Cast(v, k).Real() == v.Real()
  {
    if !(v.Kind() == Float && k == Long) {
      CastPolicy(v, k);
    }
  }

  /** A value is determined by its precision and the number it denotes. */
  lemma SameKindSameReal(v: Value, w: Value)
    requires v.Kind() == w.Kind() && v.Real() == w.Real()
    ensures v == w
  {
  }

  /**
   * float to long truncates where double to long saturates: 2.5f gives 2, 2.5
   * gives Long.MAX_VALUE (2.5 is a value of both formats: TwoAndAHalfIsFloat,
   * TwoAndAHalfIsDouble).
   */
  lemma FloatAndDoubleToLongDiffer()
    ensures CastToLong(FloatV(2.5)) == 2
    ensures CastToLong(DoubleV(2.5)) == LONG_MAX
  {
    assert !IsInteger(2.5);
  }

  /** 2.5 is 5 / 2^1, and 5 fits every significand. */
  lemma FiveHalves()
    ensures 2.5 == 5 as real / Pow2(1) as real
    ensures FitsSignificand(5, TWO_24) && FitsSignificand(5, TWO_53)
  {
    assert OddPart(5) == 5;
  }

  lemma TwoAndAHalfIsFloat()
    ensures IsBinary32(2.5)
  {
    FiveHalves();
    DyadicOnPowerGrid(5, 1, TWO_24, E_FLOAT_SCALE, E_FLOAT_LIMIT);
    GridBinary32(2.5);
  }

  lemma TwoAndAHalfIsDouble()
    ensures IsBinary64(2.5)
  {
    FiveHalves();
    DyadicOnPowerGrid(5, 1, TWO_53, E_DOUBLE_SCALE, E_DOUBLE_LIMIT);
    GridBinary64(2.5);
  }

  /** 2^24 + 1 is the first int that float cannot hold: it saturates to Float.MAX_VALUE. */
  lemma FirstInexactInt()
    ensures CastToFloat(IntV(0x100_0000)) == 0x100_0000 as real
    ensures CastToFloat(IntV(0x100_0001)) == FLOAT_MAX
  {
    Pow2Small();
    assert OddPart(0x100_0001) == 0x100_0001;
    assert 0x100_0000 == 1 * Pow2(24);
    OddPartScaled(1, 24);
  }

  /** The double nearest to 0.1, 3602879701896397 * 2^-55. */
  const TENTH: real := 3602879701896397.0 / 36028797018963968.0

  /**
   * 0.1 as a double is not a float value, so converting it to float gives
   * Float.MAX_VALUE rather than the nearest float, and to int Integer.MAX_VALUE.
   */
  lemma TenthSaturates()
    ensures DoubleToFloat(TENTH) == FLOAT_MAX && RealToInt(TENTH) == INT_MAX
  {
    TenthOnGrids();
    TenthIsFraction();
    PositiveOffFloatGrid(TENTH);
    PositiveFraction(TENTH);
  }

  /** A positive double that float cannot hold becomes Float.MAX_VALUE. */
  lemma PositiveOffFloatGrid(vd: real)
    requires 0.0 < vd && !IsBinary32(vd)
    ensures DoubleToFloat(vd) == FLOAT_MAX
  {
  }

  /** Float.MAX_VALUE is far above int, so it becomes Integer.MAX_VALUE. */
  lemma FloatMaxToInt()
    ensures RealToInt(FLOAT_MAX) == INT_MAX
  {
    FloatExtremes();
    assert !Representable(FLOAT_MAX, Int);
  }

  /** A positive fraction becomes Integer.MAX_VALUE. */
  lemma PositiveFraction(x: real)
    requires 0.0 < x && !IsInteger(x)
    ensures RealToInt(x) == INT_MAX
  {
  }

  /** The double nearest to 0.1 is 3602879701896397 / 2^55. */
  lemma TenthDyadic()
    ensures Pow2(55) == 36028797018963968
    ensures TENTH == 3602879701896397 as real / Pow2(55) as real
  {
    Pow2Small();
    assert Pow2(55) == 4 * Pow2(53);
  }

  lemma TenthOnGrids()
    ensures IsBinary64(TENTH) && !IsBinary32(TENTH)
  {
    TenthIsBinary64();
    TenthNotBinary32();
  }

  /** The significand of the double 0.1 is odd, so it is its own odd part. */
  lemma TenthSignificand()
    ensures OddPart(3602879701896397) == 3602879701896397
    ensures FitsSignificand(3602879701896397, TWO_53) && !FitsSignificand(3602879701896397, TWO_24)
  {
    OddIsOwnOddPart(3602879701896397);
  }

  lemma TenthIsBinary64()
    ensures IsBinary64(TENTH)
  {
    TenthDyadic();
    TenthSignificand();
    Pow2Monotone(55, E_DOUBLE_LIMIT);
    DyadicOnGrid(3602879701896397, 55, TWO_53, E_DOUBLE_SCALE, Pow2(E_DOUBLE_LIMIT));
  }

  lemma TenthNotBinary32()
    ensures !IsBinary32(TENTH)
  {
    TenthDyadic();
    TenthSignificand();
    Pow2Monotone(55, E_FLOAT_LIMIT);
    DyadicOnGrid(3602879701896397, 55, TWO_24, E_FLOAT_SCALE, Pow2(E_FLOAT_LIMIT));
  }

  lemma TenthIsFraction()
    ensures 0.0 < TENTH < 1.0 && !IsInteger(TENTH)
  {
    ProperFraction(3602879701896397, 36028797018963968);
  }

  /** m / p strictly between 0 and 1 is not an integer. */
  lemma ProperFraction(m: int, p: int)
    requires 0 < m < p
    ensures 0.0 < m as real / p as real < 1.0 && !IsInteger(m as real / p as real)
  {
    var x := m as real / p as real;
    assert x * p as real == m as real;
    assert x.Floor == 0;
  }

  /** A negative value that float cannot hold comes back as a positive one. */
  lemma NegativeSaturatesPositive(v: Value)
    requires v.Valid() && v.Real() < 0.0 && !Representable(v.Real(), Float)
    ensures Cast(v, Float).Real() == FLOAT_MIN && Cast(v, Float).Real() > 0.0
  {
    CastPolicy(v, Float);
    FloatMinPositive();
  }
}
