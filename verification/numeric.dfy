/**
 * Integer and real helpers shared by the cast policy: powers of two, odd parts,
 * Java's primitive ranges and saturation constants, and the value sets of the
 * IEEE 754 binary32 and binary64 formats over exact reals.
 */
module Numeric {

  function Abs(n: int): nat {
    if n < 0 then -n else n
  }

  function AbsReal(r: real): real {
    if r < 0.0 then -r else r
  }

  /** The square of a real. */
  function Sq(r: real): real {
    r * r
  }

  /** A square is never negative, and positive unless its root is zero. */
  lemma SqPositive(r: real)
    ensures Sq(r) >= 0.0
    ensures r != 0.0 ==> Sq(r) > 0.0
  {
    if r < 0.0 {
      calc { Sq(r); (-r) * (-r); > 0.0; }
    } else if r > 0.0 {
      calc { Sq(r); r * r; > 0.0; }
    }
  }

  /**
   * What the model takes from the host's Math.sqrt, which is passed in as a
   * function: on a non-negative argument it gives the non-negative root.
   */
  ghost predicate IsSqrt(sqrt: real -> real) {
    forall q: real :: q >= 0.0 ==> sqrt(q) >= 0.0 && Sq(sqrt(q)) == q
  }

  /** A root is zero exactly when its argument is. */
  lemma SqrtZero(sqrt: real -> real, q: real)
    requires q >= 0.0
    ensures IsSqrt(sqrt) ==> (sqrt(q) == 0.0 <==> q == 0.0)
  {
    if IsSqrt(sqrt) {
      var s := sqrt(q);
      assert Sq(s) == q;
      SqPositive(s);
    }
  }

  /** 2 to the power n; it always exceeds n. */
  function Pow2(n: nat): (r: nat)
    ensures n < r
  {
    if n == 0 then 1 else 2 * Pow2(n - 1)
  }

  lemma {:induction false} Pow2Add(a: nat, b: nat)
    ensures Pow2(a + b) == Pow2(a) * Pow2(b)
  {
    if a > 0 {
      Pow2Add(a - 1, b);
      var p, q := Pow2(a - 1), Pow2(b);
      assert Pow2(a + b) == 2 * (p * q);
      assert Pow2(a) == 2 * p;
      DoubleFactor(p, q);
    }
  }

  /** Doubling a product doubles its first factor. */
  lemma DoubleFactor(p: int, q: int)
    ensures 2 * (p * q) == (2 * p) * q
  {
  }

  lemma Pow2Monotone(a: nat, b: nat)
    requires a <= b
    ensures Pow2(a) <= Pow2(b)
  {
    Pow2Add(a, b - a);
    assert Pow2(b) == Pow2(a) * Pow2(b - a);
  }

  // ---------------------------------------------------------------------------
  // Odd part of an integer: n = OddPart(n) * 2^TwosCount(n)
  // ---------------------------------------------------------------------------

  lemma HalfIsSmaller(n: int)
    requires n != 0 && n % 2 == 0
    ensures n == 2 * (n / 2) && Abs(n / 2) < Abs(n) && n / 2 != 0
  {
  }

  /** The number of factors 2 in a non-zero integer. */
  function TwosCount(n: int): nat
    requires n != 0
    decreases Abs(n)
  {
    HalfIsSmaller(if n % 2 == 0 then n else 2);
    if n % 2 == 0 then 1 + TwosCount(n / 2) else 0
  }

  /** A non-zero integer with every factor 2 divided out. */
  function OddPart(n: int): (r: int)
    requires n != 0
    ensures r % 2 == 1
    ensures n == r * Pow2(TwosCount(n))
    decreases Abs(n)
  {
    if n % 2 == 0 then
      HalfIsSmaller(n);
      var r := OddPart(n / 2);
      assert n / 2 == r * Pow2(TwosCount(n / 2));
      assert Pow2(TwosCount(n)) == 2 * Pow2(TwosCount(n / 2));
      r
    else
      n
  }

  lemma OddPartBound(n: int)
    requires n != 0
    ensures Abs(OddPart(n)) <= Abs(n)
  {
    var r, p := OddPart(n), Pow2(TwosCount(n));
    assert n == r * p;
    if r < 0 {
      assert -n == (-r) * p;
    }
  }

  lemma DoubleProduct(m: int, p: int)
    ensures m * (2 * p) == 2 * (m * p)
  {
  }

  lemma HalfOfDouble(x: int)
    ensures (2 * x) % 2 == 0 && (2 * x) / 2 == x
  {
  }

  /** Scaling a non-zero integer by a power of two leaves its odd part unchanged. */
  lemma {:induction false} OddPartScaled(m: int, e: nat)
    requires m != 0
    ensures m * Pow2(e) != 0
    ensures OddPart(m * Pow2(e)) == OddPart(m)
  {
    if e > 0 {
      OddPartScaled(m, e - 1);
      var x := m * Pow2(e - 1);
      DoubleProduct(m, Pow2(e - 1));
      assert m * Pow2(e) == 2 * x;
      HalfOfDouble(x);
      assert OddPart(2 * x) == OddPart(x);
    }
  }

  /**
   * n is exactly representable with a significand below `bound` (a power of
   * two, 2^p for a p-bit significand): it is zero or its odd part is below it.
   */
  predicate FitsSignificand(n: int, bound: nat) {
    n == 0 || Abs(OddPart(n)) < bound
  }

  /** The textbook statement of the same fact: n = m * 2^e with |m| < bound. */
  ghost predicate ScaledSignificand(n: int, bound: nat) {
    exists m: int, e: nat :: n == m * Pow2(e) && Abs(m) < bound
  }

  lemma FitsSignificandIff(n: int, bound: nat)
    requires 0 < bound
    ensures FitsSignificand(n, bound) <==> ScaledSignificand(n, bound)
  {
    if n == 0 {
      assert n == 0 * Pow2(0) && Abs(0) < bound;
    } else if FitsSignificand(n, bound) {
      var m, e := OddPart(n), TwosCount(n);
      assert n == m * Pow2(e) && Abs(m) < bound;
    } else if ScaledSignificand(n, bound) {
      var m: int, e: nat :| n == m * Pow2(e) && Abs(m) < bound;
      assert m != 0;
      OddPartScaled(m, e);
      OddPartBound(m);
      assert false;
    }
  }

  /** Scaling by a power of two keeps a value within the same significand width. */
  lemma FitsSignificandScaled(n: int, e: nat, bound: nat)
    ensures FitsSignificand(n * Pow2(e), bound) <==> FitsSignificand(n, bound)
  {
    if n != 0 {
      OddPartScaled(n, e);
    }
  }

  // ---------------------------------------------------------------------------
  // Reals: integrality, truncation toward zero
  // ---------------------------------------------------------------------------

  predicate IsInteger(r: real) {
    r.Floor as real == r
  }

  /** Rounding toward zero, the first step of a Java floating-point to integer narrowing. */
  function Trunc(r: real): int {
    if r >= 0.0 then r.Floor else -((-r).Floor)
  }

  // ---------------------------------------------------------------------------
  // Powers of two: small ones as literals, the binary formats' large ones by
  // exponent only
  // ---------------------------------------------------------------------------

  const TWO_24: nat := 0x100_0000
  const TWO_53: nat := 0x20_0000_0000_0000
  const TWO_64: nat := 0x1_0000_0000_0000_0000

  lemma Pow2Small()
    ensures Pow2(24) == TWO_24 && Pow2(31) == 0x8000_0000 && Pow2(53) == TWO_53
    ensures Pow2(63) == 0x8000_0000_0000_0000 && Pow2(64) == TWO_64
  {
    Pow2Of24();
    Pow2Of53();
    Pow2Of64();
  }

  lemma Pow2Of16()
    ensures Pow2(16) == 0x1_0000
  {
    assert Pow2(8) == 256;
    Pow2Add(8, 8);
  }

  lemma Pow2Of24()
    ensures Pow2(24) == TWO_24
  {
    Pow2Of16();
    assert Pow2(8) == 256;
    Pow2Add(16, 8);
  }

  lemma Pow2Of32()
    ensures Pow2(32) == 0x1_0000_0000 && Pow2(31) == 0x8000_0000
  {
    Pow2Of16();
    Pow2Add(16, 16);
    assert Pow2(32) == 2 * Pow2(31);
  }

  lemma Pow2Of53()
    ensures Pow2(53) == TWO_53
  {
    Pow2Of16();
    Pow2Of32();
    Pow2Add(32, 16);
    assert Pow2(5) == 32;
    Pow2Add(48, 5);
  }

  lemma Pow2Of64()
    ensures Pow2(63) == 0x8000_0000_0000_0000 && Pow2(64) == TWO_64
  {
    Pow2Of32();
    Pow2Add(32, 32);
    assert Pow2(64) == 2 * Pow2(63);
  }

  /*
   * Exponents of the binary formats (section 3.3 of IEEE 754-2008). They are
   * named constants and the powers are left symbolic: 2^1074 written out would
   * only slow every proof that mentions it.
   */
  const E_FLOAT_ULP_MAX: nat := 104   // 2^104: spacing of the largest binary32 values
  const E_FLOAT_LIMIT: nat := 128     // 2^128: the binary32 overflow threshold
  const E_FLOAT_SCALE: nat := 149     // 2^-149: the smallest binary32 subnormal
  const E_DOUBLE_ULP_MAX: nat := 971  // 2^971: spacing of the largest binary64 values
  const E_DOUBLE_LIMIT: nat := 1024   // 2^1024: the binary64 overflow threshold
  const E_DOUBLE_SCALE: nat := 1074   // 2^-1074: the smallest binary64 subnormal

  // ---------------------------------------------------------------------------
  // Java primitive ranges and the MIN_VALUE / MAX_VALUE constants
  // ---------------------------------------------------------------------------

  const INT_MIN: int := -0x8000_0000
  const INT_MAX: int := 0x7fff_ffff
  const LONG_MIN: int := -0x8000_0000_0000_0000
  const LONG_MAX: int := 0x7fff_ffff_ffff_ffff

  /** Float.MAX_VALUE, (2^24 - 1) * 2^104. */
  const FLOAT_MAX: real := (Pow2(E_FLOAT_LIMIT) - Pow2(E_FLOAT_ULP_MAX)) as real
  /** Float.MIN_VALUE, 2^-149: the smallest POSITIVE binary32 value. */
  const FLOAT_MIN: real := 1.0 / Pow2(E_FLOAT_SCALE) as real
  /** Double.MAX_VALUE, (2^53 - 1) * 2^971. */
  const DOUBLE_MAX: real := (Pow2(E_DOUBLE_LIMIT) - Pow2(E_DOUBLE_ULP_MAX)) as real
  /** Double.MIN_VALUE, 2^-1074: the smallest POSITIVE binary64 value. */
  const DOUBLE_MIN: real := 1.0 / Pow2(E_DOUBLE_SCALE) as real

  predicate InInt32(n: int) {
    INT_MIN <= n <= INT_MAX
  }

  predicate InInt64(n: int) {
    LONG_MIN <= n <= LONG_MAX
  }

  type Int32 = n: int | InInt32(n)
  type Int64 = n: int | InInt64(n)

  // ---------------------------------------------------------------------------
  // IEEE 754 binary formats as sets of reals
  // ---------------------------------------------------------------------------

  /** r measured in units of 1/scale. */
  function Scaled(r: real, scale: nat): real {
    r * scale as real
  }

  /**
   * r is a finite value of a binary format whose significands are below
   * `bound`, whose smallest subnormal is 1/scale and whose finite magnitudes are
   * below `limit`: r * scale is an integer that fits the significand, and
   * |r| < limit. (Section 3.3 of IEEE 754-2008: every finite value is m * 2^e
   * with |m| < 2^p and emin - p + 1 <= e <= emax - p + 1.)
   */
  predicate OnBinaryGrid(r: real, bound: nat, scale: nat, limit: nat) {
    IsInteger(Scaled(r, scale)) && FitsSignificand(Scaled(r, scale).Floor, bound)
    && AbsReal(r) < limit as real
  }

  /** A finite binary32 (Java float) value: p = 24, emin = -126, emax = 127. */
  predicate IsBinary32(r: real) {
    OnBinaryGrid(r, TWO_24, Pow2(E_FLOAT_SCALE), Pow2(E_FLOAT_LIMIT))
  }

  /** A finite binary64 (Java double) value: p = 53, emin = -1022, emax = 1023. */
  predicate IsBinary64(r: real) {
    OnBinaryGrid(r, TWO_53, Pow2(E_DOUBLE_SCALE), Pow2(E_DOUBLE_LIMIT))
  }

  lemma ProductAsReal(a: int, b: int)
    ensures (a * b) as real == (a as real) * (b as real)
  {
  }

  /**
   * A dyadic rational m / 2^e on a grid of spacing 2^-E (e <= E), below the
   * limit, is a value of the format exactly when m fits the significand.
   */
  lemma DyadicOnGrid(m: int, e: nat, bound: nat, scale: nat, limit: nat)
    requires e <= scale && Abs(m) < limit
    ensures OnBinaryGrid(m as real / Pow2(e) as real, bound, Pow2(scale), limit)
            <==> FitsSignificand(m, bound)
  {
    var p, q := Pow2(e), Pow2(scale - e);
    Pow2Add(e, scale - e);
    DyadicScaled(m, p, q);
    ScaledInteger(m, q);
    FitsSignificandScaled(m, scale - e, bound);
    DyadicAbs(m, p);
  }

  /** The direction of DyadicOnGrid that places a dyadic value, with the limit 2^top. */
  lemma DyadicOnPowerGrid(m: int, e: nat, bound: nat, scale: nat, top: nat)
    requires e <= scale && Abs(m) < Pow2(top) && FitsSignificand(m, bound)
    ensures OnBinaryGrid(m as real / Pow2(e) as real, bound, Pow2(scale), Pow2(top))
  {
    DyadicOnGrid(m, e, bound, scale, Pow2(top));
  }

  lemma DyadicScaled(m: int, p: nat, q: nat)
    requires 0 < p
    ensures Scaled(m as real / p as real, p * q) == (m * q) as real
  {
    ProductAsReal(p, q);
    ProductAsReal(m, q);
    var x := m as real / p as real;
    assert x * p as real == m as real;
    calc {
      Scaled(x, p * q);
      x * ((p as real) * (q as real));
      (x * p as real) * q as real;
    }
  }

  lemma DyadicAbs(m: int, p: nat)
    requires 0 < p
    ensures AbsReal(m as real / p as real) <= Abs(m) as real
  {
    var a := Abs(m) as real / p as real;
    assert AbsReal(m as real / p as real) == a;
    assert a * p as real == Abs(m) as real;
    assert a <= a * p as real;
  }

  /**
   * On integers below the format's overflow limit the grid test reduces to the
   * significand test: an integer is a value of the format iff its odd part fits.
   */
  lemma IntegerOnGrid(n: int, bound: nat, scale: nat, limit: nat)
    requires Abs(n) < limit
    ensures OnBinaryGrid(n as real, bound, Pow2(scale), limit) <==> FitsSignificand(n, bound)
  {
    DyadicOnGrid(n, 0, bound, scale, limit);
    assert n as real / Pow2(0) as real == n as real;
  }

  lemma ScaledTwice(r: real, a: nat, b: nat)
    ensures Scaled(r, a * b) == Scaled(Scaled(r, a), b)
  {
    ProductAsReal(a, b);
  }

  lemma ScaledInteger(n: int, q: nat)
    ensures Scaled(n as real, q) == (n * q) as real
    ensures IsInteger(Scaled(n as real, q)) && Scaled(n as real, q).Floor == n * q
  {
    ProductAsReal(n, q);
  }

  lemma FitsSignificandWiden(n: int, b1: nat, b2: nat)
    requires b1 <= b2 && FitsSignificand(n, b1)
    ensures FitsSignificand(n, b2)
  {
  }

  /** A finer grid, a wider significand and a higher limit keep every value. */
  lemma GridWiden(r: real, b1: nat, b2: nat, e1: nat, e2: nat, l1: nat, l2: nat)
    requires b1 <= b2 && e1 <= e2 && l1 <= l2
    requires OnBinaryGrid(r, b1, Pow2(e1), l1)
    ensures OnBinaryGrid(r, b2, Pow2(e2), l2)
  {
    var n := Scaled(r, Pow2(e1)).Floor;
    ScaledFiner(r, n, e1, e2);
    FitsSignificandScaled(n, e2 - e1, b1);
    FitsSignificandWiden(n * Pow2(e2 - e1), b1, b2);
  }

  /** An integer on the grid of 2^-e1 is 2^(e2 - e1) times that integer on the grid of 2^-e2. */
  lemma ScaledFiner(r: real, n: int, e1: nat, e2: nat)
    requires e1 <= e2 && Scaled(r, Pow2(e1)) == n as real
    ensures IsInteger(Scaled(r, Pow2(e2))) && Scaled(r, Pow2(e2)).Floor == n * Pow2(e2 - e1)
  {
    var q := Pow2(e2 - e1);
    Pow2Add(e1, e2 - e1);
    ScaledTwice(r, Pow2(e1), q);
    ScaledInteger(n, q);
  }

  /** Every binary32 value is a binary64 value (section 3.6, Table 3.5 of IEEE 754-2008). */
  lemma Binary32IsBinary64(r: real)
    requires IsBinary32(r)
    ensures IsBinary64(r)
  {
    Binary32Grid(r);
    FloatGridWidens(r);
    GridBinary64(r);
  }

  lemma FloatGridWidens(r: real)
    requires OnBinaryGrid(r, TWO_24, Pow2(E_FLOAT_SCALE), Pow2(E_FLOAT_LIMIT))
    ensures OnBinaryGrid(r, TWO_53, Pow2(E_DOUBLE_SCALE), Pow2(E_DOUBLE_LIMIT))
  {
    GridWidenTo(r, TWO_24, TWO_53, E_FLOAT_SCALE, E_DOUBLE_SCALE, E_FLOAT_LIMIT, E_DOUBLE_LIMIT);
  }

  /** GridWiden with both limits powers of two. */
  lemma GridWidenTo(r: real, b1: nat, b2: nat, e1: nat, e2: nat, t1: nat, t2: nat)
    requires b1 <= b2 && e1 <= e2 && t1 <= t2
    requires OnBinaryGrid(r, b1, Pow2(e1), Pow2(t1))
    ensures OnBinaryGrid(r, b2, Pow2(e2), Pow2(t2))
  {
    Pow2Monotone(t1, t2);
    GridWiden(r, b1, b2, e1, e2, Pow2(t1), Pow2(t2));
  }

  /** The largest finite value of a format, (2^p - 1) * 2^ulp, is on its grid. */
  lemma LargestOnGrid(p: nat, ulp: nat, scale: nat)
    requires 1 <= p
    ensures OnBinaryGrid((Pow2(ulp + p) - Pow2(ulp)) as real, Pow2(p), Pow2(scale), Pow2(ulp + p))
  {
    LargestFits(p, Pow2(p), ulp, ulp + p);
    IntegerOnPowerGrid(Pow2(ulp + p) - Pow2(ulp), Pow2(p), scale, ulp + p);
  }

  /** The largest finite value of a format, (2^p - 1) * 2^(top - p), fits below 2^top. */
  lemma LargestFits(p: nat, bound: nat, ulp: nat, top: nat)
    requires 1 <= p && bound == Pow2(p) && ulp + p == top
    ensures Abs(Pow2(top) - Pow2(ulp)) < Pow2(top) && FitsSignificand(Pow2(top) - Pow2(ulp), bound)
  {
    LargestArith(p, bound, ulp, top);
    AllOnesFits(p, bound);
    FitsSignificandScaledAs(bound - 1, ulp, bound, Pow2(top) - Pow2(ulp));
  }

  lemma IntegerOnPowerGrid(n: int, bound: nat, scale: nat, top: nat)
    requires Abs(n) < Pow2(top) && FitsSignificand(n, bound)
    ensures OnBinaryGrid(n as real, bound, Pow2(scale), Pow2(top))
  {
    IntegerOnGrid(n, bound, scale, Pow2(top));
  }

  /** 2^top - 2^ulp = (2^p - 1) * 2^ulp, strictly between 0 and 2^top. */
  lemma LargestArith(p: nat, bound: nat, ulp: nat, top: nat)
    requires 1 <= p && bound == Pow2(p) && ulp + p == top
    ensures Pow2(top) - Pow2(ulp) == (bound - 1) * Pow2(ulp)
    ensures 0 < Pow2(top) - Pow2(ulp) < Pow2(top)
  {
    Pow2Sum(p, ulp, top);
    AllOnesTimes(bound, Pow2(ulp), Pow2(top));
  }

  lemma Pow2Sum(a: nat, b: nat, c: nat)
    requires a + b == c
    ensures Pow2(c) == Pow2(a) * Pow2(b)
  {
    Pow2Add(a, b);
  }

  lemma FitsSignificandScaledAs(m: int, e: nat, bound: nat, n: int)
    requires n == m * Pow2(e)
    ensures FitsSignificand(n, bound) <==> FitsSignificand(m, bound)
  {
    FitsSignificandScaled(m, e, bound);
  }

  /** (a - 1) * u, for a >= 2 and u >= 1, lies strictly between 0 and a * u. */
  lemma AllOnesTimes(a: int, u: int, t: int)
    requires a >= 2 && u >= 1 && t == a * u
    ensures (a - 1) * u == t - u && 0 < t - u < t
  {
  }

  /** 2^p - 1 is odd and therefore its own odd part. */
  lemma AllOnesFits(p: nat, bound: nat)
    requires 1 <= p && bound == Pow2(p)
    ensures 2 <= bound && FitsSignificand(bound - 1, bound)
  {
    assert bound == 2 * Pow2(p - 1);
    OddBelowDouble(Pow2(p - 1), bound);
  }

  /** t - 1 for t = 2h is odd, so it is its own odd part, and it lies below t. */
  lemma OddBelowDouble(h: nat, t: nat)
    requires 1 <= h && t == 2 * h
    ensures 2 <= t && FitsSignificand(t - 1, t)
  {
    OddIsOwnOddPart(t - 1);
  }

  lemma OddIsOwnOddPart(n: int)
    requires n % 2 == 1
    ensures OddPart(n) == n
  {
  }

  /** The smallest positive value of a format, 2^-scale, is on its grid. */
  lemma SmallestOnGrid(bound: nat, scale: nat, top: nat)
    requires 1 < bound && 1 <= top
    ensures OnBinaryGrid(1.0 / Pow2(scale) as real, bound, Pow2(scale), Pow2(top))
  {
    assert OddPart(1) == 1;
    DyadicOnGrid(1, scale, bound, scale, Pow2(top));
  }

  /** Float.MAX_VALUE and Float.MIN_VALUE are binary32 values; MIN_VALUE is positive and tiny. */
  lemma FloatExtremes()
    ensures IsBinary32(FLOAT_MAX) && IsBinary32(FLOAT_MIN)
    ensures 0.0 < FLOAT_MIN < 1.0 && (LONG_MAX as real) < FLOAT_MAX
  {
    FloatMaxOnGrid();
    FloatMinOnGrid();
    FloatMaxAboveLong();
  }

  lemma FloatMinPositive()
    ensures 0.0 < FLOAT_MIN
  {
  }

  lemma FloatMinOnGrid()
    ensures IsBinary32(FLOAT_MIN) && 0.0 < FLOAT_MIN < 1.0
  {
    SmallestOnGrid(TWO_24, E_FLOAT_SCALE, E_FLOAT_LIMIT);
  }

  lemma FloatMaxAboveLong()
    ensures (LONG_MAX as real) < FLOAT_MAX
  {
    LargestAboveLong(E_FLOAT_ULP_MAX, E_FLOAT_LIMIT);
  }

  lemma FloatMaxOnGrid()
    ensures IsBinary32(FLOAT_MAX)
  {
    Pow2Of24();
    LargestOnGrid(24, E_FLOAT_ULP_MAX, E_FLOAT_SCALE);
  }

  /** Double.MAX_VALUE and Double.MIN_VALUE are binary64 values; MIN_VALUE is positive and tiny. */
  lemma DoubleExtremes()
    ensures IsBinary64(DOUBLE_MAX) && IsBinary64(DOUBLE_MIN)
    ensures 0.0 < DOUBLE_MIN < 1.0 && (LONG_MAX as real) < DOUBLE_MAX
  {
    DoubleMaxOnGrid();
    DoubleMinOnGrid();
    DoubleMaxAboveLong();
  }

  lemma DoubleMinOnGrid()
    ensures IsBinary64(DOUBLE_MIN) && 0.0 < DOUBLE_MIN < 1.0
  {
    SmallestOnGrid(TWO_53, E_DOUBLE_SCALE, E_DOUBLE_LIMIT);
  }

  lemma DoubleMaxAboveLong()
    ensures (LONG_MAX as real) < DOUBLE_MAX
  {
    LargestAboveLong(E_DOUBLE_ULP_MAX, E_DOUBLE_LIMIT);
  }

  lemma DoubleMaxOnGrid()
    ensures IsBinary64(DOUBLE_MAX)
  {
    Pow2Of53();
    LargestOnGrid(53, E_DOUBLE_ULP_MAX, E_DOUBLE_SCALE);
  }

  /** 2^limit - 2^ulp, with 64 <= ulp < limit, is above Long.MAX_VALUE. */
  lemma LargestAboveLong(ulp: nat, limit: nat)
    requires 64 <= ulp < limit
    ensures (LONG_MAX as real) < (Pow2(limit) - Pow2(ulp)) as real
  {
    GapAbovePow64(ulp, limit);
    Pow2Of64();
  }

  lemma GapAbovePow64(ulp: nat, limit: nat)
    requires 64 <= ulp < limit
    ensures Pow2(64) <= Pow2(limit) - Pow2(ulp)
  {
    Pow2Monotone(64, ulp);
    PowerGap(ulp, limit);
  }

  /** Between two powers of two lies at least the smaller one. */
  lemma PowerGap(low: nat, high: nat)
    requires low < high
    ensures Pow2(low) <= Pow2(high) - Pow2(low)
  {
    assert Pow2(low + 1) == 2 * Pow2(low);
    Pow2Monotone(low + 1, high);
  }

  lemma Int64BelowPow64(n: int)
    requires InInt64(n)
    ensures Abs(n) < Pow2(64)
  {
    Pow2Of64();
  }

  /**
   * The format predicates unfold to the grid test one direction at a time:
   * a single equivalence over both literal powers of two is far costlier to
   * prove than each implication.
   */
  lemma Binary32Grid(r: real)
    requires IsBinary32(r)
    ensures OnBinaryGrid(r, TWO_24, Pow2(E_FLOAT_SCALE), Pow2(E_FLOAT_LIMIT))
  {
  }

  lemma GridBinary32(r: real)
    requires OnBinaryGrid(r, TWO_24, Pow2(E_FLOAT_SCALE), Pow2(E_FLOAT_LIMIT))
    ensures IsBinary32(r)
  {
  }

  lemma Binary64Grid(r: real)
    requires IsBinary64(r)
    ensures OnBinaryGrid(r, TWO_53, Pow2(E_DOUBLE_SCALE), Pow2(E_DOUBLE_LIMIT))
  {
  }

  lemma GridBinary64(r: real)
    requires OnBinaryGrid(r, TWO_53, Pow2(E_DOUBLE_SCALE), Pow2(E_DOUBLE_LIMIT))
    ensures IsBinary64(r)
  {
  }

  /** On a grid whose limit is at least 2^64, a long is on it iff it fits the significand. */
  lemma Int64OnGrid(n: int, bound: nat, scale: nat, top: nat)
    requires InInt64(n) && 64 <= top
    ensures OnBinaryGrid(n as real, bound, Pow2(scale), Pow2(top)) <==> FitsSignificand(n, bound)
  {
    Int64BelowPow2(n, top);
    IntegerOnGrid(n, bound, scale, Pow2(top));
  }

  lemma Int64BelowPow2(n: int, top: nat)
    requires InInt64(n) && 64 <= top
    ensures Abs(n) < Pow2(top)
  {
    Int64BelowPow64(n);
    Pow2Monotone(64, top);
  }

  /** Longs are binary32 exactly when they fit 24 bits. */
  lemma Int64OnFloatGrid(n: int)
    requires InInt64(n)
    ensures IsBinary32(n as real) <==> FitsSignificand(n, TWO_24)
  {
    if IsBinary32(n as real) {
      Binary32Fits(n);
    }
    if FitsSignificand(n, TWO_24) {
      FitsBinary32(n);
    }
  }

  lemma Binary32Fits(n: int)
    requires InInt64(n) && IsBinary32(n as real)
    ensures FitsSignificand(n, TWO_24)
  {
    Binary32Grid(n as real);
    Int64OnGrid(n, TWO_24, E_FLOAT_SCALE, E_FLOAT_LIMIT);
  }

  lemma WideNotBinary32(n: int)
    requires InInt64(n) && !FitsSignificand(n, TWO_24)
    ensures !IsBinary32(n as real)
  {
    if IsBinary32(n as real) {
      Binary32Fits(n);
      assert false;
    }
  }

  lemma FitsBinary32(n: int)
    requires InInt64(n) && FitsSignificand(n, TWO_24)
    ensures IsBinary32(n as real)
  {
    Int64OnGrid(n, TWO_24, E_FLOAT_SCALE, E_FLOAT_LIMIT);
    GridBinary32(n as real);
  }

  /** Longs are binary64 exactly when they fit 53 bits. */
  lemma Int64OnDoubleGrid(n: int)
    requires InInt64(n)
    ensures IsBinary64(n as real) <==> FitsSignificand(n, TWO_53)
  {
    if IsBinary64(n as real) {
      Binary64Fits(n);
    }
    if FitsSignificand(n, TWO_53) {
      FitsBinary64(n);
    }
  }

  lemma Binary64Fits(n: int)
    requires InInt64(n) && IsBinary64(n as real)
    ensures FitsSignificand(n, TWO_53)
  {
    Binary64Grid(n as real);
    Int64OnGrid(n, TWO_53, E_DOUBLE_SCALE, E_DOUBLE_LIMIT);
  }

  lemma FitsBinary64(n: int)
    requires InInt64(n) && FitsSignificand(n, TWO_53)
    ensures IsBinary64(n as real)
  {
    Int64OnGrid(n, TWO_53, E_DOUBLE_SCALE, E_DOUBLE_LIMIT);
    GridBinary64(n as real);
  }

  /** Every int value fits a 53-bit significand, so int to double is always exact. */
  lemma Int32FitsDouble(n: int)
    requires InInt32(n)
    ensures FitsSignificand(n, TWO_53)
  {
    if n != 0 {
      OddPartBound(n);
      Pow2Small();
    }
  }
}
