/** Exact real arithmetic helpers, and the floating-point library routines of the
    source (math.sin, math.sinh, math.exp, math.log, math.log10, math.sqrt and
    10 ** x) as uninterpreted total functions. Each law a proof relies on is a
    separate predicate that only the lemmas needing it require. */
module Elementary {

  /** The value of Python's math.pi. */
  const PI: real := 3.141592653589793

  /** The library routines, passed to every operation that calls one of them. */
  datatype Lib = Lib(
    sin: real -> real,
    sinh: real -> real,
    exp: real -> real,
    ln: real -> real,
    log10: real -> real,
    sqrt: real -> real,
    pow10: real -> real)

  function Abs(x: real): real { if x < 0.0 then -x else x }

  function Max(x: real, y: real): real { if x >= y then x else y }

  function Min(x: real, y: real): real { if x <= y then x else y }

  /** Python's max(1, min(11, n)) and friends on integers. */
  function IMax(x: int, y: int): int { if x >= y then x else y }

  function IMin(x: int, y: int): int { if x <= y then x else y }

  /** x ** n for a natural exponent. */
  function Power(x: real, n: nat): real
  {
    if n == 0 then 1.0 else x * Power(x, n - 1)
  }

  /** 10 ** e for an integer exponent, exactly. */
  function Pow10(e: int): (r: real)
    ensures r > 0.0
    decreases if e < 0 then -e else e
  {
    if e == 0 then 1.0
    else if e > 0 then 10.0 * Pow10(e - 1)
    else Pow10(e + 1) / 10.0
  }

  /** x * 10 ** e, kept as a function so that callers see no raw product. */
  function TimesPow10(x: real, e: int): real
  {
    x * Pow10(e)
  }

  /** Scaling by a power of ten keeps the order. */
  lemma TimesPow10Bounds(x: real, e: int, lo: real, hi: real)
    requires lo <= x < hi
    ensures TimesPow10(lo, e) <= TimesPow10(x, e) < TimesPow10(hi, e)
  {
    var p := Pow10(e);
    assert (x - lo) * p >= 0.0;
    assert (hi - x) * p > 0.0;
  }

  lemma TimesPow10Units(e: int)
    ensures TimesPow10(1.0, e) == Pow10(e)
    ensures TimesPow10(10.0, e) == Pow10(e + 1)
  {
    Pow10Step(e);
  }

  /** A mantissa in [1, 10) puts the value in the decade of its exponent. */
  lemma TimesPow10InDecade(x: real, e: int)
    requires 1.0 <= x < 10.0
    ensures Pow10(e) <= TimesPow10(x, e) < Pow10(e + 1)
  {
    TimesPow10Bounds(x, e, 1.0, 10.0);
    TimesPow10Units(e);
  }

  /** Moving a factor of ten between mantissa and exponent. */
  lemma TimesPow10Shift(a: real, e: int)
    ensures TimesPow10(a / 10.0, e) == TimesPow10(a, e - 1)
    ensures TimesPow10(a * 10.0, e) == TimesPow10(a, e + 1)
  {
    Pow10Step(e - 1);
    Pow10Step(e);
    var q := Pow10(e - 1);
    assert TimesPow10(a / 10.0, e) == a / 10.0 * (10.0 * q) == a * q;
    assert TimesPow10(a * 10.0, e) == a * 10.0 * Pow10(e) == a * (10.0 * Pow10(e));
  }

  lemma TimesPow10Injective(a: real, b: real, e: int)
    requires TimesPow10(a, e) == TimesPow10(b, e)
    ensures a == b
  {
    if a < b {
      TimesPow10Bounds(a, e, a, b);
    } else if a > b {
      TimesPow10Bounds(b, e, b, a);
    }
  }

  lemma Pow10Step(e: int)
    ensures Pow10(e + 1) == 10.0 * Pow10(e)
  {
  }

  lemma {:induction false} Pow10Monotone(a: int, b: int)
    requires a <= b
    ensures Pow10(a) <= Pow10(b)
    decreases b - a
  {
    if a < b {
      Pow10Monotone(a, b - 1);
      Pow10Step(b - 1);
    }
  }

  /** Comparing a quotient by a positive divisor is comparing the product. */
  lemma DivAtLeast(v: real, p: real, a: real)
    requires p > 0.0
    ensures a <= v / p <==> a * p <= v
  {
    var q := v / p;
    assert q * p == v;
    assert (q - a) * p == v - a * p;
    if a <= q {
      assert (q - a) * p >= 0.0;
    } else {
      assert (a - q) * p > 0.0;
    }
  }

  lemma DivBelow(v: real, p: real, a: real)
    requires p > 0.0
    ensures v / p < a <==> v < a * p
  {
    DivAtLeast(v, p, a);
  }

  /** Scaling by a positive factor keeps the order of distances. */
  lemma ScaledDistance(a: real, b: real, m: real, p: real)
    requires p > 0.0
    requires Abs(a - m) <= Abs(b - m)
    ensures Abs(a * p - m * p) <= Abs(b * p - m * p)
  {
    assert a * p - m * p == (a - m) * p;
    assert b * p - m * p == (b - m) * p;
    assert Abs((a - m) * p) == Abs(a - m) * p;
    assert Abs((b - m) * p) == Abs(b - m) * p;
    assert (Abs(b - m) - Abs(a - m)) * p >= 0.0;
  }

  lemma ProductNonNegative(a: real, b: real)
    requires a >= 0.0 && b >= 0.0
    ensures a * b >= 0.0
  {
  }

  lemma ProductPositive(a: real, b: real)
    requires a > 0.0 && b > 0.0
    ensures a * b > 0.0
  {
    ProductNonNegative(a, b);
    assert a * b != 0.0;
  }

  lemma ProductNonZero(a: real, b: real)
    requires a != 0.0 && b != 0.0
    ensures a * b != 0.0
  {
    if a > 0.0 && b > 0.0 {
      ProductPositive(a, b);
    } else if a > 0.0 {
      ProductPositive(a, -b);
    } else if b > 0.0 {
      ProductPositive(-a, b);
    } else {
      ProductPositive(-a, -b);
    }
  }

  lemma ProductZeroIff(a: real, b: real)
    ensures a * b == 0.0 <==> a == 0.0 || b == 0.0
  {
    if a != 0.0 && b != 0.0 {
      ProductNonZero(a, b);
    }
  }

  lemma ScaleMonotone(k: real, a: real, b: real)
    requires k >= 0.0 && a <= b
    ensures k * a <= k * b
  {
    ProductNonNegative(k, b - a);
  }

  lemma QuotientPositive(a: real, b: real)
    requires a > 0.0 && b > 0.0
    ensures a / b > 0.0
  {
    DivBelow(a, b, 0.0);
  }

  /** The reciprocal of a number at least one lies in (0, 1]. */
  lemma ReciprocalUnit(d: real)
    requires d >= 1.0
    ensures 0.0 < 1.0 / d <= 1.0
  {
    QuotientPositive(1.0, d);
    DivAtLeast(1.0, d, 1.0);
  }

  /** The reciprocal reverses the order of positive numbers. */
  lemma ReciprocalAntitone(d1: real, d2: real)
    requires 0.0 < d1 <= d2
    ensures 1.0 / d2 <= 1.0 / d1
  {
    var q := 1.0 / d1;
    assert q * d1 == 1.0;
    QuotientPositive(1.0, d1);
    ScaleMonotone(q, d1, d2);
    DivAtLeast(1.0, d2, q);
  }

  lemma SquarePositive(x: real)
    requires x > 0.0
    ensures Power(x, 2) > 0.0
  {
    assert Power(x, 1) == x;
    assert Power(x, 2) == x * Power(x, 1);
    ProductPositive(x, Power(x, 1));
  }

  lemma PowerTwo(x: real)
    ensures Power(x, 2) == x * x
  {
    assert Power(x, 1) == x;
  }

  lemma {:induction false} PowerOfOne(n: nat)
    ensures Power(1.0, n) == 1.0
  {
    if n > 0 { PowerOfOne(n - 1); }
  }

  lemma {:induction false} PowerOfZero(n: nat)
    requires n >= 1
    ensures Power(0.0, n) == 0.0
  {
  }

  lemma {:induction false} PowerNonNegative(x: real, n: nat)
    requires x >= 0.0
    ensures Power(x, n) >= 0.0
  {
    if n > 0 {
      PowerNonNegative(x, n - 1);
    }
  }

  /** An even power is never negative, whatever the sign of the base. */
  lemma {:induction false} EvenPowerNonNegative(x: real, n: nat)
    ensures Power(x, 2 * n) >= 0.0
  {
    if n > 0 {
      EvenPowerNonNegative(x, n - 1);
      assert Power(x, 2 * n) == x * x * Power(x, 2 * (n - 1));
      assert x * x >= 0.0;
    }
  }

  lemma {:induction false} PowerMonotone(x: real, y: real, n: nat)
    requires 0.0 <= x <= y
    ensures Power(x, n) <= Power(y, n)
  {
    if n > 0 {
      var px, py := Power(x, n - 1), Power(y, n - 1);
      PowerMonotone(x, y, n - 1);
      ScaleMonotone(x, px, py);
      PowerNonNegative(y, n - 1);
      ScaleMonotone(py, x, y);
      assert py * x == x * py && py * y == y * py;
    }
  }

  // ---------------------------------------------------------------------------
  // Laws of the library routines that some proofs need.

  /** sin is positive strictly between 0 and pi. */
  ghost predicate SinPositive(lib: Lib)
  {
    forall x :: 0.0 < x < PI ==> lib.sin(x) > 0.0
  }

  /** exp(0) = 1 and exp lies above 1 to the right of 0, in (0, 1) to its left. */
  ghost predicate ExpLaws(lib: Lib)
  {
    lib.exp(0.0) == 1.0 &&
    forall x :: (x > 0.0 ==> lib.exp(x) > 1.0) && (x < 0.0 ==> 0.0 < lib.exp(x) < 1.0)
  }

  /** The natural logarithm is positive above 1. */
  ghost predicate LnLaws(lib: Lib)
  {
    forall x :: x > 1.0 ==> lib.ln(x) > 0.0
  }

  /** sinh is positive to the right of 0. */
  ghost predicate SinhLaws(lib: Lib)
  {
    forall x :: x > 0.0 ==> lib.sinh(x) > 0.0
  }

  /** sqrt gives the non-negative square root of a non-negative number. */
  ghost predicate SqrtLaws(lib: Lib)
  {
    forall x :: x >= 0.0 ==> lib.sqrt(x) >= 0.0 && lib.sqrt(x) * lib.sqrt(x) == x
  }

  /** log10 vanishes at 1 and is strictly increasing on the positive reals. */
  ghost predicate Log10Laws(lib: Lib)
  {
    lib.log10(1.0) == 0.0 &&
    forall x, y :: 0.0 < x < y ==> lib.log10(x) < lib.log10(y)
  }

  /** 10 ** x is positive, strictly increasing, and exact at -1, 0 and 1. */
  ghost predicate Pow10Laws(lib: Lib)
  {
    lib.pow10(-1.0) == 0.1 && lib.pow10(0.0) == 1.0 && lib.pow10(1.0) == 10.0 &&
    (forall x :: lib.pow10(x) > 0.0) &&
    (forall x, y :: x < y ==> lib.pow10(x) < lib.pow10(y))
  }

  /** 10 ** log10(x) gives x back. */
  ghost predicate Log10Inverse(lib: Lib)
  {
    forall x :: x > 0.0 ==> lib.pow10(lib.log10(x)) == x
  }

  /** floor(log10(v)) is the decade exponent of v, or one less when rounding
      pulls the logarithm just below an integer; never more. */
  ghost predicate DecadeFloor(lib: Lib)
  {
    forall v :: v > 0.0 ==>
      Pow10(lib.log10(v).Floor) <= v < Pow10(lib.log10(v).Floor + 2)
  }

  lemma SquareStrictlyMonotone(a: real, b: real)
    requires 0.0 <= a < b
    ensures a * a < b * b
  {
    calc {
      a * a;
    <=  { assert a * a <= a * b; }
      a * b;
    <   { assert (b - a) * b > 0.0; }
      b * b;
    }
  }

  /** Of two non-negative numbers, the one with the smaller square is the smaller. */
  lemma SquareOrderReflects(a: real, b: real)
    requires 0.0 <= a && 0.0 <= b
    requires a * a <= b * b
    ensures a <= b
  {
    if b < a {
      SquareStrictlyMonotone(b, a);
    }
  }

  lemma SqrtOfOne(lib: Lib)
    requires SqrtLaws(lib)
    ensures lib.sqrt(1.0) == 1.0
  {
    var s := lib.sqrt(1.0);
    SquareOrderReflects(s, 1.0);
    SquareOrderReflects(1.0, s);
  }

  lemma SqrtMonotone(lib: Lib, x: real, y: real)
    requires SqrtLaws(lib)
    requires 0.0 <= x <= y
    ensures 0.0 <= lib.sqrt(x) <= lib.sqrt(y)
  {
    SquareOrderReflects(lib.sqrt(x), lib.sqrt(y));
  }

  lemma SqrtUnitInterval(lib: Lib, x: real)
    requires SqrtLaws(lib)
    requires 0.0 < x <= 1.0
    ensures 0.0 < lib.sqrt(x) <= 1.0
  {
    SqrtMonotone(lib, x, 1.0);
    SqrtOfOne(lib);
    assert lib.sqrt(x) * lib.sqrt(x) == x;
  }

  lemma Log10NonPositive(lib: Lib, x: real)
    requires Log10Laws(lib)
    requires 0.0 < x <= 1.0
    ensures lib.log10(x) <= 0.0
  {
    if x < 1.0 {
      assert lib.log10(x) < lib.log10(1.0);
    }
  }
}
