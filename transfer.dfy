/** lowpass_lib/transfer.py: the magnitude response |H(j w)| of Butterworth,
    Chebyshev type I and Bessel low-pass filters, and its value in decibels. */
module Transfer {
  import opened Errors
  import opened Elementary
  import opened Text

  // ---------------------------------------------------------------------------
  // Bessel polynomial coefficients

  /** Denominator coefficients a0 .. an of the Bessel polynomial of each order. */
  const BesselCoeffs: map<int, seq<int>> := map[
    2 := [3, 3, 1],
    3 := [15, 15, 6, 1],
    4 := [105, 105, 45, 10, 1],
    5 := [945, 945, 420, 105, 15, 1],
    6 := [10395, 10395, 4725, 1260, 210, 21, 1],
    7 := [135135, 135135, 62370, 17325, 3150, 378, 28, 1],
    8 := [2027025, 2027025, 945945, 270270, 51975, 6930, 630, 36, 1],
    9 := [34459425, 34459425, 16216200, 4729725, 945945, 135135, 13860, 990, 45, 1]
  ]

  /** The frequency, per order, at which the unit-delay Bessel response is 3 dB
      down: the factor that moves the -3 dB point to the cutoff. */
  const BesselScale: map<int, real> := map[
    2 := 1.3617, 3 := 1.7557, 4 := 2.1139, 5 := 2.4274,
    6 := 2.7034, 7 := 2.9517, 8 := 3.1796, 9 := 3.3917
  ]

  function Fact(n: nat): (r: nat)
    ensures r >= 1
  {
    if n == 0 then 1 else n * Fact(n - 1)
  }

  function Pow2(n: nat): (r: nat)
    ensures r >= 1
  {
    if n == 0 then 1 else 2 * Pow2(n - 1)
  }

  /** a_k = (2n - k)! / (2^(n - k) k! (n - k)!) */
  function BesselCoef(n: nat, k: nat): int
    requires k <= n
  {
    Fact(2 * n - k) / (Pow2(n - k) * Fact(k) * Fact(n - k))
  }

  predicate RowFrom(row: seq<int>, n: nat, k: nat)
    requires |row| == n + 1 && k <= n + 1
    decreases n + 1 - k
  {
    k > n || (row[k] == BesselCoef(n, k) && RowFrom(row, n, k + 1))
  }

  lemma {:induction false} RowFromSound(row: seq<int>, n: nat, k: nat)
    requires |row| == n + 1 && k <= n + 1 && RowFrom(row, n, k)
    ensures forall j :: k <= j <= n ==> row[j] == BesselCoef(n, j)
    decreases n + 1 - k
  {
    if k <= n {
      RowFromSound(row, n, k + 1);
    }
  }

  /** The factorials the table needs, worked out one step at a time. */
  lemma FactValues()
    ensures Fact(0) == 1
    ensures Fact(1) == 1
    ensures Fact(2) == 2
    ensures Fact(3) == 6
    ensures Fact(4) == 24
    ensures Fact(5) == 120
    ensures Fact(6) == 720
    ensures Fact(7) == 5040
    ensures Fact(8) == 40320
    ensures Fact(9) == 362880
    ensures Fact(10) == 3628800
    ensures Fact(11) == 39916800
    ensures Fact(12) == 479001600
    ensures Fact(13) == 6227020800
    ensures Fact(14) == 87178291200
    ensures Fact(15) == 1307674368000
    ensures Fact(16) == 20922789888000
    ensures Fact(17) == 355687428096000
    ensures Fact(18) == 6402373705728000
  {
    assert Fact(1) == 1;
    assert Fact(2) == 2;
    assert Fact(3) == 6;
    assert Fact(4) == 24;
    assert Fact(5) == 120;
    assert Fact(6) == 720;
    assert Fact(7) == 5040;
    assert Fact(8) == 40320;
    assert Fact(9) == 362880;
    assert Fact(10) == 3628800;
    assert Fact(11) == 39916800;
    assert Fact(12) == 479001600;
    assert Fact(13) == 6227020800;
    assert Fact(14) == 87178291200;
    assert Fact(15) == 1307674368000;
    assert Fact(16) == 20922789888000;
    assert Fact(17) == 355687428096000;
    assert Fact(18) == 6402373705728000;
  }

  /** The powers of two the table needs. */
  lemma Pow2Values()
    ensures Pow2(0) == 1
    ensures Pow2(1) == 2
    ensures Pow2(2) == 4
    ensures Pow2(3) == 8
    ensures Pow2(4) == 16
    ensures Pow2(5) == 32
    ensures Pow2(6) == 64
    ensures Pow2(7) == 128
    ensures Pow2(8) == 256
    ensures Pow2(9) == 512
  {
    assert Pow2(1) == 2;
    assert Pow2(2) == 4;
    assert Pow2(3) == 8;
    assert Pow2(4) == 16;
    assert Pow2(5) == 32;
    assert Pow2(6) == 64;
    assert Pow2(7) == 128;
    assert Pow2(8) == 256;
    assert Pow2(9) == 512;
  }

  lemma BesselRow2FollowsFormula()
    ensures |BesselCoeffs[2]| == 3
    ensures forall k :: 0 <= k <= 2 ==> BesselCoeffs[2][k] == BesselCoef(2, k)
  {
    FactValues();
    Pow2Values();
    assert RowFrom(BesselCoeffs[2], 2, 0);
    RowFromSound(BesselCoeffs[2], 2, 0);
  }

  lemma BesselRow3FollowsFormula()
    ensures |BesselCoeffs[3]| == 4
    ensures forall k :: 0 <= k <= 3 ==> BesselCoeffs[3][k] == BesselCoef(3, k)
  {
    FactValues();
    Pow2Values();
    assert RowFrom(BesselCoeffs[3], 3, 0);
    RowFromSound(BesselCoeffs[3], 3, 0);
  }

  lemma BesselRow4FollowsFormula()
    ensures |BesselCoeffs[4]| == 5
    ensures forall k :: 0 <= k <= 4 ==> BesselCoeffs[4][k] == BesselCoef(4, k)
  {
    FactValues();
    Pow2Values();
    assert RowFrom(BesselCoeffs[4], 4, 0);
    RowFromSound(BesselCoeffs[4], 4, 0);
  }

  lemma BesselRow5FollowsFormula()
    ensures |BesselCoeffs[5]| == 6
    ensures forall k :: 0 <= k <= 5 ==> BesselCoeffs[5][k] == BesselCoef(5, k)
  {
    FactValues();
    Pow2Values();
    assert RowFrom(BesselCoeffs[5], 5, 0);
    RowFromSound(BesselCoeffs[5], 5, 0);
  }

  lemma BesselRow6FollowsFormula()
    ensures |BesselCoeffs[6]| == 7
    ensures forall k :: 0 <= k <= 6 ==> BesselCoeffs[6][k] == BesselCoef(6, k)
  {
    FactValues();
    Pow2Values();
    assert RowFrom(BesselCoeffs[6], 6, 0);
    RowFromSound(BesselCoeffs[6], 6, 0);
  }

  lemma BesselRow7FollowsFormula()
    ensures |BesselCoeffs[7]| == 8
    ensures forall k :: 0 <= k <= 7 ==> BesselCoeffs[7][k] == BesselCoef(7, k)
  {
    FactValues();
    Pow2Values();
    assert RowFrom(BesselCoeffs[7], 7, 0);
    RowFromSound(BesselCoeffs[7], 7, 0);
  }

  lemma BesselRow8FollowsFormula()
    ensures |BesselCoeffs[8]| == 9
    ensures forall k :: 0 <= k <= 8 ==> BesselCoeffs[8][k] == BesselCoef(8, k)
  {
    FactValues();
    Pow2Values();
    assert RowFrom(BesselCoeffs[8], 8, 0);
    RowFromSound(BesselCoeffs[8], 8, 0);
  }

  lemma BesselRow9FollowsFormula()
    ensures |BesselCoeffs[9]| == 10
    ensures forall k :: 0 <= k <= 9 ==> BesselCoeffs[9][k] == BesselCoef(9, k)
  {
    FactValues();
    Pow2Values();
    assert RowFrom(BesselCoeffs[9], 9, 0);
    RowFromSound(BesselCoeffs[9], 9, 0);
  }

  /** Every row of the table is given by the closed formula for its order. */
  lemma BesselCoeffsFollowFormula(n: nat)
    requires 2 <= n <= 9
    ensures n in BesselCoeffs && |BesselCoeffs[n]| == n + 1
    ensures forall k :: 0 <= k <= n ==> BesselCoeffs[n][k] == BesselCoef(n, k)
  {
    if n <= 5 {
      LowRowsFollowFormula(n);
    } else {
      HighRowsFollowFormula(n);
    }
  }

  lemma LowRowsFollowFormula(n: nat)
    requires 2 <= n <= 5
    ensures n in BesselCoeffs && |BesselCoeffs[n]| == n + 1
    ensures forall k :: 0 <= k <= n ==> BesselCoeffs[n][k] == BesselCoef(n, k)
  {
    if n == 2 {
      BesselRow2FollowsFormula();
    } else if n == 3 {
      BesselRow3FollowsFormula();
    } else if n == 4 {
      BesselRow4FollowsFormula();
    } else {
      BesselRow5FollowsFormula();
    }
  }

  lemma HighRowsFollowFormula(n: nat)
    requires 6 <= n <= 9
    ensures n in BesselCoeffs && |BesselCoeffs[n]| == n + 1
    ensures forall k :: 0 <= k <= n ==> BesselCoeffs[n][k] == BesselCoef(n, k)
  {
    if n == 6 {
      BesselRow6FollowsFormula();
    } else if n == 7 {
      BesselRow7FollowsFormula();
    } else if n == 8 {
      BesselRow8FollowsFormula();
    } else {
      BesselRow9FollowsFormula();
    }
  }

  /** The shape every row has: positive, a0 == a1, leading coefficient 1. */
  lemma BesselRowShape(n: int)
    requires 2 <= n <= 9
    ensures n in BesselCoeffs && n in BesselScale && BesselScale[n] > 0.0
    ensures |BesselCoeffs[n]| == n + 1
    ensures forall k :: 0 <= k <= n ==> BesselCoeffs[n][k] > 0
    ensures BesselCoeffs[n][0] == BesselCoeffs[n][1] && BesselCoeffs[n][n] == 1
  {
  }

  // ---------------------------------------------------------------------------
  // Butterworth

  /** |H|^2 = 1 / (1 + ratio^(2n)) */
  function ButterworthSquared(ratio: real, order: nat): (h2: real)
    ensures 0.0 < h2 <= 1.0
  {
    EvenPowerNonNegative(ratio, order);
    ReciprocalUnit(1.0 + Power(ratio, 2 * order));
    1.0 / (1.0 + Power(ratio, 2 * order))
  }

  /** butterworth_response */
  function ButterworthResponse(freq: real, cutoff: real, order: int, lib: Lib): (r: Result<real>)
    ensures r.Ok? <==> cutoff > 0.0 && order >= 1
    ensures cutoff <= 0.0 ==> r == Err(NonPositiveCutoff)
    ensures cutoff > 0.0 && order < 1 ==> r == Err(OrderTooSmall)
  {
    if cutoff <= 0.0 then Err(NonPositiveCutoff)
    else if order < 1 then Err(OrderTooSmall)
    else Ok(lib.sqrt(ButterworthSquared(freq / cutoff, order)))
  }

  lemma ButterworthBounded(freq: real, cutoff: real, order: int, lib: Lib)
    requires SqrtLaws(lib)
    requires cutoff > 0.0 && order >= 1
    ensures 0.0 < ButterworthResponse(freq, cutoff, order, lib).value <= 1.0
  {
    SqrtUnitInterval(lib, ButterworthSquared(freq / cutoff, order));
  }

  /** Unity gain at DC and half power at the cutoff, whatever the order. */
  lemma ButterworthAtDcAndCutoff(cutoff: real, order: int, lib: Lib)
    requires SqrtLaws(lib)
    requires cutoff > 0.0 && order >= 1
    ensures ButterworthResponse(0.0, cutoff, order, lib) == Ok(1.0)
    ensures ButterworthResponse(cutoff, cutoff, order, lib) == Ok(lib.sqrt(0.5))
    ensures lib.sqrt(0.5) * lib.sqrt(0.5) == 0.5
  {
    PowerOfZero(2 * order);
    PowerOfOne(2 * order);
    assert 0.0 / cutoff == 0.0;
    assert cutoff / cutoff == 1.0;
    SqrtOfOne(lib);
  }

  /** The response never rises with frequency. */
  lemma ButterworthMonotone(f1: real, f2: real, cutoff: real, order: int, lib: Lib)
    requires SqrtLaws(lib)
    requires cutoff > 0.0 && order >= 1
    requires 0.0 <= f1 <= f2
    ensures ButterworthResponse(f2, cutoff, order, lib).value <=
            ButterworthResponse(f1, cutoff, order, lib).value
  {
    var r1, r2 := f1 / cutoff, f2 / cutoff;
    DivAtLeast(f1, cutoff, 0.0);
    assert r1 <= r2 by {
      DivAtLeast(f2, cutoff, r1);
      assert r1 * cutoff == f1;
    }
    PowerMonotone(r1, r2, 2 * order);
    PowerNonNegative(r1, 2 * order);
    ReciprocalAntitone(1.0 + Power(r1, 2 * order), 1.0 + Power(r2, 2 * order));
    SqrtMonotone(lib, ButterworthSquared(r2, order), ButterworthSquared(r1, order));
  }

  // ---------------------------------------------------------------------------
  // Chebyshev

  /** T_n(x) by the recurrence T_n = 2 x T_(n-1) - T_(n-2); the source answers x
      for every order below 0. */
  function ChebyshevT(n: int, x: real): real
    decreases n
  {
    if n == 0 then 1.0
    else if n == 1 || n < 0 then x
    else ChebyshevNext(x, ChebyshevT(n - 1, x), ChebyshevT(n - 2, x))
  }

  /** One step of the recurrence: T_n = 2 x T_{n-1} - T_{n-2}. */
  function ChebyshevNext(x: real, last: real, beforeLast: real): real
  {
    2.0 * x * last - beforeLast
  }

  /** chebyshev_polynomial: the recurrence run forward from T_0 and T_1. */
  method ChebyshevPolynomial(n: int, x: real) returns (t: real)
    ensures t == ChebyshevT(n, x)
  {
    if n == 0 {
      return 1.0;
    }
    if n == 1 {
      return x;
    }
    var tPrev2 := 1.0;
    var tPrev1 := x;
    var k := 2;
    while k <= n
      invariant 2 <= k && (k <= n + 1 || k == 2)
      invariant tPrev2 == ChebyshevT(k - 2, x) && tPrev1 == ChebyshevT(k - 1, x)
    {
      var tCurr := 2.0 * x * tPrev1 - tPrev2;
      tPrev2 := tPrev1;
      tPrev1 := tCurr;
      k := k + 1;
    }
    t := tPrev1;
  }

  /** T_n(1) = 1 for every order. */
  lemma {:induction false} ChebyshevAtOne(n: int)
    ensures ChebyshevT(n, 1.0) == 1.0
    decreases n
  {
    if n >= 2 {
      ChebyshevAtOne(n - 1);
      ChebyshevAtOne(n - 2);
    }
  }

  /** One step of the recurrence keeps both orders: the arithmetic behind
      ChebyshevGrowth, with a, b the last two values at x and c, d at y. */
  lemma GrowthStep(x: real, y: real, a: real, b: real, c: real, d: real)
    requires 1.0 <= x <= y && 1.0 <= a <= b && 0.0 <= c - a <= d - b
    ensures 1.0 <= b <= ChebyshevNext(x, b, a)
    ensures 0.0 <= d - b <= ChebyshevNext(y, d, c) - ChebyshevNext(x, b, a)
  {
    ProductNonNegative(x - 1.0, b);
    ProductNonNegative(y - 1.0, d - b);
    ProductNonNegative(y - x, b);
    assert 2.0 * y * d - 2.0 * x * b == 2.0 * (y - 1.0) * (d - b) + 2.0 * (d - b) + 2.0 * (y - x) * b;
  }

  /** For 1 <= x <= y: T_n(x) >= 1 grows with n, and so does T_n(y) - T_n(x) >= 0. */
  lemma {:induction false} ChebyshevGrowth(n: nat, x: real, y: real)
    requires 1.0 <= x <= y && n >= 1
    ensures 1.0 <= ChebyshevT(n - 1, x) <= ChebyshevT(n, x)
    ensures 0.0 <= ChebyshevT(n - 1, y) - ChebyshevT(n - 1, x) <= ChebyshevT(n, y) - ChebyshevT(n, x)
  {
    if n >= 2 {
      ChebyshevGrowth(n - 1, x, y);
      GrowthStep(x, y, ChebyshevT(n - 2, x), ChebyshevT(n - 1, x),
                 ChebyshevT(n - 2, y), ChebyshevT(n - 1, y));
    }
  }

  /** Above 1, T_n is at least 1 and non-decreasing in x. */
  lemma ChebyshevMonotoneAboveOne(n: int, x: real, y: real)
    requires n >= 1 && 1.0 <= x <= y
    ensures 1.0 <= ChebyshevT(n, x) <= ChebyshevT(n, y)
  {
    ChebyshevGrowth(n, x, y);
  }

  /** |H|^2 = 1 / (1 + eps^2 T^2) */
  function ChebyshevSquared(epsilon: real, tn: real): (h2: real)
    ensures 0.0 < h2 <= 1.0
  {
    EvenPowerNonNegative(epsilon, 1);
    EvenPowerNonNegative(tn, 1);
    ProductNonNegative(Power(epsilon, 2), Power(tn, 2));
    ReciprocalUnit(1.0 + Power(epsilon, 2) * Power(tn, 2));
    1.0 / (1.0 + Power(epsilon, 2) * Power(tn, 2))
  }

  /** epsilon = sqrt(10^(ripple/10) - 1) */
  function Epsilon(ripple: real, lib: Lib): real
  {
    lib.sqrt(lib.pow10(ripple / 10.0) - 1.0)
  }

  /** chebyshev_response */
  function ChebyshevResponse(freq: real, cutoff: real, order: int, ripple: real, lib: Lib)
    : (r: Result<real>)
    ensures r.Ok? <==> cutoff > 0.0 && order >= 1 && ripple > 0.0
    ensures cutoff <= 0.0 ==> r == Err(NonPositiveCutoff)
    ensures cutoff > 0.0 && order < 1 ==> r == Err(OrderTooSmall)
    ensures cutoff > 0.0 && order >= 1 && ripple <= 0.0 ==> r == Err(NonPositiveRipple)
  {
    if cutoff <= 0.0 then Err(NonPositiveCutoff)
    else if order < 1 then Err(OrderTooSmall)
    else if ripple <= 0.0 then Err(NonPositiveRipple)
    else Ok(lib.sqrt(ChebyshevSquared(Epsilon(ripple, lib), ChebyshevT(order, freq / cutoff))))
  }

  lemma ChebyshevBounded(freq: real, cutoff: real, order: int, ripple: real, lib: Lib)
    requires SqrtLaws(lib)
    requires cutoff > 0.0 && order >= 1 && ripple > 0.0
    ensures 0.0 < ChebyshevResponse(freq, cutoff, order, ripple, lib).value <= 1.0
  {
    SqrtUnitInterval(lib, ChebyshevSquared(Epsilon(ripple, lib), ChebyshevT(order, freq / cutoff)));
  }

  /** At the cutoff the power gain is down by exactly the ripple:
      |H|^2 * 10^(ripple/10) = 1. */
  lemma ChebyshevAtCutoff(cutoff: real, order: int, ripple: real, lib: Lib)
    requires SqrtLaws(lib) && Pow10Laws(lib)
    requires cutoff > 0.0 && order >= 1 && ripple > 0.0
    ensures var h := ChebyshevResponse(cutoff, cutoff, order, ripple, lib).value;
            h * h * lib.pow10(ripple / 10.0) == 1.0
  {
    var g := lib.pow10(ripple / 10.0);
    assert g > lib.pow10(0.0);
    var eps := Epsilon(ripple, lib);
    assert eps * eps == g - 1.0;
    assert cutoff / cutoff == 1.0;
    ChebyshevAtOne(order);
    PowerTwo(eps);
    assert Power(1.0, 2) == 1.0;
    var h2 := ChebyshevSquared(eps, 1.0);
    assert h2 == 1.0 / g;
    var h := lib.sqrt(h2);
    assert h * h == h2;
  }

  /** Beyond the cutoff the response never rises with frequency. */
  lemma ChebyshevMonotoneBeyondCutoff(f1: real, f2: real, cutoff: real, order: int,
                                      ripple: real, lib: Lib)
    requires SqrtLaws(lib)
    requires cutoff > 0.0 && order >= 1 && ripple > 0.0
    requires cutoff <= f1 <= f2
    ensures ChebyshevResponse(f2, cutoff, order, ripple, lib).value <=
            ChebyshevResponse(f1, cutoff, order, ripple, lib).value
  {
    var x, y := f1 / cutoff, f2 / cutoff;
    DivAtLeast(f1, cutoff, 1.0);
    assert x <= y by {
      DivAtLeast(f2, cutoff, x);
      assert x * cutoff == f1;
    }
    ChebyshevMonotoneAboveOne(order, x, y);
    var tx, ty := ChebyshevT(order, x), ChebyshevT(order, y);
    var eps := Epsilon(ripple, lib);
    SquaredAntitone(eps, tx, ty);
    SqrtMonotone(lib, ChebyshevSquared(eps, ty), ChebyshevSquared(eps, tx));
  }

  /** For 1 <= tx <= ty the squared response at ty is no larger than at tx. */
  lemma SquaredAntitone(eps: real, tx: real, ty: real)
    requires 1.0 <= tx <= ty
    ensures ChebyshevSquared(eps, ty) <= ChebyshevSquared(eps, tx)
  {
    var e2 := Power(eps, 2);
    EvenPowerNonNegative(eps, 1);
    PowerMonotone(tx, ty, 2);
    ScaleMonotone(e2, Power(tx, 2), Power(ty, 2));
    EvenPowerNonNegative(tx, 1);
    ProductNonNegative(e2, Power(tx, 2));
    ReciprocalAntitone(1.0 + e2 * Power(tx, 2), 1.0 + e2 * Power(ty, 2));
  }

  // ---------------------------------------------------------------------------
  // Bessel

  /** (-1) ** k */
  function NegOnePow(k: nat): real
  {
    if k % 2 == 0 then 1.0 else -1.0
  }

  /** The term of coefficient k at s = j w, without its factor j for odd k. */
  function BesselTerm(c: seq<int>, w: real, k: nat): real
    requires k < |c|
  {
    (NegOnePow(k / 2) * c[k] as real) * Power(w, k)
  }

  /** Real part of sum_(k < n) c_k (j w)^k: the even terms. */
  function RePart(c: seq<int>, w: real, n: nat): real
    requires n <= |c|
  {
    if n == 0 then 0.0
    else RePart(c, w, n - 1) + (if (n - 1) % 2 == 0 then BesselTerm(c, w, n - 1) else 0.0)
  }

  /** Imaginary part of sum_(k < n) c_k (j w)^k: the odd terms. */
  function ImPart(c: seq<int>, w: real, n: nat): real
    requires n <= |c|
  {
    if n == 0 then 0.0
    else ImPart(c, w, n - 1) + (if (n - 1) % 2 == 1 then BesselTerm(c, w, n - 1) else 0.0)
  }

  /** The loop of bessel_response: one pass over the coefficients, the power of
      w carried along. */
  method BesselSums(c: seq<int>, w: real) returns (realPart: real, imagPart: real)
    ensures realPart == RePart(c, w, |c|) && imagPart == ImPart(c, w, |c|)
  {
    realPart, imagPart := 0.0, 0.0;
    var wPower := 1.0;
    var k := 0;
    while k < |c|
      invariant 0 <= k <= |c|
      invariant realPart == RePart(c, w, k) && imagPart == ImPart(c, w, k)
      invariant wPower == Power(w, k)
    {
      var sign := NegOnePow(k / 2);
      assert (sign * c[k] as real) * wPower == BesselTerm(c, w, k);
      if k % 2 == 0 {
        realPart := realPart + (sign * c[k] as real) * wPower;
      } else {
        imagPart := imagPart + (sign * c[k] as real) * wPower;
      }
      assert wPower * w == Power(w, k + 1);
      wPower := wPower * w;
      k := k + 1;
    }
  }

  /** |H| = sqrt(min(a0^2 / (re^2 + im^2), 1)), taken as 1 when the
      denominator vanishes. */
  function BesselGain(c0: real, re: real, im: real, lib: Lib): real
  {
    var denom := Power(re, 2) + Power(im, 2);
    if denom == 0.0 then 1.0 else lib.sqrt(Min(Power(c0, 2) / denom, 1.0))
  }

  /** What bessel_response computes, as a function of its inputs. */
  function BesselMagnitude(freq: real, cutoff: real, order: int, lib: Lib): (r: Result<real>)
    ensures r.Ok? <==> cutoff > 0.0 && 2 <= order <= 9
    ensures cutoff <= 0.0 ==> r == Err(NonPositiveCutoff)
    ensures cutoff > 0.0 && !(2 <= order <= 9) ==> r == Err(OrderOutOfRange)
  {
    if cutoff <= 0.0 then Err(NonPositiveCutoff)
    else if order < 2 || order > 9 then Err(OrderOutOfRange)
    else
      BesselRowShape(order);
      var w := (freq / cutoff) * BesselScale[order];
      var c := BesselCoeffs[order];
      Ok(BesselGain(c[0] as real, RePart(c, w, |c|), ImPart(c, w, |c|), lib))
  }

  /** bessel_response */
  method BesselResponse(freq: real, cutoff: real, order: int, lib: Lib) returns (r: Result<real>)
    ensures r == BesselMagnitude(freq, cutoff, order, lib)
  {
    if cutoff <= 0.0 {
      return Err(NonPositiveCutoff);
    }
    if order < 2 || order > 9 {
      return Err(OrderOutOfRange);
    }
    BesselRowShape(order);
    var w := (freq / cutoff) * BesselScale[order];
    var coeffs := BesselCoeffs[order];
    var realPart, imagPart := BesselSums(coeffs, w);
    var dcGainSquared := Power(coeffs[0] as real, 2);
    var denomSquared := Power(realPart, 2) + Power(imagPart, 2);
    if denomSquared == 0.0 {
      return Ok(1.0);
    }
    var hSquared := dcGainSquared / denomSquared;
    r := Ok(lib.sqrt(Min(hSquared, 1.0)));
  }

  lemma BesselGainBounded(c0: real, re: real, im: real, lib: Lib)
    requires SqrtLaws(lib)
    requires c0 > 0.0
    ensures 0.0 < BesselGain(c0, re, im, lib) <= 1.0
  {
    var denom := Power(re, 2) + Power(im, 2);
    if denom != 0.0 {
      EvenPowerNonNegative(re, 1);
      EvenPowerNonNegative(im, 1);
      SquareStrictlyMonotone(0.0, c0);
      PowerTwo(c0);
      QuotientPositive(Power(c0, 2), denom);
      SqrtUnitInterval(lib, Min(Power(c0, 2) / denom, 1.0));
    }
  }

  /** The response lies in (0, 1] at every frequency. */
  lemma BesselBounded(freq: real, cutoff: real, order: int, lib: Lib)
    requires SqrtLaws(lib)
    requires cutoff > 0.0 && 2 <= order <= 9
    ensures 0.0 < BesselMagnitude(freq, cutoff, order, lib).value <= 1.0
  {
    BesselRowShape(order);
    var w := (freq / cutoff) * BesselScale[order];
    var c := BesselCoeffs[order];
    BesselGainBounded(c[0] as real, RePart(c, w, |c|), ImPart(c, w, |c|), lib);
  }

  lemma {:induction false} PartsAtZero(c: seq<int>, n: nat)
    requires 1 <= n <= |c|
    ensures RePart(c, 0.0, n) == c[0] as real && ImPart(c, 0.0, n) == 0.0
  {
    if n > 1 {
      PartsAtZero(c, n - 1);
      PowerOfZero(n - 1);
    }
  }

  lemma BesselGainAtDc(c0: real, lib: Lib)
    requires SqrtLaws(lib)
    requires c0 > 0.0
    ensures BesselGain(c0, c0, 0.0, lib) == 1.0
  {
    SquareStrictlyMonotone(0.0, c0);
    PowerTwo(c0);
    PowerTwo(0.0);
    var p := Power(c0, 2);
    assert p / (p + Power(0.0, 2)) == 1.0;
    SqrtOfOne(lib);
  }

  /** Unity gain at DC. */
  lemma BesselAtDc(cutoff: real, order: int, lib: Lib)
    requires SqrtLaws(lib)
    requires cutoff > 0.0 && 2 <= order <= 9
    ensures BesselMagnitude(0.0, cutoff, order, lib) == Ok(1.0)
  {
    BesselRowShape(order);
    var c := BesselCoeffs[order];
    assert (0.0 / cutoff) * BesselScale[order] == 0.0;
    PartsAtZero(c, |c|);
    BesselGainAtDc(c[0] as real, lib);
  }

  /** Complex numbers, for the reference evaluation of the Bessel polynomial. */
  datatype Complex = Complex(re: real, im: real)

  function CMul(a: Complex, b: Complex): Complex
  {
    Complex(a.re * b.re - a.im * b.im, a.re * b.im + a.im * b.re)
  }

  function CPow(z: Complex, k: nat): Complex
  {
    if k == 0 then Complex(1.0, 0.0) else CMul(CPow(z, k - 1), z)
  }

  /** sum_(k < n) c_k z^k */
  function PolyAt(c: seq<int>, z: Complex, n: nat): Complex
    requires n <= |c|
  {
    if n == 0 then Complex(0.0, 0.0)
    else AddTerm(PolyAt(c, z, n - 1), c[n - 1] as real, CPow(z, n - 1))
  }

  /** p + ck * t */
  function AddTerm(p: Complex, ck: real, t: Complex): Complex
  {
    Complex(p.re + ck * t.re, p.im + ck * t.im)
  }

  /** What (j w)^k should be: real with sign (-1)^(k/2) for even k, imaginary
      with that sign for odd k. */
  function JPower(w: real, k: nat): Complex
  {
    var m := NegOnePow(k / 2) * Power(w, k);
    if k % 2 == 0 then Complex(m, 0.0) else Complex(0.0, m)
  }

  lemma MulByJ(a: real, b: real, w: real)
    ensures CMul(Complex(a, b), Complex(0.0, w)) == Complex(-(b * w), a * w)
  {
  }

  /** Products with a sign regroup freely. */
  lemma SignRegroup(s: real, x: real, y: real)
    requires s == 1.0 || s == -1.0
    ensures (s * x) * y == s * (y * x) == x * (s * y)
  {
  }

  lemma TermRegroup(s: real, c: real, p: real)
    requires s == 1.0 || s == -1.0
    ensures (s * c) * p == c * (s * p) && c * 0.0 == 0.0
  {
  }

  /** Multiplying a real term by j w makes it imaginary. */
  lemma RotateReal(s: real, p: real, w: real)
    requires s == 1.0 || s == -1.0
    ensures CMul(Complex(s * p, 0.0), Complex(0.0, w)) == Complex(0.0, s * (w * p))
  {
    SignRegroup(s, p, w);
  }

  /** Multiplying an imaginary term by j w makes it real, with the sign flipped. */
  lemma RotateImag(s: real, p: real, w: real)
    requires s == 1.0 || s == -1.0
    ensures CMul(Complex(0.0, s * p), Complex(0.0, w)) == Complex(-s * (w * p), 0.0)
  {
    SignRegroup(s, p, w);
  }

  lemma JPowerStep(w: real, k: nat)
    requires k > 0
    ensures JPower(w, k) == CMul(JPower(w, k - 1), Complex(0.0, w))
  {
    var s := NegOnePow((k - 1) / 2);
    var p := Power(w, k - 1);
    assert Power(w, k) == w * p;
    if (k - 1) % 2 == 0 {
      assert k % 2 == 1 && k / 2 == (k - 1) / 2;
      assert JPower(w, k - 1) == Complex(s * p, 0.0);
      assert JPower(w, k) == Complex(0.0, s * (w * p));
      RotateReal(s, p, w);
    } else {
      assert k % 2 == 0 && k / 2 == (k - 1) / 2 + 1;
      assert NegOnePow(k / 2) == -s;
      assert JPower(w, k - 1) == Complex(0.0, s * p);
      assert JPower(w, k) == Complex(-s * (w * p), 0.0);
      RotateImag(s, p, w);
    }
  }

  /** Powers of j w follow the sign pattern 1, j, -1, -j. */
  lemma {:induction false} PowerOfJ(w: real, k: nat)
    ensures CPow(Complex(0.0, w), k) == JPower(w, k)
  {
    if k > 0 {
      PowerOfJ(w, k - 1);
      JPowerStep(w, k);
    }
  }

  /** The real and imaginary sums of bessel_response are those of the polynomial
      evaluated at s = j w. */
  lemma {:induction false} BesselSumsEvaluatePolynomial(c: seq<int>, w: real, n: nat)
    requires n <= |c|
    ensures PolyAt(c, Complex(0.0, w), n) == Complex(RePart(c, w, n), ImPart(c, w, n))
  {
    if n > 0 {
      BesselSumsEvaluatePolynomial(c, w, n - 1);
      if (n - 1) % 2 == 0 {
        EvenCoefficientStep(c, w, n);
      } else {
        OddCoefficientStep(c, w, n);
      }
    }
  }

  /** Adding an even coefficient changes only the real sum. */
  lemma EvenCoefficientStep(c: seq<int>, w: real, n: nat)
    requires 1 <= n <= |c| && (n - 1) % 2 == 0
    requires PolyAt(c, Complex(0.0, w), n - 1) == Complex(RePart(c, w, n - 1), ImPart(c, w, n - 1))
    ensures PolyAt(c, Complex(0.0, w), n) == Complex(RePart(c, w, n), ImPart(c, w, n))
  {
    PowerOfJ(w, n - 1);
    PolyAtStep(c, Complex(0.0, w), n);
    PartsStep(c, w, n);
    EvenTermStep(RePart(c, w, n - 1), ImPart(c, w, n - 1), c, w, n - 1);
  }

  /** Adding an odd coefficient changes only the imaginary sum. */
  lemma OddCoefficientStep(c: seq<int>, w: real, n: nat)
    requires 1 <= n <= |c| && (n - 1) % 2 == 1
    requires PolyAt(c, Complex(0.0, w), n - 1) == Complex(RePart(c, w, n - 1), ImPart(c, w, n - 1))
    ensures PolyAt(c, Complex(0.0, w), n) == Complex(RePart(c, w, n), ImPart(c, w, n))
  {
    PowerOfJ(w, n - 1);
    PolyAtStep(c, Complex(0.0, w), n);
    PartsStep(c, w, n);
    OddTermStep(RePart(c, w, n - 1), ImPart(c, w, n - 1), c, w, n - 1);
  }

  /** One more coefficient of the polynomial sum. */
  lemma PolyAtStep(c: seq<int>, z: Complex, n: nat)
    requires 1 <= n <= |c|
    ensures PolyAt(c, z, n) == AddTerm(PolyAt(c, z, n - 1), c[n - 1] as real, CPow(z, n - 1))
  {
  }

  /** One more coefficient of the real and imaginary sums. */
  lemma PartsStep(c: seq<int>, w: real, n: nat)
    requires 1 <= n <= |c|
    ensures RePart(c, w, n) ==
            RePart(c, w, n - 1) + (if (n - 1) % 2 == 0 then BesselTerm(c, w, n - 1) else 0.0)
    ensures ImPart(c, w, n) ==
            ImPart(c, w, n - 1) + (if (n - 1) % 2 == 1 then BesselTerm(c, w, n - 1) else 0.0)
  {
  }

  /** Adding the term c_k (j w)^k for an even k, where (j w)^k is real. */
  lemma EvenTermStep(re: real, im: real, c: seq<int>, w: real, k: nat)
    requires k < |c| && k % 2 == 0
    ensures AddTerm(Complex(re, im), c[k] as real, JPower(w, k)) == Complex(re + BesselTerm(c, w, k), im)
  {
    var sign, p, ck := NegOnePow(k / 2), Power(w, k), c[k] as real;
    assert JPower(w, k) == Complex(sign * p, 0.0);
    TermRegroup(sign, ck, p);
  }

  /** Adding the term c_k (j w)^k for an odd k, where (j w)^k is imaginary. */
  lemma OddTermStep(re: real, im: real, c: seq<int>, w: real, k: nat)
    requires k < |c| && k % 2 == 1
    ensures AddTerm(Complex(re, im), c[k] as real, JPower(w, k)) == Complex(re, im + BesselTerm(c, w, k))
  {
    var sign, p, ck := NegOnePow(k / 2), Power(w, k), c[k] as real;
    assert JPower(w, k) == Complex(0.0, sign * p);
    TermRegroup(sign, ck, p);
  }

  // ---------------------------------------------------------------------------
  // Decibels and the response over a frequency list

  /** magnitude_to_db: 20 log10(magnitude), floored at -120 dB. */
  function MagnitudeToDb(magnitude: real, lib: Lib): (r: real)
    ensures r >= -120.0
    ensures magnitude <= 0.0 ==> r == -120.0
  {
    if magnitude <= 0.0 then -120.0
    else Max(20.0 * lib.log10(magnitude), -120.0)
  }

  /** A magnitude of at most one is at most 0 dB, and one is exactly 0 dB. */
  lemma MagnitudeToDbOfUnitInterval(magnitude: real, lib: Lib)
    requires Log10Laws(lib)
    requires 0.0 < magnitude <= 1.0
    ensures -120.0 <= MagnitudeToDb(magnitude, lib) <= 0.0
    ensures magnitude == 1.0 ==> MagnitudeToDb(magnitude, lib) == 0.0
  {
    Log10NonPositive(lib, magnitude);
  }

  datatype FilterKind = Butterworth | Chebyshev | Bessel

  /** The filter named, case-insensitively, by its name or its abbreviation. */
  function KindOf(name: string): (r: Option<FilterKind>)
    ensures r == Some(Butterworth) <==> Lower(name) in {"butterworth", "bw"}
    ensures r == Some(Chebyshev) <==> Lower(name) in {"chebyshev", "ch"}
    ensures r == Some(Bessel) <==> Lower(name) in {"bessel", "bs"}
  {
    var n := Lower(name);
    if n == "butterworth" || n == "bw" then Some(Butterworth)
    else if n == "chebyshev" || n == "ch" then Some(Chebyshev)
    else if n == "bessel" || n == "bs" then Some(Bessel)
    else None
  }

  /** The magnitude response of a filter kind at one frequency. */
  function Response(kind: FilterKind, freq: real, cutoff: real, order: int, ripple: real, lib: Lib)
    : Result<real>
  {
    match kind
    case Butterworth => ButterworthResponse(freq, cutoff, order, lib)
    case Chebyshev => ChebyshevResponse(freq, cutoff, order, ripple, lib)
    case Bessel => BesselMagnitude(freq, cutoff, order, lib)
  }

  /** Whether the parameters pass the checks of a filter kind's response. */
  predicate ParametersValid(kind: FilterKind, cutoff: real, order: int, ripple: real)
  {
    cutoff > 0.0 &&
    match kind
    case Butterworth => order >= 1
    case Chebyshev => order >= 1 && ripple > 0.0
    case Bessel => 2 <= order <= 9
  }

  /** Whether a response succeeds does not depend on the frequency. */
  lemma ResponseOkIffValid(kind: FilterKind, freq: real, cutoff: real, order: int, ripple: real,
                           lib: Lib)
    ensures Response(kind, freq, cutoff, order, ripple, lib).Ok? <==>
            ParametersValid(kind, cutoff, order, ripple)
  {
  }

  /** The list comprehension: each frequency's response in dB, in order; the
      first failing response's error otherwise. */
  function ResponsesDb(kind: FilterKind, freqs: seq<real>, cutoff: real, order: int,
                       ripple: real, lib: Lib): (r: Result<seq<real>>)
    ensures r.Ok? ==> |r.value| == |freqs|
    ensures r.Ok? ==> forall i :: 0 <= i < |freqs| ==>
      Response(kind, freqs[i], cutoff, order, ripple, lib).Ok? &&
      r.value[i] == MagnitudeToDb(Response(kind, freqs[i], cutoff, order, ripple, lib).value, lib)
    ensures r.Err? ==> exists i :: (0 <= i < |freqs| &&
      Response(kind, freqs[i], cutoff, order, ripple, lib) == Err(r.error) &&
      forall j :: 0 <= j < i ==> Response(kind, freqs[j], cutoff, order, ripple, lib).Ok?)
  {
    if |freqs| == 0 then Ok([])
    else
      match Response(kind, freqs[0], cutoff, order, ripple, lib)
      case Err(e) => Err(e)
      case Ok(h) =>
        match ResponsesDb(kind, freqs[1..], cutoff, order, ripple, lib)
        case Err(e) =>
          var i :| 0 <= i < |freqs[1..]| &&
            Response(kind, freqs[1..][i], cutoff, order, ripple, lib) == Err(e) &&
            (forall j :: 0 <= j < i ==> Response(kind, freqs[1..][j], cutoff, order, ripple, lib).Ok?);
          assert Response(kind, freqs[i + 1], cutoff, order, ripple, lib) == Err(e);
          Err(e)
        case Ok(rest) => Ok([MagnitudeToDb(h, lib)] + rest)
  }

  /** frequency_response: the filter type is checked first, even for an empty
      list; then each frequency's response in dB. */
  function FrequencyResponse(filterType: string, freqs: seq<real>, cutoff: real, order: int,
                             ripple: real, lib: Lib): (r: Result<seq<real>>)
    ensures KindOf(filterType).None? ==> r == Err(UnknownFilterType)
    ensures KindOf(filterType).Some? ==>
      r == ResponsesDb(KindOf(filterType).value, freqs, cutoff, order, ripple, lib)
  {
    match KindOf(filterType)
    case None => Err(UnknownFilterType)
    case Some(kind) => ResponsesDb(kind, freqs, cutoff, order, ripple, lib)
  }

  /** A known filter type gives a result exactly when the list is empty or the
      parameters are valid; a failure is the parameter check's error. */
  lemma FrequencyResponseOk(filterType: string, freqs: seq<real>, cutoff: real, order: int,
                            ripple: real, lib: Lib)
    requires KindOf(filterType).Some?
    ensures var kind := KindOf(filterType).value;
            FrequencyResponse(filterType, freqs, cutoff, order, ripple, lib).Ok? <==>
              (|freqs| == 0 || ParametersValid(kind, cutoff, order, ripple))
  {
    var kind := KindOf(filterType).value;
    var r := FrequencyResponse(filterType, freqs, cutoff, order, ripple, lib);
    if r.Err? {
      var i :| 0 <= i < |freqs| && Response(kind, freqs[i], cutoff, order, ripple, lib).Err?;
      ResponseOkIffValid(kind, freqs[i], cutoff, order, ripple, lib);
    } else if |freqs| > 0 {
      ResponseOkIffValid(kind, freqs[0], cutoff, order, ripple, lib);
    }
  }
}
