/** lowpass_lib/calculations.py: component values of Pi LC low-pass filters from
    the normalised Butterworth and Chebyshev prototypes. Position i = 1 .. n of
    the ladder holds a shunt capacitor when i is odd and a series inductor when
    i is even. */
module Calculations {
  import opened Errors
  import opened Elementary

  /** Capacitors and inductors in Farads and Henries, and the order returned. */
  datatype Design = Design(capacitors: seq<real>, inductors: seq<real>, order: int)

  /** omega = 2 pi fc */
  function Omega(cutoff: real): real
  {
    2.0 * PI * cutoff
  }

  /** (2i - 1) pi / (2n) */
  function Angle(i: int, n: int): real
    requires n != 0
  {
    ((2 * i - 1) as real * PI) / ((2 * n) as real)
  }

  /** pi i / n, the angle in b_i. */
  function StepAngle(i: int, n: int): real
    requires n != 0
  {
    PI * i as real / n as real
  }

  lemma AngleInRange(i: int, n: int)
    requires 1 <= i <= n
    ensures 0.0 < Angle(i, n) < PI
  {
    var v := (2 * i - 1) as real * PI;
    var p := (2 * n) as real;
    DivBelow(v, p, PI);
    QuotientPositive(v, p);
  }

  /** A normalised shunt element scaled to the impedance and cutoff. */
  function Capacitance(g: real, impedance: real, omega: real): real
    requires impedance != 0.0 && omega != 0.0
  {
    ProductNonZero(impedance, omega);
    g / (impedance * omega)
  }

  /** A normalised series element scaled to the impedance and cutoff. */
  function Inductance(g: real, impedance: real, omega: real): real
    requires omega != 0.0
  {
    g * impedance / omega
  }

  lemma ScaledPositive(g: real, impedance: real, omega: real)
    requires g > 0.0 && impedance > 0.0 && omega > 0.0
    ensures Capacitance(g, impedance, omega) > 0.0 && Inductance(g, impedance, omega) > 0.0
  {
    ProductPositive(impedance, omega);
    QuotientPositive(g, impedance * omega);
    ProductPositive(g, impedance);
    QuotientPositive(g * impedance, omega);
  }

  /** Whether the scaling divisions are defined: Python divides by
      impedance * omega, which is zero exactly when one factor is. */
  predicate Scalable(impedance: real, omega: real)
  {
    impedance != 0.0 && omega != 0.0
  }

  /** The shunt capacitors of the first m prototype values gs = g_1 .. g_n:
      the odd positions, scaled. */
  function Capacitors(gs: seq<real>, m: nat, impedance: real, omega: real): (caps: seq<real>)
    requires m <= |gs| && (m == 0 || Scalable(impedance, omega))
    ensures |caps| == (m + 1) / 2
  {
    if m == 0 then []
    else if (m - 1) % 2 == 0 then
      Capacitors(gs, m - 1, impedance, omega) + [Capacitance(gs[m - 1], impedance, omega)]
    else Capacitors(gs, m - 1, impedance, omega)
  }

  /** The series inductors of the first m values: the even positions, scaled. */
  function Inductors(gs: seq<real>, m: nat, impedance: real, omega: real): (inds: seq<real>)
    requires m <= |gs| && (m == 0 || Scalable(impedance, omega))
    ensures |inds| == m / 2
  {
    if m == 0 then []
    else if (m - 1) % 2 == 1 then
      Inductors(gs, m - 1, impedance, omega) + [Inductance(gs[m - 1], impedance, omega)]
    else Inductors(gs, m - 1, impedance, omega)
  }

  /** Capacitor j is the scaled g at position 2j + 1, inductor j the scaled g
      at position 2j + 2 (positions counted from 1). */
  lemma {:induction false} SplitIndexes(gs: seq<real>, m: nat, impedance: real, omega: real)
    requires m <= |gs| && (m == 0 || Scalable(impedance, omega))
    ensures forall j :: 0 <= j < (m + 1) / 2 ==>
      Capacitors(gs, m, impedance, omega)[j] == Capacitance(gs[2 * j], impedance, omega)
    ensures forall j :: 0 <= j < m / 2 ==>
      Inductors(gs, m, impedance, omega)[j] == Inductance(gs[2 * j + 1], impedance, omega)
  {
    if m > 0 {
      SplitIndexes(gs, m - 1, impedance, omega);
    }
  }

  /** Every position lands in exactly one list: position i (from 1) is capacitor
      (i - 1) / 2 when odd and inductor i / 2 - 1 when even, so position 1 is
      always a capacitor and the two counts add up to n. */
  lemma SplitIsLossless(gs: seq<real>, impedance: real, omega: real)
    requires |gs| == 0 || Scalable(impedance, omega)
    ensures var caps, inds := Capacitors(gs, |gs|, impedance, omega), Inductors(gs, |gs|, impedance, omega);
      |caps| + |inds| == |gs| && (|caps| == |inds| || |caps| == |inds| + 1) &&
      forall i :: 1 <= i <= |gs| ==>
        if i % 2 == 1 then caps[(i - 1) / 2] == Capacitance(gs[i - 1], impedance, omega)
        else inds[i / 2 - 1] == Inductance(gs[i - 1], impedance, omega)
  {
    var caps, inds := Capacitors(gs, |gs|, impedance, omega), Inductors(gs, |gs|, impedance, omega);
    HalvesAddUp(|gs|);
    forall i | 1 <= i <= |gs|
      ensures if i % 2 == 1 then caps[(i - 1) / 2] == Capacitance(gs[i - 1], impedance, omega)
              else inds[i / 2 - 1] == Inductance(gs[i - 1], impedance, omega)
    {
      if i % 2 == 1 {
        CapacitorAt(gs, impedance, omega, i);
      } else {
        InductorAt(gs, impedance, omega, i);
      }
    }
  }

  lemma HalvesAddUp(m: nat)
    ensures (m + 1) / 2 + m / 2 == m
    ensures (m + 1) / 2 == m / 2 || (m + 1) / 2 == m / 2 + 1
  {
  }

  lemma CapacitorAt(gs: seq<real>, impedance: real, omega: real, i: nat)
    requires Scalable(impedance, omega) && 1 <= i <= |gs| && i % 2 == 1
    ensures (i - 1) / 2 < (|gs| + 1) / 2
    ensures Capacitors(gs, |gs|, impedance, omega)[(i - 1) / 2] == Capacitance(gs[i - 1], impedance, omega)
  {
    var j := (i - 1) / 2;
    assert 2 * j == i - 1;
    SplitIndexes(gs, |gs|, impedance, omega);
  }

  lemma InductorAt(gs: seq<real>, impedance: real, omega: real, i: nat)
    requires Scalable(impedance, omega) && 1 <= i <= |gs| && i % 2 == 0
    ensures 0 <= i / 2 - 1 < |gs| / 2
    ensures Inductors(gs, |gs|, impedance, omega)[i / 2 - 1] == Inductance(gs[i - 1], impedance, omega)
  {
    var j := i / 2 - 1;
    assert 2 * j + 1 == i - 1;
    SplitIndexes(gs, |gs|, impedance, omega);
  }

  // ---------------------------------------------------------------------------
  // Butterworth

  /** g_i = 2 sin((2i - 1) pi / (2n)) */
  function ButterworthG(i: int, n: int, lib: Lib): real
    requires n != 0
  {
    2.0 * lib.sin(Angle(i, n))
  }

  /** g_1 .. g_n; none when n < 1. */
  function ButterworthGs(n: int, lib: Lib): (gs: seq<real>)
    ensures |gs| == IMax(n, 0)
  {
    seq(IMax(n, 0), i requires 0 <= i < IMax(n, 0) => ButterworthG(i + 1, n, lib))
  }

  /** What calculate_butterworth returns: the order unchanged, and the scaled
      prototype values split by position; the first division fails when the
      impedance or the cutoff is zero. */
  function ButterworthDesign(cutoff: real, impedance: real, n: int, lib: Lib): Result<Design>
  {
    var omega := Omega(cutoff);
    if n >= 1 && !Scalable(impedance, omega) then Err(ZeroDivision)
    else
      var gs := ButterworthGs(n, lib);
      Ok(Design(Capacitors(gs, |gs|, impedance, omega), Inductors(gs, |gs|, impedance, omega), n))
  }

  /** calculate_butterworth */
  method CalculateButterworth(cutoff: real, impedance: real, numComponents: int, lib: Lib)
    returns (r: Result<Design>)
    ensures r == ButterworthDesign(cutoff, impedance, numComponents, lib)
  {
    var n := numComponents;
    var omega := 2.0 * PI * cutoff;
    ghost var gs := ButterworthGs(n, lib);
    var capacitors: seq<real> := [];
    var inductors: seq<real> := [];
    var i := 1;
    while i <= n
      invariant 1 <= i && (i <= n + 1 || i == 1)
      invariant i > 1 ==> Scalable(impedance, omega)
      invariant capacitors == Capacitors(gs, i - 1, impedance, omega)
      invariant inductors == Inductors(gs, i - 1, impedance, omega)
    {
      var k := Angle(i, n);
      var g := 2.0 * lib.sin(k);
      if !Scalable(impedance, omega) {
        return Err(ZeroDivision);
      }
      var capValue := Capacitance(g, impedance, omega);
      var indValue := Inductance(g, impedance, omega);
      assert gs[i - 1] == g;
      if i % 2 == 1 {
        capacitors := capacitors + [capValue];
      } else {
        inductors := inductors + [indValue];
      }
      i := i + 1;
    }
    r := Ok(Design(capacitors, inductors, n));
  }

  /** ceil(n/2) capacitors and floor(n/2) inductors, the order unchanged, each
      value the denormalised g_i of its position. */
  lemma ButterworthDesignShape(cutoff: real, impedance: real, n: int, lib: Lib)
    requires n >= 1 && Scalable(impedance, Omega(cutoff))
    ensures var r := ButterworthDesign(cutoff, impedance, n, lib);
      r.Ok? && r.value.order == n &&
      |r.value.capacitors| == (n + 1) / 2 && |r.value.inductors| == n / 2 &&
      (forall j :: 0 <= j < (n + 1) / 2 ==>
        r.value.capacitors[j] == Capacitance(ButterworthG(2 * j + 1, n, lib), impedance, Omega(cutoff))) &&
      (forall j :: 0 <= j < n / 2 ==>
        r.value.inductors[j] == Inductance(ButterworthG(2 * j + 2, n, lib), impedance, Omega(cutoff)))
  {
    var gs := ButterworthGs(n, lib);
    SplitIndexes(gs, |gs|, impedance, Omega(cutoff));
  }

  /** An order below 1 gives an empty design whatever the other inputs. */
  lemma ButterworthDesignEmpty(cutoff: real, impedance: real, n: int, lib: Lib)
    requires n < 1
    ensures ButterworthDesign(cutoff, impedance, n, lib) == Ok(Design([], [], n))
  {
  }

  /** With sin positive on (0, pi) and a positive impedance and cutoff, every
      component value is positive. */
  lemma ButterworthDesignPositive(cutoff: real, impedance: real, n: int, lib: Lib)
    requires SinPositive(lib)
    requires n >= 1 && impedance > 0.0 && cutoff > 0.0
    ensures var r := ButterworthDesign(cutoff, impedance, n, lib);
      r.Ok? &&
      (forall j :: 0 <= j < |r.value.capacitors| ==> r.value.capacitors[j] > 0.0) &&
      (forall j :: 0 <= j < |r.value.inductors| ==> r.value.inductors[j] > 0.0)
  {
    var omega := Omega(cutoff);
    var gs := ButterworthGs(n, lib);
    SplitIndexes(gs, |gs|, impedance, omega);
    forall i | 0 <= i < |gs|
      ensures Capacitance(gs[i], impedance, omega) > 0.0 && Inductance(gs[i], impedance, omega) > 0.0
    {
      AngleInRange(i + 1, n);
      ScaledPositive(gs[i], impedance, omega);
    }
  }

  // ---------------------------------------------------------------------------
  // Chebyshev

  /** gn = sinh(ln(coth(ripple / 17.37)) / (2n)), with the errors Python raises
      on the way: a zero denominator in coth, a logarithm of a non-positive
      number, a zero order. */
  function ChebyshevGn(ripple: real, n: int, lib: Lib): Result<real>
  {
    var rr := ripple / 17.37;
    var e2x := lib.exp(2.0 * rr);
    if e2x - 1.0 == 0.0 then Err(ZeroDivision)
    else
      var coth := (e2x + 1.0) / (e2x - 1.0);
      if coth <= 0.0 then Err(MathDomain)
      else if n == 0 then Err(ZeroDivision)
      else Ok(lib.sinh(lib.ln(coth) / (2 * n) as real))
  }

  /** A positive ripple and order give a positive gn: exp(2 rr) > 1, so
      coth > 1, ln(coth) > 0 and sinh of a positive number is positive. */
  lemma ChebyshevGnPositive(ripple: real, n: int, lib: Lib)
    requires ExpLaws(lib) && LnLaws(lib) && SinhLaws(lib)
    requires ripple > 0.0 && n >= 1
    ensures ChebyshevGn(ripple, n, lib).Ok? && ChebyshevGn(ripple, n, lib).value > 0.0
  {
    var e2x := lib.exp(2.0 * (ripple / 17.37));
    assert e2x > 1.0;
    var coth := (e2x + 1.0) / (e2x - 1.0);
    DivAtLeast(e2x + 1.0, e2x - 1.0, 1.0);
    assert coth * (e2x - 1.0) == e2x + 1.0;
    assert coth > 1.0;
    QuotientPositive(lib.ln(coth), (2 * n) as real);
  }

  /** a_i = sin((2i - 1) pi / (2n)) */
  function ChebyshevA(i: int, n: int, lib: Lib): real
    requires n != 0
  {
    lib.sin(Angle(i, n))
  }

  /** b_i = gn^2 + sin(pi i / n)^2 */
  function ChebyshevB(i: int, n: int, gn: real, lib: Lib): real
    requires n != 0
  {
    Power(gn, 2) + Power(lib.sin(StepAngle(i, n)), 2)
  }

  /** The arrays a and b as the fill loop of calculate_chebyshev leaves them
      (index 0 unused). */
  function ATable(n: nat, lib: Lib): (a: seq<real>)
    requires n >= 1
    ensures |a| == n + 1
  {
    seq(n + 1, i requires 0 <= i <= n => if i == 0 then 0.0 else ChebyshevA(i, n, lib))
  }

  function BTable(n: nat, gn: real, lib: Lib): (b: seq<real>)
    requires n >= 1
    ensures |b| == n + 1
  {
    seq(n + 1, i requires 0 <= i <= n => if i == 0 then 0.0 else ChebyshevB(i, n, gn, lib))
  }

  /** g_1 = 2 a_1 / gn */
  function GFirst(a1: real, gn: real): real
    requires gn != 0.0
  {
    2.0 * a1 / gn
  }

  /** b_(i-1) g_(i-1) */
  function GDenominator(bPrev: real, gPrev: real): real
  {
    bPrev * gPrev
  }

  /** g_i = 4 a_(i-1) a_i / (b_(i-1) g_(i-1)), the denominator given. */
  function GNext(aPrev: real, a: real, denominator: real): real
    requires denominator != 0.0
  {
    (4.0 * aPrev * a) / denominator
  }

  /** g_1 .. g_k from the arrays a and b, or the division by zero that stops
      the recurrence. */
  function ChebyshevGs(a: seq<real>, b: seq<real>, gn: real, k: nat): (r: Result<seq<real>>)
    requires 1 <= k < |a| == |b|
    ensures r.Err? ==> r.error == ZeroDivision
    ensures r.Ok? ==> |r.value| == k
  {
    if k == 1 then
      if gn == 0.0 then Err(ZeroDivision) else Ok([GFirst(a[1], gn)])
    else
      match ChebyshevGs(a, b, gn, k - 1)
      case Err(e) => Err(e)
      case Ok(gs) =>
        var denominator := GDenominator(b[k - 1], gs[k - 2]);
        if denominator == 0.0 then Err(ZeroDivision)
        else Ok(gs + [GNext(a[k - 1], a[k], denominator)])
  }

  /** A successful run satisfies g_1 = 2 a_1 / gn and, for every later index,
      g_i = 4 a_(i-1) a_i / (b_(i-1) g_(i-1)) with a non-zero denominator. */
  lemma {:induction false} ChebyshevGsRecurrence(a: seq<real>, b: seq<real>, gn: real, k: nat)
    requires 1 <= k < |a| == |b|
    requires ChebyshevGs(a, b, gn, k).Ok?
    ensures var g := ChebyshevGs(a, b, gn, k).value;
      gn != 0.0 && g[0] == GFirst(a[1], gn) &&
      forall i :: 1 <= i < k ==>
        GDenominator(b[i], g[i - 1]) != 0.0 &&
        g[i] == GNext(a[i], a[i + 1], GDenominator(b[i], g[i - 1]))
  {
    if k > 1 {
      ChebyshevGsRecurrence(a, b, gn, k - 1);
      var gs := ChebyshevGs(a, b, gn, k - 1).value;
      var g := ChebyshevGs(a, b, gn, k).value;
      assert forall i :: 0 <= i < k - 1 ==> g[i] == gs[i];
    }
  }

  /** Once the recurrence fails, it stays failed. */
  lemma {:induction false} ChebyshevGsErrorPersists(a: seq<real>, b: seq<real>, gn: real,
                                                    k: nat, m: nat)
    requires 1 <= k <= m < |a| == |b|
    requires ChebyshevGs(a, b, gn, k).Err?
    ensures ChebyshevGs(a, b, gn, m) == ChebyshevGs(a, b, gn, k)
    decreases m - k
  {
    if k < m {
      ChebyshevGsErrorPersists(a, b, gn, k, m - 1);
    }
  }

  lemma GStepPositive(aPrev: real, a: real, bPrev: real, gPrev: real)
    requires aPrev > 0.0 && a > 0.0 && bPrev > 0.0 && gPrev > 0.0
    ensures GFirst(a, gPrev) > 0.0
    ensures GDenominator(bPrev, gPrev) > 0.0
    ensures GNext(aPrev, a, GDenominator(bPrev, gPrev)) > 0.0
  {
    QuotientPositive(2.0 * a, gPrev);
    ProductPositive(bPrev, gPrev);
    ProductPositive(4.0 * aPrev, a);
    QuotientPositive(4.0 * aPrev * a, bPrev * gPrev);
  }

  /** With gn and every a_i, b_i positive, no division fails and every g_i is
      positive. */
  lemma {:induction false} ChebyshevGsPositive(a: seq<real>, b: seq<real>, gn: real, k: nat)
    requires 1 <= k < |a| == |b| && gn > 0.0
    requires forall i :: 1 <= i < |a| ==> a[i] > 0.0 && b[i] > 0.0
    ensures ChebyshevGs(a, b, gn, k).Ok?
    ensures forall i :: 0 <= i < k ==> ChebyshevGs(a, b, gn, k).value[i] > 0.0
  {
    if k == 1 {
      GStepPositive(1.0, a[1], 1.0, gn);
    } else {
      ChebyshevGsPositive(a, b, gn, k - 1);
      var gs := ChebyshevGs(a, b, gn, k - 1).value;
      GStepPositive(a[k - 1], a[k], b[k - 1], gs[k - 2]);
    }
  }

  /** What calculate_chebyshev returns, with the first error Python raises:
      computing gn, then indexing a[1] when n < 0, then the g recurrence, then
      the first capacitor's division. */
  function ChebyshevDesign(cutoff: real, impedance: real, ripple: real, n: int, lib: Lib)
    : Result<Design>
  {
    match ChebyshevGn(ripple, n, lib)
    case Err(e) => Err(e)
    case Ok(gn) =>
      if n < 0 then Err(IndexOutOfRange)
      else
        match ChebyshevGs(ATable(n, lib), BTable(n, gn, lib), gn, n)
        case Err(e) => Err(e)
        case Ok(gs) =>
          var omega := Omega(cutoff);
          if !Scalable(impedance, omega) then Err(ZeroDivision)
          else Ok(Design(Capacitors(gs, n, impedance, omega), Inductors(gs, n, impedance, omega), n))
  }

  /** The prototype tables of calculate_chebyshev: the arrays a and b, filled in
      place from index 1 on. */
  method PrototypeTables(n: nat, gn: real, lib: Lib) returns (a: array<real>, b: array<real>)
    requires n >= 1
    ensures fresh(a) && fresh(b)
    ensures a[..] == ATable(n, lib) && b[..] == BTable(n, gn, lib)
  {
    a := new real[n + 1](_ => 0.0);
    b := new real[n + 1](_ => 0.0);
    ghost var at, bt := ATable(n, lib), BTable(n, gn, lib);
    var i := 1;
    while i <= n
      invariant 1 <= i <= n + 1 && a != b
      invariant forall j :: 0 <= j < i ==> a[j] == at[j] && b[j] == bt[j]
    {
      a[i] := ChebyshevA(i, n, lib);
      b[i] := ChebyshevB(i, n, gn, lib);
      i := i + 1;
    }
  }

  /** The g-value recurrence of calculate_chebyshev: g filled in place from
      index 1 on, g[0] untouched; false when a division by zero stops it. */
  method Recurrence(a: array<real>, b: array<real>, g: array<real>, gn: real)
    returns (ok: bool)
    requires 2 <= a.Length == b.Length == g.Length
    requires g != a && g != b
    modifies g
    ensures ok <==> ChebyshevGs(a[..], b[..], gn, g.Length - 1).Ok?
    ensures ok ==> ChebyshevGs(a[..], b[..], gn, g.Length - 1) == Ok(g[1..])
    ensures g[0] == old(g[0])
  {
    var n := g.Length - 1;
    if gn == 0.0 {
      ChebyshevGsErrorPersists(a[..], b[..], gn, 1, n);
      return false;
    }
    g[1] := GFirst(a[1], gn);
    assert a[..][1] == a[1];
    assert g[1..2] == [g[1]];
    var i := 2;
    while i <= n
      invariant 2 <= i <= n + 1
      invariant ChebyshevGs(a[..], b[..], gn, i - 1) == Ok(g[1..i])
      invariant g[0] == old(g[0])
    {
      var denominator := GDenominator(b[i - 1], g[i - 1]);
      assert g[1..i][i - 2] == g[i - 1];
      if denominator == 0.0 {
        ChebyshevGsErrorPersists(a[..], b[..], gn, i, n);
        return false;
      }
      ghost var before := g[1..i];
      g[i] := GNext(a[i - 1], a[i], denominator);
      assert g[1..i + 1] == before + [g[i]];
      i := i + 1;
    }
    assert g[1..] == g[1..n + 1];
    ok := true;
  }

  /** The denormalisation of calculate_chebyshev: positions 1 .. n of g split into scaled capacitors and
      inductors; the first capacitor's division fails for a zero impedance or
      cutoff. */
  method Denormalize(g: array<real>, impedance: real, omega: real)
    returns (r: Result<(seq<real>, seq<real>)>)
    requires g.Length >= 2
    ensures !Scalable(impedance, omega) ==> r == Err(ZeroDivision)
    ensures Scalable(impedance, omega) ==> r == Ok((
      Capacitors(g[1..], g.Length - 1, impedance, omega),
      Inductors(g[1..], g.Length - 1, impedance, omega)))
  {
    var n := g.Length - 1;
    ghost var gs := g[1..];
    var capacitors: seq<real> := [];
    var inductors: seq<real> := [];
    var i := 1;
    while i <= n
      invariant 1 <= i <= n + 1
      invariant i > 1 ==> Scalable(impedance, omega)
      invariant capacitors == Capacitors(gs, i - 1, impedance, omega)
      invariant inductors == Inductors(gs, i - 1, impedance, omega)
    {
      if i % 2 == 1 && !Scalable(impedance, omega) {
        return Err(ZeroDivision);
      }
      assert gs[i - 1] == g[i];
      if i % 2 == 1 {
        capacitors := capacitors + [Capacitance(g[i], impedance, omega)];
      } else {
        inductors := inductors + [Inductance(g[i], impedance, omega)];
      }
      i := i + 1;
    }
    r := Ok((capacitors, inductors));
  }

  /** calculate_chebyshev */
  method CalculateChebyshev(cutoff: real, impedance: real, rippleDb: real, numComponents: int,
                            lib: Lib) returns (r: Result<Design>)
    ensures r == ChebyshevDesign(cutoff, impedance, rippleDb, numComponents, lib)
  {
    var n := numComponents;
    var omega := Omega(cutoff);
    var prototype := ChebyshevGn(rippleDb, n, lib);
    if prototype.Err? {
      return Err(prototype.error);
    }
    var gn := prototype.value;
    if n < 0 {
      return Err(IndexOutOfRange);
    }
    var a, b := PrototypeTables(n, gn, lib);
    var g := new real[n + 1](_ => 0.0);
    var ok := Recurrence(a, b, g, gn);
    if !ok {
      return Err(ZeroDivision);
    }
    var split := Denormalize(g, impedance, omega);
    if split.Err? {
      return Err(split.error);
    }
    r := Ok(Design(split.value.0, split.value.1, n));
  }

  /** For a positive ripple, impedance and cutoff and n >= 1: no step fails, the
      g values follow the recurrence, and the design holds ceil(n/2) positive
      capacitors and floor(n/2) positive inductors with the order unchanged,
      even orders included. */
  lemma ChebyshevDesignShape(cutoff: real, impedance: real, ripple: real, n: int, lib: Lib)
    requires ExpLaws(lib) && LnLaws(lib) && SinhLaws(lib) && SinPositive(lib)
    requires ripple > 0.0 && n >= 1 && impedance > 0.0 && cutoff > 0.0
    ensures var r := ChebyshevDesign(cutoff, impedance, ripple, n, lib);
      r.Ok? && r.value.order == n &&
      |r.value.capacitors| == (n + 1) / 2 && |r.value.inductors| == n / 2 &&
      (forall j :: 0 <= j < |r.value.capacitors| ==> r.value.capacitors[j] > 0.0) &&
      (forall j :: 0 <= j < |r.value.inductors| ==> r.value.inductors[j] > 0.0)
  {
    ChebyshevGnPositive(ripple, n, lib);
    var gn := ChebyshevGn(ripple, n, lib).value;
    var a, b := ATable(n, lib), BTable(n, gn, lib);
    forall i | 1 <= i < |a|
      ensures a[i] > 0.0 && b[i] > 0.0
    {
      AngleInRange(i, n);
      assert a[i] == lib.sin(Angle(i, n)) > 0.0;
      var s := lib.sin(StepAngle(i, n));
      EvenPowerNonNegative(s, 1);
      SquarePositive(gn);
      assert b[i] == Power(gn, 2) + Power(s, 2);
    }
    ChebyshevGsPositive(a, b, gn, n);
    var gs := ChebyshevGs(a, b, gn, n).value;
    var omega := Omega(cutoff);
    SplitIndexes(gs, n, impedance, omega);
    forall i | 0 <= i < |gs|
      ensures Capacitance(gs[i], impedance, omega) > 0.0 && Inductance(gs[i], impedance, omega) > 0.0
    {
      ScaledPositive(gs[i], impedance, omega);
    }
  }
}
