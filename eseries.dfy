/** lowpass_lib/eseries.py: the E12, E24 and E96 preferred-value tables, the
    nearest standard value to a component value, and the search for two standard
    values whose sum comes closer. */
module ESeries {
  import opened Errors
  import opened Elementary
  import opened Text

  // ---------------------------------------------------------------------------
  // The tables: normalised values in [1, 10), one decade each.

  const E12: seq<real> := [1.0, 1.2, 1.5, 1.8, 2.2, 2.7, 3.3, 3.9, 4.7, 5.6, 6.8, 8.2]

  const E24: seq<real> :=
    [1.0, 1.1, 1.2, 1.3, 1.5, 1.6, 1.8, 2.0, 2.2, 2.4, 2.7, 3.0] +
    [3.3, 3.6, 3.9, 4.3, 4.7, 5.1, 5.6, 6.2, 6.8, 7.5, 8.2, 9.1]

  const E96: seq<real> :=
    E96Row1 + E96Row2 + E96Row3 + E96Row4 + E96Row5 + E96Row6 + E96Row7 + E96Row8

  const E96Row1: seq<real> := [1.00, 1.02, 1.05, 1.07, 1.10, 1.13, 1.15, 1.18, 1.21, 1.24, 1.27, 1.30]
  const E96Row2: seq<real> := [1.33, 1.37, 1.40, 1.43, 1.47, 1.50, 1.54, 1.58, 1.62, 1.65, 1.69, 1.74]
  const E96Row3: seq<real> := [1.78, 1.82, 1.87, 1.91, 1.96, 2.00, 2.05, 2.10, 2.15, 2.21, 2.26, 2.32]
  const E96Row4: seq<real> := [2.37, 2.43, 2.49, 2.55, 2.61, 2.67, 2.74, 2.80, 2.87, 2.94, 3.01, 3.09]
  const E96Row5: seq<real> := [3.16, 3.24, 3.32, 3.40, 3.48, 3.57, 3.65, 3.74, 3.83, 3.92, 4.02, 4.12]
  const E96Row6: seq<real> := [4.22, 4.32, 4.42, 4.53, 4.64, 4.75, 4.87, 4.99, 5.11, 5.23, 5.36, 5.49]
  const E96Row7: seq<real> := [5.62, 5.76, 5.90, 6.04, 6.19, 6.34, 6.49, 6.65, 6.81, 6.98, 7.15, 7.32]
  const E96Row8: seq<real> := [7.50, 7.68, 7.87, 8.06, 8.25, 8.45, 8.66, 8.87, 9.09, 9.31, 9.53, 9.76]

  /** A single-value match is only improved upon when its error exceeds this
      many percent, and a pair is only offered when it gains more than this. */
  const ParallelThreshold: real := 2.0

  predicate Adjacent(t: seq<real>)
  {
    forall j :: 0 <= j < |t| - 1 ==> t[j] < t[j + 1]
  }

  predicate StrictlyIncreasing(t: seq<real>)
  {
    forall i, j :: 0 <= i < j < |t| ==> t[i] < t[j]
  }

  /** A normalised table: one decade starting at 1, strictly increasing. */
  predicate WellFormed(t: seq<real>)
  {
    |t| > 0 && t[0] == 1.0 && t[|t| - 1] < 10.0 && StrictlyIncreasing(t)
  }

  lemma {:induction false} AdjacentIsStrict(t: seq<real>, i: nat, j: nat)
    requires Adjacent(t)
    requires i < j < |t|
    ensures t[i] < t[j]
    decreases j - i
  {
    if i + 1 < j {
      AdjacentIsStrict(t, i + 1, j);
    }
  }

  lemma AdjacentStrictlyIncreasing(t: seq<real>)
    requires Adjacent(t)
    ensures StrictlyIncreasing(t)
  {
    forall i, j | 0 <= i < j < |t|
      ensures t[i] < t[j]
    {
      AdjacentIsStrict(t, i, j);
    }
  }

  lemma E12WellFormed()
    ensures |E12| == 12 && WellFormed(E12) && E12[11] == 8.2
  {
    AdjacentStrictlyIncreasing(E12);
  }

  lemma E24WellFormed()
    ensures |E24| == 24 && WellFormed(E24) && E24[23] == 9.1
  {
    forall j | 0 <= j < 23
      ensures E24[j] < E24[j + 1]
    {
      if j < 12 {} else {}
    }
    AdjacentStrictlyIncreasing(E24);
  }

  /** Two increasing runs joined where the first ends below the second's start. */
  lemma AdjacentJoin(a: seq<real>, b: seq<real>)
    requires Adjacent(a) && Adjacent(b) && |a| > 0 && |b| > 0 && a[|a| - 1] < b[0]
    ensures Adjacent(a + b)
  {
    forall j | 0 <= j < |a + b| - 1
      ensures (a + b)[j] < (a + b)[j + 1]
    {
      if j + 1 < |a| {
        assert (a + b)[j] == a[j] && (a + b)[j + 1] == a[j + 1];
      } else if j + 1 == |a| {
        assert (a + b)[j] == a[|a| - 1] && (a + b)[j + 1] == b[0];
      } else {
        assert (a + b)[j] == b[j - |a|] && (a + b)[j + 1] == b[j + 1 - |a|];
      }
    }
  }

  lemma E96LowerHalfIncreasing()
    ensures Adjacent(E96Row1 + E96Row2 + E96Row3 + E96Row4)
  {
    AdjacentJoin(E96Row1, E96Row2);
    AdjacentJoin(E96Row1 + E96Row2, E96Row3);
    AdjacentJoin(E96Row1 + E96Row2 + E96Row3, E96Row4);
  }

  lemma E96UpperHalfIncreasing()
    ensures Adjacent(E96Row5 + E96Row6 + E96Row7 + E96Row8)
  {
    AdjacentJoin(E96Row5, E96Row6);
    AdjacentJoin(E96Row5 + E96Row6, E96Row7);
    AdjacentJoin(E96Row5 + E96Row6 + E96Row7, E96Row8);
  }

  lemma E96WellFormed()
    ensures |E96| == 96 && WellFormed(E96) && E96[95] == 9.76
  {
    var lower := E96Row1 + E96Row2 + E96Row3 + E96Row4;
    var upper := E96Row5 + E96Row6 + E96Row7 + E96Row8;
    E96LowerHalfIncreasing();
    E96UpperHalfIncreasing();
    assert lower[47] == 3.09 && upper[0] == 3.16;
    AdjacentJoin(lower, upper);
    assert E96 == lower + upper;
    AdjacentStrictlyIncreasing(E96);
  }

  /** get_eseries_values: the table named, case-insensitively. */
  function SeriesValues(series: string): (r: Result<seq<real>>)
    ensures r.Ok? <==> Upper(series) in {"E12", "E24", "E96"}
    ensures r.Err? ==> r.error == UnknownSeries
    ensures r.Ok? ==> WellFormed(r.value) && r.value[|r.value| - 1] >= 8.2
  {
    E12WellFormed();
    E24WellFormed();
    E96WellFormed();
    var name := Upper(series);
    if name == "E12" then Ok(E12)
    else if name == "E24" then Ok(E24)
    else if name == "E96" then Ok(E96)
    else Err(UnknownSeries)
  }

  /** Lower-case names are accepted. */
  lemma SeriesNameIgnoresCase()
    ensures SeriesValues("e24") == Ok(E24)
    ensures SeriesValues("E6").Err?
  {
    assert Upper("e24") == "E24";
    assert Upper("E6") == "E6";
  }

  // ---------------------------------------------------------------------------
  // normalize_to_decade

  /** The mantissa and decade exponent of a positive value: the exponent is
      floor(log10(value)), and a mantissa of 10 or more is divided by ten once. */
  function NormalizeToDecade(value: real, lib: Lib): (r: Result<(real, int)>)
    ensures r.Ok? <==> value > 0.0
    ensures r.Err? ==> r.error == NonPositiveValue
    ensures r.Ok? ==> r.value.0 > 0.0 && TimesPow10(r.value.0, r.value.1) == value
  {
    if value <= 0.0 then Err(NonPositiveValue)
    else
      var exponent := lib.log10(value).Floor;
      var mantissa := value / Pow10(exponent);
      Pow10Step(exponent);
      if mantissa >= 10.0 then Ok((mantissa / 10.0, exponent + 1))
      else Ok((mantissa, exponent))
  }

  /** When floor(log10) is the decade exponent or one less, the mantissa lies in
      [1, 10) and the exponent is that of the value's decade. */
  lemma NormalizeInDecade(value: real, lib: Lib)
    requires DecadeFloor(lib)
    requires value > 0.0
    ensures var (m, e) := NormalizeToDecade(value, lib).value;
            1.0 <= m < 10.0 && Pow10(e) <= value < Pow10(e + 1)
  {
    var f := lib.log10(value).Floor;
    var p := Pow10(f);
    Pow10Step(f);
    Pow10Step(f + 1);
    assert p <= value < 100.0 * p;
    DivAtLeast(value, p, 10.0);
    DivAtLeast(value, p, 1.0);
    DivBelow(value, p, 10.0);
    if value / p >= 10.0 {
      DivBelow(value, p, 100.0);
      DivAtLeast(value / p, 10.0, 1.0);
      DivBelow(value / p, 10.0, 10.0);
      assert NormalizeToDecade(value, lib).value == (value / p / 10.0, f + 1);
      assert Pow10(f + 1) <= value < Pow10(f + 2);
    } else {
      assert NormalizeToDecade(value, lib).value == (value / p, f);
      assert Pow10(f) <= value < Pow10(f + 1);
    }
  }

  /** A standard value times a power of ten normalises to exactly that value and
      that power. */
  lemma NormalizeStandard(lib: Lib, x: real, k: int)
    requires DecadeFloor(lib)
    requires 1.0 <= x < 10.0
    ensures NormalizeToDecade(TimesPow10(x, k), lib) == Ok((x, k))
  {
    var v := TimesPow10(x, k);
    TimesPow10InDecade(x, k);
    NormalizeInDecade(v, lib);
    var (m, e) := NormalizeToDecade(v, lib).value;
    if e < k {
      Pow10Monotone(e + 1, k);
    } else if e > k {
      Pow10Monotone(k + 1, e);
    }
    assert e == k;
    TimesPow10Injective(m, x, k);
  }

  // ---------------------------------------------------------------------------
  // find_closest

  function Dist(m: real, x: real): real
  {
    Abs(m - x)
  }

  /** The index of the first entry among t[..n] nearest to m. */
  function NearestIn(t: seq<real>, m: real, n: nat): (r: nat)
    requires 0 < n <= |t|
    ensures r < n
  {
    if n == 1 then 0
    else
      var b := NearestIn(t, m, n - 1);
      if Dist(m, t[n - 1]) < Dist(m, t[b]) then n - 1 else b
  }

  /** NearestIn is nearest among t[..n], and every entry before it is farther. */
  lemma {:induction false} NearestInIsFirstNearest(t: seq<real>, m: real, n: nat)
    requires 0 < n <= |t|
    ensures var r := NearestIn(t, m, n);
            (forall k :: 0 <= k < n ==> Dist(m, t[r]) <= Dist(m, t[k])) &&
            (forall k :: 0 <= k < r ==> Dist(m, t[k]) > Dist(m, t[r]))
  {
    if n > 1 {
      NearestInIsFirstNearest(t, m, n - 1);
    }
  }

  /** Once an entry above m is farther than the best so far, no later entry of a
      strictly increasing table can be nearer: the scan may stop there. */
  lemma {:induction false} ScanMayStop(t: seq<real>, m: real, k: nat, n: nat)
    requires StrictlyIncreasing(t)
    requires 1 <= k < n <= |t|
    requires t[k] > m && Dist(m, t[k]) > Dist(m, t[NearestIn(t, m, k)])
    ensures NearestIn(t, m, n) == NearestIn(t, m, k)
    decreases n
  {
    var b := NearestIn(t, m, k);
    var dk, db := Dist(m, t[k]), Dist(m, t[b]);
    if n > k + 1 {
      ScanMayStop(t, m, k, n - 1);
      assert t[k] < t[n - 1];
      FartherAbove(m, t[k], t[n - 1]);
      assert Dist(m, t[n - 1]) > dk > db;
      StaysBest(t, m, n, b);
    } else {
      assert n - 1 == k;
      StaysBest(t, m, n, b);
    }
  }

  /** An entry no nearer than the best so far leaves the best in place. */
  lemma StaysBest(t: seq<real>, m: real, n: nat, b: nat)
    requires 1 < n <= |t| && b == NearestIn(t, m, n - 1)
    requires Dist(m, t[n - 1]) >= Dist(m, t[b])
    ensures NearestIn(t, m, n) == b
  {
    NearestStep(t, m, n);
  }

  /** Above m, a larger entry is farther away. */
  lemma FartherAbove(m: real, x: real, y: real)
    requires m < x < y
    ensures Dist(m, x) < Dist(m, y)
  {
  }

  /** One step of the scan: entry n - 1 replaces the best only when strictly nearer. */
  lemma NearestStep(t: seq<real>, m: real, n: nat)
    requires 1 < n <= |t|
    ensures NearestIn(t, m, n) ==
      if Dist(m, t[n - 1]) < Dist(m, t[NearestIn(t, m, n - 1)]) then n - 1 else NearestIn(t, m, n - 1)
  {
  }

  /** The early-exit scan of find_closest over a sorted table. */
  method ScanNearest(t: seq<real>, m: real) returns (best: real)
    requires |t| > 0 && Adjacent(t)
    ensures best == t[NearestIn(t, m, |t|)]
  {
    best := t[0];
    var bestDiff := Dist(m, best);
    ghost var b := 0;
    var k := 1;
    while k < |t|
      invariant 1 <= k <= |t|
      invariant b == NearestIn(t, m, k) && best == t[b] && bestDiff == Dist(m, best)
    {
      var diff := Dist(m, t[k]);
      if diff < bestDiff {
        bestDiff := diff;
        best := t[k];
        b := k;
      } else if diff > bestDiff && t[k] > m {
        AdjacentStrictlyIncreasing(t);
        ScanMayStop(t, m, k, |t|);
        break;
      }
      k := k + 1;
    }
  }

  /** The value chosen for a mantissa, and whether it is the first value of the
      next decade. */
  datatype Snapped = Snapped(best: real, up: bool)

  /** The nearest table entry, replaced by the last entry of the decade below when
      m is under the first entry and that is nearer, or by ten times the first
      entry when m is above the last entry and that is nearer. */
  function Snap(t: seq<real>, m: real): Snapped
    requires |t| > 0
  {
    var b0 := t[NearestIn(t, m, |t|)];
    var below := t[|t| - 1] / 10.0;
    var b1 := if m < t[0] && Dist(m, below) < Dist(m, b0) then below else b0;
    var above := t[0] * 10.0;
    if m > t[|t| - 1] && Dist(m, above) < Dist(m, b1) then Snapped(above, true)
    else Snapped(b1, false)
  }

  /** The table with the last entry of the decade below and the first entry of
      the decade above. */
  function Neighbourhood(t: seq<real>): seq<real>
    requires |t| > 0
  {
    t + [t[|t| - 1] / 10.0, t[0] * 10.0]
  }

  /** The snapped value is a nearest one among the table, the last entry of the
      decade below and the first entry of the decade above. */
  lemma SnapIsNearest(t: seq<real>, m: real)
    requires WellFormed(t)
    ensures var s := Snap(t, m);
            s.best in Neighbourhood(t) &&
            (s.up <==> s.best == 10.0) &&
            forall c :: c in Neighbourhood(t) ==> Dist(m, s.best) <= Dist(m, c)
  {
    var n := |t|;
    var i0 := NearestIn(t, m, n);
    NearestInIsFirstNearest(t, m, n);
    var s := Snap(t, m);
    forall c | c in Neighbourhood(t)
      ensures Dist(m, s.best) <= Dist(m, c)
    {
      if c in t {
        var k :| 0 <= k < n && t[k] == c;
        assert Dist(m, t[i0]) <= Dist(m, t[k]);
      } else if c == t[n - 1] / 10.0 {
        assert Dist(m, t[i0]) <= Dist(m, t[0]);
        assert Dist(m, t[i0]) <= Dist(m, t[n - 1]);
      } else {
        assert Dist(m, t[i0]) <= Dist(m, t[n - 1]);
        assert Dist(m, t[i0]) <= Dist(m, t[0]);
      }
    }
    assert t[i0] < 10.0 by {
      if i0 < n - 1 {
        assert t[i0] < t[n - 1];
      }
    }
  }

  /** What find_closest reports: the matched value and its error in percent. */
  datatype Match = Match(matched: real, error: real)

  /** 100 * (matched - value) / value, the signed error in percent. */
  function ErrorPercent(matched: real, value: real): real
    requires value > 0.0
  {
    100.0 * (matched - value) / value
  }

  /** The nearest standard value to a positive value, the decade wrap taken
      with the exponent it belongs to. */
  function Closest(value: real, series: string, lib: Lib): (r: Result<Match>)
    ensures r.Ok? <==> value > 0.0 && SeriesValues(series).Ok?
    ensures value <= 0.0 ==> r == Err(NonPositiveValue)
    ensures value > 0.0 && r.Err? ==> r.error == UnknownSeries
  {
    var norm := NormalizeToDecade(value, lib);
    var lookup := SeriesValues(series);
    if norm.Err? then Err(norm.error)
    else if lookup.Err? then Err(lookup.error)
    else
      var matched := TimesPow10(Snap(lookup.value, norm.value.0).best, norm.value.1);
      Ok(Match(matched, ErrorPercent(matched, value)))
  }

  /** find_closest as written: after choosing ten times the first entry of the
      table it also lowers the exponent by one. */
  function ClosestAsWritten(value: real, series: string, lib: Lib): (r: Result<Match>)
    ensures r.Ok? <==> Closest(value, series, lib).Ok?
  {
    var norm := NormalizeToDecade(value, lib);
    var lookup := SeriesValues(series);
    if norm.Err? then Err(norm.error)
    else if lookup.Err? then Err(lookup.error)
    else
      var s := Snap(lookup.value, norm.value.0);
      var exponent := if s.up then norm.value.1 - 1 else norm.value.1;
      var matched := TimesPow10(s.best, exponent);
      Ok(Match(matched, ErrorPercent(matched, value)))
  }

  /** The normalised part of find_closest: the scan, then the two decade wraps;
      up tells whether the upward wrap to the next decade was taken. */
  method SnapMantissa(t: seq<real>, mantissa: real) returns (bestMatch: real, up: bool)
    requires |t| > 0 && StrictlyIncreasing(t)
    ensures Snapped(bestMatch, up) == Snap(t, mantissa)
  {
    bestMatch := ScanNearest(t, mantissa);
    up := false;
    var bestDiff := Abs(mantissa - bestMatch);
    if mantissa < t[0] {
      var lastVal := t[|t| - 1] / 10.0;
      if Abs(mantissa - lastVal) < bestDiff {
        bestMatch := lastVal;
      }
    }
    var firstValNext := t[0] * 10.0;
    if mantissa > t[|t| - 1] && Abs(mantissa - firstValNext) < Abs(mantissa - bestMatch) {
      bestMatch := firstValNext;
      up := true;
    }
  }

  /** find_closest as written: the upward wrap also lowers the exponent. */
  method FindClosestAsWritten(value: real, series: string, lib: Lib) returns (r: Result<Match>)
    ensures r == ClosestAsWritten(value, series, lib)
  {
    var norm := NormalizeToDecade(value, lib);
    if norm.Err? {
      return Err(norm.error);
    }
    var (mantissa, exponent) := norm.value;
    var lookup := SeriesValues(series);
    if lookup.Err? {
      return Err(lookup.error);
    }
    var bestMatch, up := SnapMantissa(lookup.value, mantissa);
    if up {
      exponent := exponent - 1;
    }
    var matched := TimesPow10(bestMatch, exponent);
    r := Ok(Match(matched, ErrorPercent(matched, value)));
  }

  /** find_closest, with the next-decade wrap corrected: the exponent is kept. */
  method FindClosest(value: real, series: string, lib: Lib) returns (r: Result<Match>)
    ensures r == Closest(value, series, lib)
  {
    var norm := NormalizeToDecade(value, lib);
    if norm.Err? {
      return Err(norm.error);
    }
    var (mantissa, exponent) := norm.value;
    var lookup := SeriesValues(series);
    if lookup.Err? {
      return Err(lookup.error);
    }
    var bestMatch, up := SnapMantissa(lookup.value, mantissa);
    var matched := TimesPow10(bestMatch, exponent);
    r := Ok(Match(matched, ErrorPercent(matched, value)));
  }

  /** The value Closest matches, in terms of the normalised value. */
  lemma ClosestMatched(value: real, series: string, lib: Lib)
    requires value > 0.0 && SeriesValues(series).Ok?
    ensures var (m, e) := NormalizeToDecade(value, lib).value;
            Closest(value, series, lib).value.matched ==
              TimesPow10(Snap(SeriesValues(series).value, m).best, e)
  {
  }

  /** A snapped value, at any exponent, is a table entry at some exponent. */
  lemma SnappedIsStandard(t: seq<real>, m: real, e: int)
    requires WellFormed(t)
    ensures exists j, k :: 0 <= j < |t| && TimesPow10(Snap(t, m).best, e) == TimesPow10(t[j], k)
  {
    var best := Snap(t, m).best;
    SnapIsNearest(t, m);
    if best in t {
      var j :| 0 <= j < |t| && t[j] == best;
      assert TimesPow10(best, e) == TimesPow10(t[j], e);
    } else if best == 10.0 {
      TimesPow10Shift(t[0], e);
      assert TimesPow10(best, e) == TimesPow10(t[0], e + 1);
    } else {
      TimesPow10Shift(t[|t| - 1], e);
      assert TimesPow10(best, e) == TimesPow10(t[|t| - 1], e - 1);
    }
  }

  /** A nearest value to the mantissa, scaled by the same power of ten, is a
      nearest value to the value. */
  lemma ScaledIsNearest(cs: seq<real>, best: real, m: real, e: int, value: real)
    requires forall c :: c in cs ==> Dist(m, best) <= Dist(m, c)
    requires TimesPow10(m, e) == value
    ensures forall c :: c in cs ==>
              Abs(TimesPow10(best, e) - value) <= Abs(TimesPow10(c, e) - value)
  {
    forall c | c in cs
      ensures Abs(TimesPow10(best, e) - value) <= Abs(TimesPow10(c, e) - value)
    {
      ScaledDistance(best, c, m, Pow10(e));
    }
  }

  /** Scaled by the same power of ten, the snapped value stays a nearest one. */
  lemma SnapScaledIsNearest(t: seq<real>, m: real, e: int, value: real)
    requires WellFormed(t)
    requires TimesPow10(m, e) == value
    ensures forall c :: c in Neighbourhood(t) ==>
              Abs(TimesPow10(Snap(t, m).best, e) - value) <= Abs(TimesPow10(c, e) - value)
  {
    SnapIsNearest(t, m);
    ScaledIsNearest(Neighbourhood(t), Snap(t, m).best, m, e, value);
  }

  /** The matched value is a standard value times a power of ten, and no value
      of the table or its neighbouring decades is nearer to the input. */
  lemma ClosestIsNearestStandardValue(value: real, series: string, lib: Lib)
    requires value > 0.0 && SeriesValues(series).Ok?
    ensures var t := SeriesValues(series).value;
            var e := NormalizeToDecade(value, lib).value.1;
            var r := Closest(value, series, lib).value;
            (exists j, k :: 0 <= j < |t| && r.matched == TimesPow10(t[j], k)) &&
            forall c :: c in Neighbourhood(t) ==>
              Abs(r.matched - value) <= Abs(TimesPow10(c, e) - value)
  {
    var t := SeriesValues(series).value;
    var (m, e) := NormalizeToDecade(value, lib).value;
    ClosestMatched(value, series, lib);
    SnapScaledIsNearest(t, m, e, value);
    SnappedIsStandard(t, m, e);
  }

  /** A value that already is a standard value is matched by itself, error 0. */
  lemma ClosestOfStandardValue(series: string, lib: Lib, j: nat, k: int)
    requires DecadeFloor(lib)
    requires SeriesValues(series).Ok? && j < |SeriesValues(series).value|
    ensures var v := TimesPow10(SeriesValues(series).value[j], k);
            Closest(v, series, lib) == Ok(Match(v, 0.0))
  {
    var t := SeriesValues(series).value;
    var x := t[j];
    assert t[0] <= x by {
      if j > 0 {
        assert t[0] < t[j];
      }
    }
    assert x < 10.0 by {
      if j < |t| - 1 {
        assert t[j] < t[|t| - 1];
      }
    }
    NormalizeStandard(lib, x, k);
    var i0 := NearestIn(t, x, |t|);
    NearestInIsFirstNearest(t, x, |t|);
    assert Dist(x, t[i0]) <= Dist(x, t[j]);
    assert t[i0] == x;
    assert Snap(t, x).best == x;
  }

  /** The downward wrap of find_closest never fires: a normalised mantissa is at
      least 1.0, the first entry of every table, so the snapped mantissa is a
      table entry or the next decade's 10.0, never the previous decade's last
      entry. */
  lemma DownwardWrapUnreachable(value: real, series: string, lib: Lib)
    requires DecadeFloor(lib) && value > 0.0 && SeriesValues(series).Ok?
    ensures var t := SeriesValues(series).value;
            var m := NormalizeToDecade(value, lib).value.0;
            !(m < t[0]) && (Snap(t, m).best in t || Snap(t, m).best == 10.0)
  {
    var t := SeriesValues(series).value;
    var m := NormalizeToDecade(value, lib).value.0;
    NormalizeInDecade(value, lib);
    assert t[NearestIn(t, m, |t|)] in t;
  }

  /** The upward wrap is only taken for a mantissa above 9.1 in the tables of
      this module, whose last entries are 8.2 or more. */
  lemma UpwardWrapMantissa(t: seq<real>, m: real)
    requires WellFormed(t) && t[|t| - 1] >= 8.2
    requires Snap(t, m).up
    ensures m > 9.1
  {
    var n := |t|;
    var i0 := NearestIn(t, m, n);
    NearestInIsFirstNearest(t, m, n);
    assert Dist(m, t[i0]) <= Dist(m, t[n - 1]);
  }

  /** When the next-decade value is chosen, find_closest as written reports one
      tenth of the intended match, an error below -89 percent, where the
      intended match errs by less than 10 percent. */
  lemma UpwardWrapAsWritten(value: real, series: string, lib: Lib)
    requires DecadeFloor(lib)
    requires value > 0.0 && SeriesValues(series).Ok?
    requires Snap(SeriesValues(series).value, NormalizeToDecade(value, lib).value.0).up
    ensures ClosestAsWritten(value, series, lib).value.matched * 10.0 ==
            Closest(value, series, lib).value.matched
    ensures ClosestAsWritten(value, series, lib).value.error < -89.0
    ensures 0.0 < Closest(value, series, lib).value.error < 10.0
  {
    var t := SeriesValues(series).value;
    var norm := NormalizeToDecade(value, lib).value;
    var m, e := norm.0, norm.1;
    NormalizeInDecade(value, lib);
    UpwardWrapMantissa(t, m);
    assert Snap(t, m).best == 10.0;
    WrapOutcome(value, m, e);
  }

  /** Without the upward wrap, find_closest as written and the corrected one
      agree: the fault is confined to the wrap. */
  lemma NoWrapAsWrittenAgrees(value: real, series: string, lib: Lib)
    requires value > 0.0 && SeriesValues(series).Ok?
    requires !Snap(SeriesValues(series).value, NormalizeToDecade(value, lib).value.0).up
    ensures ClosestAsWritten(value, series, lib) == Closest(value, series, lib)
  {
  }

  /** The matches with and without the lowered exponent, for a mantissa in
      (9.1, 10). */
  lemma WrapOutcome(value: real, m: real, e: int)
    requires 9.1 < m < 10.0 && value == TimesPow10(m, e)
    ensures TimesPow10(10.0, e - 1) * 10.0 == TimesPow10(10.0, e)
    ensures ErrorPercent(TimesPow10(10.0, e - 1), value) < -89.0
    ensures 0.0 < ErrorPercent(TimesPow10(10.0, e), value) < 10.0
  {
    var p := Pow10(e);
    Pow10Step(e - 1);
    assert TimesPow10(10.0, e - 1) == p;
    assert TimesPow10(10.0, e) == 10.0 * p;
    WrapErrors(m, p, value);
  }

  /** The two errors of an upward wrap, for a mantissa m in (9.1, 10). */
  lemma WrapErrors(m: real, p: real, value: real)
    requires 9.1 < m < 10.0 && p > 0.0 && value == m * p
    ensures ErrorPercent(p, value) < -89.0
    ensures 0.0 < ErrorPercent(10.0 * p, value) < 10.0
  {
    assert ErrorPercent(p, value) == 100.0 * (1.0 - m) / m by {
      assert (p - m * p) == (1.0 - m) * p;
    }
    assert ErrorPercent(10.0 * p, value) == 100.0 * (10.0 - m) / m by {
      assert (10.0 * p - m * p) == (10.0 - m) * p;
    }
    DivBelow(100.0 * (1.0 - m), m, -89.0);
    DivBelow(100.0 * (10.0 - m), m, 10.0);
    DivAtLeast(100.0 * (10.0 - m), m, 0.0);
  }

  /** 9.7 against E24: find_closest as written answers 1.0 although 9.1 and 10
      are both nearer; the corrected match is 10. */
  lemma NinePointSevenAsWritten(lib: Lib)
    requires DecadeFloor(lib)
    ensures ClosestAsWritten(9.7, "E24", lib).value.matched == 1.0
    ensures Closest(9.7, "E24", lib).value.matched == 10.0
  {
    assert Upper("E24") == "E24";
    assert TimesPow10(9.7, 0) == 9.7;
    NormalizeStandard(lib, 9.7, 0);
    E24WellFormed();
    var i0 := NearestIn(E24, 9.7, 24);
    NearestInIsFirstNearest(E24, 9.7, 24);
    assert Dist(9.7, E24[i0]) <= Dist(9.7, E24[23]);
    assert E24[i0] <= 9.1 by {
      if i0 < 23 {
        assert E24[i0] < E24[23];
      }
    }
    assert Snap(E24, 9.7) == Snapped(10.0, true);
    assert TimesPow10(10.0, -1) == 1.0;
  }

  // ---------------------------------------------------------------------------
  // find_parallel_match

  /** The table scaled into one decade: entry k times scale times 10 ** d. */
  function Decade(t: seq<real>, scale: real, d: int): (c: seq<real>)
    ensures |c| == |t|
  {
    seq(|t|, k requires 0 <= k < |t| => t[k] * scale * Pow10(d))
  }

  /** The values paired up: the value's own decade, then the one below. */
  function Candidates(t: seq<real>, scale: real): (c: seq<real>)
    ensures |c| == 2 * |t|
  {
    Decade(t, scale, 0) + Decade(t, scale, -1)
  }

  /** The candidates of a value known to normalise and a known series. */
  function CandidatesFor(value: real, series: string, lib: Lib): seq<real>
    requires value > 0.0 && SeriesValues(series).Ok?
  {
    Candidates(SeriesValues(series).value, Pow10(NormalizeToDecade(value, lib).value.1))
  }

  /** Both values positive and within a factor of ten of each other. */
  predicate Admissible(c: seq<real>, i: nat, j: nat)
    requires i < |c| && j < |c|
  {
    c[j] > 0.0 && c[i] > 0.0 && !(Max(c[i], c[j]) / Min(c[i], c[j]) > 10.0)
  }

  /** The signed error, in percent of the value, of the sum of two candidates. */
  function PairError(c: seq<real>, value: real, i: nat, j: nat): real
    requires i < |c| && j < |c| && value > 0.0
  {
    ErrorPercent(c[i] + c[j], value)
  }

  /** Pair (i2, j2) comes before pair (i, j) in the search order. */
  predicate Before(i2: nat, j2: nat, i: nat, j: nat)
  {
    i2 < i || (i2 == i && j2 < j)
  }

  /** (i, j) has the least absolute error of all admissible pairs, and every
      admissible pair searched before it has a larger one. */
  predicate FirstBestPair(c: seq<real>, value: real, i: nat, j: nat)
    requires i <= j < |c| && value > 0.0
  {
    (forall i2, j2 :: 0 <= i2 <= j2 < |c| && Admissible(c, i2, j2) ==>
      Abs(PairError(c, value, i, j)) <= Abs(PairError(c, value, i2, j2))) &&
    (forall i2, j2 :: 0 <= i2 <= j2 < |c| && Before(i2, j2, i, j) && Admissible(c, i2, j2) ==>
      Abs(PairError(c, value, i, j)) < Abs(PairError(c, value, i2, j2)))
  }

  datatype Parallel = Parallel(first: real, second: real, error: real)

  /** The answer p of the pair search over candidates c, for a single match
      whose absolute error is single: a pair is offered exactly when single
      exceeds 2 percent and some admissible pair errs by more than 2 percentage
      points less; the pair offered is the first best one. */
  predicate IsParallelChoice(c: seq<real>, value: real, single: real, p: Option<Parallel>)
    requires value > 0.0
  {
    (p.Some? <==>
      single > ParallelThreshold &&
      exists i, j :: 0 <= i <= j < |c| && Admissible(c, i, j) &&
        Abs(PairError(c, value, i, j)) < single - ParallelThreshold) &&
    (p.Some? ==>
      exists i, j :: 0 <= i <= j < |c| && Admissible(c, i, j) &&
        p.value == Parallel(c[i], c[j], PairError(c, value, i, j)) &&
        FirstBestPair(c, value, i, j))
  }

  /** What find_parallel_match promises for a value and series, given the
      absolute error single of the single match it starts from. */
  predicate IsParallelMatch(value: real, series: string, lib: Lib, single: real, p: Option<Parallel>)
    requires value > 0.0 && SeriesValues(series).Ok?
  {
    IsParallelChoice(CandidatesFor(value, series, lib), value, single, p)
  }

  /** all_scaled_values, built decade by decade as the source appends them. */
  method ScaledValues(t: seq<real>, scale: real) returns (all: seq<real>)
    ensures all == Candidates(t, scale)
  {
    var decades := [0, -1];
    all := [];
    var di := 0;
    while di < |decades|
      invariant 0 <= di <= 2
      invariant all == if di == 0 then [] else if di == 1 then Decade(t, scale, 0)
                       else Candidates(t, scale)
    {
      var d := decades[di];
      ghost var start := all;
      ghost var row := Decade(t, scale, d);
      var k := 0;
      while k < |t|
        invariant 0 <= k <= |t|
        invariant all == start + row[..k]
      {
        assert row[k] == t[k] * scale * Pow10(d);
        assert row[..k + 1] == row[..k] + [row[k]];
        all := all + [t[k] * scale * Pow10(d)];
        k := k + 1;
      }
      assert row[..|t|] == row;
      di := di + 1;
    }
  }

  /** The nested loops of find_parallel_match: every pair of candidates, each
      pair once, first to last, keeping the first pair whose absolute error
      beats the best so far, starting from the single match's error. */
  method PairSearch(c: seq<real>, value: real, single: real)
    returns (bestError: real, bestCombo: Option<Parallel>, ghost bi: nat, ghost bj: nat)
    requires value > 0.0
    ensures bestCombo.None? ==>
      bestError == single &&
      forall i2, j2 :: 0 <= i2 <= j2 < |c| && Admissible(c, i2, j2) ==>
        single <= Abs(PairError(c, value, i2, j2))
    ensures bestCombo.Some? ==>
      bi <= bj < |c| && Admissible(c, bi, bj) && bestError < single &&
      bestCombo.value == Parallel(c[bi], c[bj], PairError(c, value, bi, bj)) &&
      bestError == Abs(PairError(c, value, bi, bj)) &&
      FirstBestPair(c, value, bi, bj)
  {
    bestError := single;
    bestCombo := None;
    bi, bj := 0, 0;
    var i := 0;
    while i < |c|
      invariant 0 <= i <= |c|
      invariant Searched(c, value, i, i, single, bestError, bestCombo, bi, bj)
    {
      var j := i;
      while j < |c|
        invariant i <= j <= |c|
        invariant Searched(c, value, i, j, single, bestError, bestCombo, bi, bj)
      {
        var v1, v2 := c[i], c[j];
        if v2 > 0.0 && v1 > 0.0 {
          var ratio := Max(v1, v2) / Min(v1, v2);
          if !(ratio > 10.0) {
            var combined := v1 + v2;
            var error := Abs(ErrorPercent(combined, value));
            if error < bestError {
              bestError := error;
              bestCombo := Some(Parallel(v1, v2, ErrorPercent(combined, value)));
              bi, bj := i, j;
            }
          }
        }
        j := j + 1;
      }
      i := i + 1;
    }
  }

  /** The decision after the search: offer the pair found when it gains more
      than 2 percentage points. */
  lemma DecisionIsParallelChoice(c: seq<real>, value: real, single: real, bestError: real,
                                 bestCombo: Option<Parallel>, bi: nat, bj: nat)
    requires value > 0.0 && single > ParallelThreshold
    requires bestCombo.None? ==>
      bestError == single &&
      forall i2, j2 :: 0 <= i2 <= j2 < |c| && Admissible(c, i2, j2) ==>
        single <= Abs(PairError(c, value, i2, j2))
    requires bestCombo.Some? ==>
      bi <= bj < |c| && Admissible(c, bi, bj) && bestError < single &&
      bestCombo.value == Parallel(c[bi], c[bj], PairError(c, value, bi, bj)) &&
      bestError == Abs(PairError(c, value, bi, bj)) &&
      FirstBestPair(c, value, bi, bj)
    ensures IsParallelChoice(c, value, single,
              if bestCombo.Some? && single - bestError > ParallelThreshold then bestCombo else None)
  {
  }

  /** The part of find_parallel_match after the single match: no pair when the
      single error is within 2 percent, else the search over the candidates of
      the value's decade and the one below. */
  method ParallelSearch(value: real, series: string, lib: Lib, singleError: real)
    returns (p: Option<Parallel>)
    requires value > 0.0 && SeriesValues(series).Ok?
    ensures IsParallelMatch(value, series, lib, Abs(singleError), p)
  {
    if Abs(singleError) <= ParallelThreshold {
      return None;
    }
    var t := SeriesValues(series).value;
    var (mantissa, exponent) := NormalizeToDecade(value, lib).value;
    var scale := Pow10(exponent);
    var all := ScaledValues(t, scale);
    var bestError, bestCombo, bi, bj := PairSearch(all, value, Abs(singleError));
    DecisionIsParallelChoice(all, value, Abs(singleError), bestError, bestCombo, bi, bj);
    if bestCombo.Some? && Abs(singleError) - bestError > ParallelThreshold {
      p := bestCombo;
    } else {
      p := None;
    }
  }

  /** find_parallel_match as written: it starts from find_closest as written,
      so after the faulty upward wrap it searches for a pair. */
  method FindParallelMatch(value: real, series: string, lib: Lib)
    returns (r: Result<Option<Parallel>>)
    ensures r.Err? <==> ClosestAsWritten(value, series, lib).Err?
    ensures r.Err? ==> r.error == ClosestAsWritten(value, series, lib).error
    ensures r.Ok? ==>
      IsParallelMatch(value, series, lib, Abs(ClosestAsWritten(value, series, lib).value.error), r.value)
  {
    var single := FindClosestAsWritten(value, series, lib);
    if single.Err? {
      return Err(single.error);
    }
    var p := ParallelSearch(value, series, lib, single.value.error);
    r := Ok(p);
  }

  /** find_parallel_match on the corrected find_closest. */
  method FindParallelMatchCorrected(value: real, series: string, lib: Lib)
    returns (r: Result<Option<Parallel>>)
    ensures r.Err? <==> Closest(value, series, lib).Err?
    ensures r.Err? ==> r.error == Closest(value, series, lib).error
    ensures r.Ok? ==>
      IsParallelMatch(value, series, lib, Abs(Closest(value, series, lib).value.error), r.value)
  {
    var single := FindClosest(value, series, lib);
    if single.Err? {
      return Err(single.error);
    }
    var p := ParallelSearch(value, series, lib, single.value.error);
    r := Ok(p);
  }

  /** The state of the pair search once every pair before (i, j) is searched:
      bestError is the least of the single error and the admissible pairs'
      errors, and bestCombo is the first pair reaching it, if any. */
  ghost predicate Searched(c: seq<real>, value: real, i: nat, j: nat, single: real,
                           bestError: real, bestCombo: Option<Parallel>, bi: nat, bj: nat)
    requires value > 0.0
  {
    bestError <= single &&
    (forall i2, j2 :: 0 <= i2 <= j2 < |c| && Before(i2, j2, i, j) && Admissible(c, i2, j2) ==>
      bestError <= Abs(PairError(c, value, i2, j2))) &&
    (bestCombo.None? ==> bestError == single) &&
    (bestCombo.Some? ==>
      bi <= bj < |c| && Before(bi, bj, i, j) && Admissible(c, bi, bj) &&
      bestError < single &&
      bestCombo.value == Parallel(c[bi], c[bj], PairError(c, value, bi, bj)) &&
      bestError == Abs(PairError(c, value, bi, bj)) &&
      forall i2, j2 :: 0 <= i2 <= j2 < |c| && Before(i2, j2, bi, bj) && Admissible(c, i2, j2) ==>
        bestError < Abs(PairError(c, value, i2, j2)))
  }

  /** What match_component returns: the ideal value, the single match, the
      series name in upper case and the optional pair with its error. */
  datatype MatchResult = MatchResult(
    ideal: real,
    matched: real,
    errorPercent: real,
    series: string,
    parallelValues: Option<(real, real)>,
    parallelErrorPercent: Option<real>)

  /** The pair of a match result, as find_parallel_match returned it. */
  function PairOf(m: MatchResult): Option<Parallel>
  {
    if m.parallelValues.Some? && m.parallelErrorPercent.Some? then
      Some(Parallel(m.parallelValues.value.0, m.parallelValues.value.1, m.parallelErrorPercent.value))
    else None
  }

  /** The record match_component builds from a single match and the answer of
      the pair search. */
  function Assemble(value: real, series: string, single: Match, p: Option<Parallel>): (m: MatchResult)
    ensures m.ideal == value && m.matched == single.matched && m.errorPercent == single.error
    ensures m.series == Upper(series)
    ensures m.parallelValues.Some? <==> m.parallelErrorPercent.Some?
    ensures PairOf(m) == p
  {
    MatchResult(value, single.matched, single.error, Upper(series),
                if p.Some? then Some((p.value.first, p.value.second)) else None,
                if p.Some? then Some(p.value.error) else None)
  }

  /** match_component as written, on find_closest and find_parallel_match as
      written. */
  method MatchComponent(value: real, series: string, lib: Lib) returns (r: Result<MatchResult>)
    ensures r.Err? <==> ClosestAsWritten(value, series, lib).Err?
    ensures r.Err? ==> r.error == ClosestAsWritten(value, series, lib).error
    ensures r.Ok? ==>
      var m := r.value;
      var single := ClosestAsWritten(value, series, lib).value;
      m.ideal == value && m.matched == single.matched && m.errorPercent == single.error &&
      m.series == Upper(series) &&
      (m.parallelValues.Some? <==> m.parallelErrorPercent.Some?) &&
      IsParallelMatch(value, series, lib, Abs(single.error), PairOf(m))
  {
    var single := FindClosestAsWritten(value, series, lib);
    if single.Err? {
      return Err(single.error);
    }
    var parallel := FindParallelMatch(value, series, lib);
    var p: Option<Parallel> := None;
    if parallel.Ok? && parallel.value.Some? {
      p := parallel.value;
    }
    r := Ok(Assemble(value, series, single.value, p));
  }

  /** match_component on the corrected find_closest. */
  method MatchComponentCorrected(value: real, series: string, lib: Lib) returns (r: Result<MatchResult>)
    ensures r.Err? <==> Closest(value, series, lib).Err?
    ensures r.Err? ==> r.error == Closest(value, series, lib).error
    ensures r.Ok? ==>
      var m := r.value;
      var single := Closest(value, series, lib).value;
      m.ideal == value && m.matched == single.matched && m.errorPercent == single.error &&
      m.series == Upper(series) &&
      (m.parallelValues.Some? <==> m.parallelErrorPercent.Some?) &&
      IsParallelMatch(value, series, lib, Abs(single.error), PairOf(m))
  {
    var single := FindClosest(value, series, lib);
    if single.Err? {
      return Err(single.error);
    }
    var parallel := FindParallelMatchCorrected(value, series, lib);
    var p: Option<Parallel> := None;
    if parallel.Ok? && parallel.value.Some? {
      p := parallel.value;
    }
    r := Ok(Assemble(value, series, single.value, p));
  }

  /** 9.9 lies in the wrap region of E24: as written the match is 1.0, corrected
      it is 10.0. */
  lemma NinePointNineAsWritten(lib: Lib)
    requires DecadeFloor(lib)
    ensures NormalizeToDecade(9.9, lib) == Ok((9.9, 0))
    ensures ClosestAsWritten(9.9, "E24", lib).value.matched == 1.0
    ensures Closest(9.9, "E24", lib).value.matched == 10.0
  {
    assert Upper("E24") == "E24";
    assert TimesPow10(9.9, 0) == 9.9;
    NormalizeStandard(lib, 9.9, 0);
    E24WellFormed();
    var i0 := NearestIn(E24, 9.9, 24);
    NearestInIsFirstNearest(E24, 9.9, 24);
    assert Dist(9.9, E24[i0]) <= Dist(9.9, E24[23]);
    assert E24[i0] <= 9.1 by {
      if i0 < 23 {
        assert E24[i0] < E24[23];
      }
    }
    assert Snap(E24, 9.9) == Snapped(10.0, true);
    assert TimesPow10(10.0, -1) == 1.0;
  }

  /** Among the E24 candidates of the decade [1, 10), 2.4 + 7.5 is an
      admissible pair summing to 9.9. */
  lemma ExactPairForNinePointNine(c: seq<real>)
    requires c == Candidates(E24, 1.0)
    ensures 21 < |c| && Admissible(c, 9, 21) && PairError(c, 9.9, 9, 21) == 0.0
  {
    assert Decade(E24, 1.0, 0)[9] == 2.4 by {
      assert Pow10(0) == 1.0;
    }
    assert Decade(E24, 1.0, 0)[21] == 7.5;
    assert c[9] == 2.4 && c[21] == 7.5;
  }

  /** For 9.9 in E24 the faulty wrap reports 1.0, whose error of about -90
      percent makes find_parallel_match offer a pair, and the pair offered
      sums to 9.9 exactly (2.4 + 7.5 is one such pair); the corrected match,
      10.0, is within 2 percent and no pair is offered. */
  lemma NinePointNineSpuriousPair(lib: Lib)
    requires DecadeFloor(lib)
    ensures forall p :: IsParallelMatch(9.9, "E24", lib, Abs(ClosestAsWritten(9.9, "E24", lib).value.error), p) ==>
              p.Some? && p.value.error == 0.0 && p.value.first + p.value.second == 9.9
    ensures forall p :: IsParallelMatch(9.9, "E24", lib, Abs(Closest(9.9, "E24", lib).value.error), p) ==>
              p.None?
  {
    NinePointNineAsWritten(lib);
    assert SeriesValues("E24") == Ok(E24) by {
      assert Upper("E24") == "E24";
    }
    var wrong := ClosestAsWritten(9.9, "E24", lib).value.error;
    assert Abs(wrong) > 80.0;
    var c := CandidatesFor(9.9, "E24", lib);
    assert c == Candidates(E24, 1.0);
    ExactPairForNinePointNine(c);
    forall p | IsParallelMatch(9.9, "E24", lib, Abs(wrong), p)
      ensures p.Some? && p.value.error == 0.0 && p.value.first + p.value.second == 9.9
    {
      assert p.Some?;
      var i, j :| 0 <= i <= j < |c| && Admissible(c, i, j) &&
        p.value == Parallel(c[i], c[j], PairError(c, 9.9, i, j)) && FirstBestPair(c, 9.9, i, j);
      assert Abs(PairError(c, 9.9, i, j)) <= Abs(PairError(c, 9.9, 9, 21));
    }
    assert Abs(Closest(9.9, "E24", lib).value.error) <= ParallelThreshold;
  }
}
