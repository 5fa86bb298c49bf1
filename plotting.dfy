/** lowpass_lib/plotting.py: the logarithmic frequency grid of a response plot
    and the search for the frequency where the response falls through -3 dB.
    10 ** x and math.log10 are the `pow10` and `log10` routines of `Lib`. */
module Plotting {
  import opened Errors
  import opened Elementary

  // ---------------------------------------------------------------------------
  // generate_frequency_points

  /** -1 + 2 i / (N - 1): the exponent of point i, walking linearly from -1 to 1. */
  function Exponent(i: int, numPoints: int): real
    requires numPoints >= 2
  {
    -1.0 + (2 * i) as real / (numPoints - 1) as real
  }

  /** cutoff * 10 ** exponent */
  function Point(cutoff: real, i: int, numPoints: int, lib: Lib): real
    requires numPoints >= 2
  {
    cutoff * lib.pow10(Exponent(i, numPoints))
  }

  /** The list generate_frequency_points returns, or the error it raises. */
  function FrequencyPoints(cutoff: real, numPoints: int, lib: Lib): (r: Result<seq<real>>)
    ensures r.Ok? ==> |r.value| == numPoints
  {
    if cutoff <= 0.0 then Err(NonPositiveCutoff)
    else if numPoints < 2 then Err(TooFewPoints)
    else Ok(seq(numPoints, i requires 0 <= i < numPoints => Point(cutoff, i, numPoints, lib)))
  }

  /** generate_frequency_points: the checks, then one append per point. */
  method GenerateFrequencyPoints(cutoff: real, numPoints: int, lib: Lib) returns (r: Result<seq<real>>)
    ensures r == FrequencyPoints(cutoff, numPoints, lib)
  {
    if cutoff <= 0.0 {
      return Err(NonPositiveCutoff);
    }
    if numPoints < 2 {
      return Err(TooFewPoints);
    }
    var points: seq<real> := [];
    var i := 0;
    while i < numPoints
      invariant 0 <= i <= numPoints
      invariant |points| == i
      invariant forall j :: 0 <= j < i ==> points[j] == Point(cutoff, j, numPoints, lib)
    {
      points := points + [Point(cutoff, i, numPoints, lib)];
      i := i + 1;
    }
    assert points == seq(numPoints, j requires 0 <= j < numPoints => Point(cutoff, j, numPoints, lib));
    r := Ok(points);
  }

  /** The grid is rejected exactly for a non-positive cutoff (checked first) and
      for fewer than two points; otherwise it has exactly numPoints entries. */
  lemma FrequencyPointsErrors(cutoff: real, numPoints: int, lib: Lib)
    ensures var r := FrequencyPoints(cutoff, numPoints, lib);
            (r.Ok? <==> cutoff > 0.0 && numPoints >= 2) &&
            (cutoff <= 0.0 ==> r == Err(NonPositiveCutoff)) &&
            (cutoff > 0.0 && numPoints < 2 ==> r == Err(TooFewPoints)) &&
            (r.Ok? ==> |r.value| == numPoints)
  {
  }

  /** x / d < y / d for x < y and a positive d. */
  lemma QuotientStrictlyMonotone(x: real, y: real, d: real)
    requires d > 0.0 && x < y
    ensures x / d < y / d
  {
    QuotientPositive(y - x, d);
    assert y / d - x / d == (y - x) / d;
  }

  /** The exponent starts at -1, ends at +1 and strictly increases. */
  lemma ExponentWalk(numPoints: int)
    requires numPoints >= 2
    ensures Exponent(0, numPoints) == -1.0
    ensures Exponent(numPoints - 1, numPoints) == 1.0
    ensures forall i, j :: 0 <= i < j < numPoints ==> Exponent(i, numPoints) < Exponent(j, numPoints)
  {
    var d := (numPoints - 1) as real;
    assert (2 * (numPoints - 1)) as real == 2.0 * d;
    assert (2.0 * d) / d == 2.0;
    forall i, j | 0 <= i < j < numPoints
      ensures Exponent(i, numPoints) < Exponent(j, numPoints)
    {
      QuotientStrictlyMonotone((2 * i) as real, (2 * j) as real, d);
    }
  }

  /** c * a < c * b for a positive c and a < b. */
  lemma ScaleStrictlyMonotone(c: real, a: real, b: real)
    requires c > 0.0 && a < b
    ensures c * a < c * b
  {
    ProductPositive(c, b - a);
    assert c * (b - a) == c * b - c * a;
  }

  /** Under the laws of 10 ** x, the points rise strictly from cutoff / 10 to
      10 * cutoff. */
  lemma FrequencyPointsSpanTwoDecades(cutoff: real, numPoints: int, lib: Lib)
    requires Pow10Laws(lib)
    requires cutoff > 0.0 && numPoints >= 2
    ensures var p := FrequencyPoints(cutoff, numPoints, lib).value;
            p[0] == cutoff * 0.1 && p[numPoints - 1] == cutoff * 10.0 &&
            forall i, j :: 0 <= i < j < numPoints ==> p[i] < p[j]
  {
    ExponentWalk(numPoints);
    var p := FrequencyPoints(cutoff, numPoints, lib).value;
    assert p[0] == cutoff * lib.pow10(-1.0);
    assert p[numPoints - 1] == cutoff * lib.pow10(1.0);
    forall i, j | 0 <= i < j < numPoints
      ensures p[i] < p[j]
    {
      PointsIncrease(cutoff, numPoints, lib, i, j);
    }
  }

  /** A later point lies strictly above an earlier one. */
  lemma PointsIncrease(cutoff: real, numPoints: int, lib: Lib, i: int, j: int)
    requires Pow10Laws(lib)
    requires cutoff > 0.0 && numPoints >= 2 && 0 <= i < j < numPoints
    ensures Point(cutoff, i, numPoints, lib) < Point(cutoff, j, numPoints, lib)
  {
    var ei, ej := Exponent(i, numPoints), Exponent(j, numPoints);
    QuotientStrictlyMonotone((2 * i) as real, (2 * j) as real, (numPoints - 1) as real);
    assert ei < ej;
    assert lib.pow10(ei) < lib.pow10(ej);
    ScaleStrictlyMonotone(cutoff, lib.pow10(ei), lib.pow10(ej));
  }

  // ---------------------------------------------------------------------------
  // _find_3db_frequency

  /** The response is at or above -3 dB at i and below it at i + 1. */
  predicate CrossesAt(response: seq<real>, i: int)
  {
    0 <= i && i + 1 < |response| && response[i] >= -3.0 && response[i + 1] < -3.0
  }

  /** The first crossing at or after k. */
  function CrossingFrom(response: seq<real>, k: nat): (r: Option<nat>)
    ensures r.Some? ==> k <= r.value && CrossesAt(response, r.value)
    ensures r.Some? ==> forall j :: k <= j < r.value ==> !CrossesAt(response, j)
    ensures r.None? ==> forall j :: k <= j ==> !CrossesAt(response, j)
    decreases |response| - k
  {
    if k + 1 >= |response| then None
    else if response[k] >= -3.0 && response[k + 1] < -3.0 then Some(k)
    else CrossingFrom(response, k + 1)
  }

  /** (-3 - r_i) / (r_(i+1) - r_i): how far between the two samples -3 dB lies. */
  function Ratio(r0: real, r1: real): real
    requires r0 != r1
  {
    (-3.0 - r0) / (r1 - r0)
  }

  /** log f1 + ratio * (log f2 - log f1) */
  function Interpolate(logF1: real, logF2: real, ratio: real): real
  {
    logF1 + ratio * (logF2 - logF1)
  }

  /** The estimate _find_3db_frequency returns: None without a crossing,
      otherwise 10 ** of the interpolated log-frequency. Indexing freqs past its
      end and log10 of a non-positive frequency fail as in Python, in the order
      the expression evaluates them. */
  function ThreeDbFrequency(freqs: seq<real>, response: seq<real>, lib: Lib): Result<Option<real>>
  {
    match CrossingFrom(response, 0)
    case None => Ok(None)
    case Some(i) =>
      if i >= |freqs| then Err(IndexOutOfRange)
      else if freqs[i] <= 0.0 then Err(MathDomain)
      else if i + 1 >= |freqs| then Err(IndexOutOfRange)
      else if freqs[i + 1] <= 0.0 then Err(MathDomain)
      else
        var ratio := Ratio(response[i], response[i + 1]);
        Ok(Some(lib.pow10(Interpolate(lib.log10(freqs[i]), lib.log10(freqs[i + 1]), ratio))))
  }

  /** _find_3db_frequency: scan adjacent pairs and interpolate at the first
      crossing. */
  method Find3dbFrequency(freqs: seq<real>, response: seq<real>, lib: Lib)
    returns (r: Result<Option<real>>)
    ensures r == ThreeDbFrequency(freqs, response, lib)
  {
    var i := 0;
    while i < |response| - 1
      invariant 0 <= i
      invariant i <= |response| - 1 || i == 0
      invariant CrossingFrom(response, 0) == CrossingFrom(response, i)
    {
      if response[i] >= -3.0 && response[i + 1] < -3.0 {
        if response[i] == response[i + 1] {
          assert false;
        }
        var ratio := Ratio(response[i], response[i + 1]);
        if i >= |freqs| || freqs[i] <= 0.0 {
          return if i >= |freqs| then Err(IndexOutOfRange) else Err(MathDomain);
        }
        var logF1 := lib.log10(freqs[i]);
        if i + 1 >= |freqs| || freqs[i + 1] <= 0.0 {
          return if i + 1 >= |freqs| then Err(IndexOutOfRange) else Err(MathDomain);
        }
        var logF2 := lib.log10(freqs[i + 1]);
        return Ok(Some(lib.pow10(Interpolate(logF1, logF2, ratio))));
      }
      i := i + 1;
    }
    r := Ok(None);
  }

  /** At a crossing the two responses differ, so the equal-response branch of
      the source is dead, and the ratio lies in [0, 1). */
  lemma CrossingRatio(r0: real, r1: real)
    requires r0 >= -3.0 && r1 < -3.0
    ensures r0 != r1
    ensures 0.0 <= Ratio(r0, r1) < 1.0
  {
    var num, den := -3.0 - r0, r1 - r0;
    var q, q2 := num / den, (-num) / (-den);
    assert q * den == num && q2 * (-den) == -num;
    ProductZeroIff(q - q2, den);
    assert (q - q2) * den == q * den - q2 * den;
    DivAtLeast(-num, -den, 0.0);
    DivBelow(-num, -den, 1.0);
  }

  /** An interpolation with a ratio in [0, 1) stays in [log f1, log f2). */
  lemma InterpolationBetween(logF1: real, logF2: real, ratio: real)
    requires logF1 < logF2 && 0.0 <= ratio < 1.0
    ensures logF1 <= Interpolate(logF1, logF2, ratio) < logF2
  {
    ProductNonNegative(ratio, logF2 - logF1);
    ProductPositive(1.0 - ratio, logF2 - logF1);
    assert logF2 - Interpolate(logF1, logF2, ratio) == (1.0 - ratio) * (logF2 - logF1);
  }

  /** Without a crossing the result is None; with one, and with two increasing
      positive frequencies around it, the estimate lies in [f_i, f_(i+1)). */
  lemma ThreeDbFrequencyBracketed(freqs: seq<real>, response: seq<real>, lib: Lib)
    requires Log10Laws(lib) && Pow10Laws(lib) && Log10Inverse(lib)
    ensures CrossingFrom(response, 0).None? ==> ThreeDbFrequency(freqs, response, lib) == Ok(None)
    ensures CrossingFrom(response, 0).Some? ==>
      var i := CrossingFrom(response, 0).value;
      i + 1 < |freqs| && 0.0 < freqs[i] < freqs[i + 1] ==>
        var r := ThreeDbFrequency(freqs, response, lib);
        r.Ok? && r.value.Some? && freqs[i] <= r.value.value < freqs[i + 1]
  {
    if CrossingFrom(response, 0).Some? {
      var i := CrossingFrom(response, 0).value;
      if i + 1 < |freqs| && 0.0 < freqs[i] < freqs[i + 1] {
        CrossingRatio(response[i], response[i + 1]);
        var l1, l2 := lib.log10(freqs[i]), lib.log10(freqs[i + 1]);
        assert l1 < l2;
        var x := Interpolate(l1, l2, Ratio(response[i], response[i + 1]));
        InterpolationBetween(l1, l2, Ratio(response[i], response[i + 1]));
        assert lib.pow10(l1) == freqs[i] && lib.pow10(l2) == freqs[i + 1];
        if l1 < x {
          assert lib.pow10(l1) < lib.pow10(x);
        }
        assert lib.pow10(x) < lib.pow10(l2);
      }
    }
  }

  /** The first crossing is the one used: the result depends only on the samples
      up to and including it. */
  lemma FirstCrossingWins(freqs: seq<real>, response: seq<real>, i: nat, lib: Lib)
    requires CrossesAt(response, i)
    requires forall j :: 0 <= j < i ==> !CrossesAt(response, j)
    ensures CrossingFrom(response, 0) == Some(i)
  {
  }
}
