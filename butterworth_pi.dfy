/** butterworth-pi-lowpass-filter.py: the Butterworth-only calculator. Its
    element loop is the library's calculate_butterworth run on the clamped order,
    and its parsers are the ones of pi-lowpass-filter.py. */
module ButterworthPi {
  import opened Errors
  import opened Elementary
  import Parsing
  import PiFilter
  import opened Calculations

  /** max(1, min(11, requested)): out-of-range counts are clamped, not rejected. */
  function ClampedOrder(requested: int): (n: int)
    ensures 1 <= n <= 11
    ensures n == requested <==> 1 <= requested <= 11
    ensures requested < 1 ==> n == 1
    ensures requested > 11 ==> n == 11
  {
    IMax(1, IMin(11, requested))
  }

  /** The dict calculate_butterworth_pi_lowpass returns. */
  datatype Components = Components(capacitors: seq<real>, inductors: seq<real>)

  /** The library design for the clamped order, without its order field. */
  function PiDesign(cutoff: real, impedance: real, requested: int, lib: Lib): Result<Components>
  {
    match ButterworthDesign(cutoff, impedance, ClampedOrder(requested), lib)
    case Err(e) => Err(e)
    case Ok(d) => Ok(Components(d.capacitors, d.inductors))
  }

  /** calculate_butterworth_pi_lowpass */
  method CalculateButterworthPi(cutoff: real, impedance: real, requested: int, lib: Lib)
    returns (r: Result<Components>)
    ensures r == PiDesign(cutoff, impedance, requested, lib)
  {
    var n := IMax(1, IMin(11, requested));
    var design := CalculateButterworth(cutoff, impedance, n, lib);
    if design.Err? {
      return Err(design.error);
    }
    r := Ok(Components(design.value.capacitors, design.value.inductors));
  }

  /** ceil(n/2) capacitors and floor(n/2) inductors for the clamped n, so the
      order main prints, their total, is the clamped n; each value is the
      denormalised g_i = 2 sin((2i - 1) pi / (2n)) of its position. */
  lemma PiDesignShape(cutoff: real, impedance: real, requested: int, lib: Lib)
    requires Scalable(impedance, Omega(cutoff))
    ensures var n := ClampedOrder(requested);
      var r := PiDesign(cutoff, impedance, requested, lib);
      r.Ok? &&
      |r.value.capacitors| == (n + 1) / 2 && |r.value.inductors| == n / 2 &&
      |r.value.capacitors| + |r.value.inductors| == n &&
      (forall j :: 0 <= j < (n + 1) / 2 ==>
        r.value.capacitors[j] == Capacitance(ButterworthG(2 * j + 1, n, lib), impedance, Omega(cutoff))) &&
      (forall j :: 0 <= j < n / 2 ==>
        r.value.inductors[j] == Inductance(ButterworthG(2 * j + 2, n, lib), impedance, Omega(cutoff)))
  {
    ButterworthDesignShape(cutoff, impedance, ClampedOrder(requested), lib);
  }

  /** What main computes before displaying it: the parsed inputs must be
      positive numbers; the component count is never rejected. */
  function Run(frequency: string, impedance: string, components: int,
               toFloat: string -> Option<real>, lib: Lib): Result<Components>
  {
    match Parsing.ParseFrequency(frequency, toFloat)
    case Err(e) => Err(e)
    case Ok(hz) =>
      match PiFilter.ParseImpedance(impedance, toFloat)
      case Err(e) => Err(e)
      case Ok(ohms) =>
        if hz <= 0.0 then Err(FrequencyNotPositive)
        else if ohms <= 0.0 then Err(ImpedanceNotPositive)
        else PiDesign(hz, ohms, components, lib)
  }

  /** main succeeds exactly when both texts parse to positive numbers, whatever
      the count; the printed order is then the clamped count and every value is
      positive. */
  lemma RunSucceedsIffPositive(frequency: string, impedance: string, components: int,
                               toFloat: string -> Option<real>, lib: Lib)
    requires SinPositive(lib)
    ensures var r := Run(frequency, impedance, components, toFloat, lib);
      var hz := Parsing.ParseFrequency(frequency, toFloat);
      var ohms := PiFilter.ParseImpedance(impedance, toFloat);
      (r.Ok? <==> hz.Ok? && hz.value > 0.0 && ohms.Ok? && ohms.value > 0.0) &&
      (r.Ok? ==>
        |r.value.capacitors| + |r.value.inductors| == ClampedOrder(components) &&
        (forall j :: 0 <= j < |r.value.capacitors| ==> r.value.capacitors[j] > 0.0) &&
        (forall j :: 0 <= j < |r.value.inductors| ==> r.value.inductors[j] > 0.0))
  {
    var hz := Parsing.ParseFrequency(frequency, toFloat);
    var ohms := PiFilter.ParseImpedance(impedance, toFloat);
    if hz.Ok? && hz.value > 0.0 && ohms.Ok? && ohms.value > 0.0 {
      PiDesignShape(hz.value, ohms.value, components, lib);
      ButterworthDesignPositive(hz.value, ohms.value, ClampedOrder(components), lib);
    }
  }
}
