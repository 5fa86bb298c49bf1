/** chebyshev-pi-lowpass-filter.py: the Chebyshev-only calculator. It clamps the
    requested order to 1..11 and raises an even one by one, so that the filter
    starts and ends with a capacitor; the computation is the library's
    calculate_chebyshev run on that order, and the parsers are the ones of
    pi-lowpass-filter.py. */
module ChebyshevPi {
  import opened Errors
  import opened Elementary
  import Parsing
  import PiFilter
  import opened Calculations

  /** max(1, min(11, requested)), plus one when even. */
  function AdjustedOrder(requested: int): (n: int)
    ensures 1 <= n <= 11 && n % 2 == 1
    ensures 1 <= requested <= 11 ==> n == if requested % 2 == 1 then requested else requested + 1
    ensures requested < 1 ==> n == 1
    ensures requested > 11 ==> n == 11
  {
    var clamped := IMax(1, IMin(11, requested));
    if clamped % 2 == 0 then clamped + 1 else clamped
  }

  /** The order is kept exactly when it is an odd number from 1 to 11. */
  lemma OrderKeptIffOddInRange(requested: int)
    ensures AdjustedOrder(requested) == requested <==> 1 <= requested <= 11 && requested % 2 == 1
  {
  }

  /** What calculate_chebyshev_pi_lowpass returns: the library design for the
      adjusted order, whose order field is the n it returns. */
  function PiDesign(cutoff: real, impedance: real, ripple: real, requested: int, lib: Lib): Result<Design>
  {
    ChebyshevDesign(cutoff, impedance, ripple, AdjustedOrder(requested), lib)
  }

  /** calculate_chebyshev_pi_lowpass */
  method CalculateChebyshevPi(cutoff: real, impedance: real, ripple: real, requested: int, lib: Lib)
    returns (r: Result<Design>)
    ensures r == PiDesign(cutoff, impedance, ripple, requested, lib)
  {
    var n := IMax(1, IMin(11, requested));
    if n % 2 == 0 {
      n := n + 1;
    }
    r := CalculateChebyshev(cutoff, impedance, ripple, n, lib);
  }

  /** For positive inputs the design succeeds with an odd order from 1 to 11,
      one capacitor more than inductors, (n + 1) / 2 of them, n elements in all,
      and every value positive. */
  lemma PiDesignShape(cutoff: real, impedance: real, ripple: real, requested: int, lib: Lib)
    requires ExpLaws(lib) && LnLaws(lib) && SinhLaws(lib) && SinPositive(lib)
    requires ripple > 0.0 && impedance > 0.0 && cutoff > 0.0
    ensures var r := PiDesign(cutoff, impedance, ripple, requested, lib);
      r.Ok? && r.value.order == AdjustedOrder(requested) &&
      |r.value.capacitors| == |r.value.inductors| + 1 &&
      |r.value.capacitors| == (r.value.order + 1) / 2 &&
      |r.value.capacitors| + |r.value.inductors| == r.value.order &&
      (forall j :: 0 <= j < |r.value.capacitors| ==> r.value.capacitors[j] > 0.0) &&
      (forall j :: 0 <= j < |r.value.inductors| ==> r.value.inductors[j] > 0.0)
  {
    ChebyshevDesignShape(cutoff, impedance, ripple, AdjustedOrder(requested), lib);
  }

  /** The design main displays and whether it prints the "adjusted from"
      notice. */
  datatype Outcome = Outcome(design: Design, adjusted: bool)

  /** What main computes: the parsed inputs and the ripple must be positive; the
      notice is printed when the order used differs from the one requested. */
  function Run(frequency: string, impedance: string, ripple: real, components: int,
               toFloat: string -> Option<real>, lib: Lib): Result<Outcome>
  {
    match Parsing.ParseFrequency(frequency, toFloat)
    case Err(e) => Err(e)
    case Ok(hz) =>
      match PiFilter.ParseImpedance(impedance, toFloat)
      case Err(e) => Err(e)
      case Ok(ohms) =>
        if hz <= 0.0 then Err(FrequencyNotPositive)
        else if ohms <= 0.0 then Err(ImpedanceNotPositive)
        else if ripple <= 0.0 then Err(NonPositiveRipple)
        else
          match PiDesign(hz, ohms, ripple, components, lib)
          case Err(e) => Err(e)
          case Ok(d) => Ok(Outcome(d, d.order != components))
  }

  /** main succeeds exactly when the frequency, impedance and ripple are
      positive, whatever the count, and the notice appears exactly when the
      request was not an odd number from 1 to 11. */
  lemma RunSucceedsIffPositive(frequency: string, impedance: string, ripple: real, components: int,
                               toFloat: string -> Option<real>, lib: Lib)
    requires ExpLaws(lib) && LnLaws(lib) && SinhLaws(lib) && SinPositive(lib)
    ensures var r := Run(frequency, impedance, ripple, components, toFloat, lib);
      var hz := Parsing.ParseFrequency(frequency, toFloat);
      var ohms := PiFilter.ParseImpedance(impedance, toFloat);
      (r.Ok? <==> hz.Ok? && hz.value > 0.0 && ohms.Ok? && ohms.value > 0.0 && ripple > 0.0) &&
      (r.Ok? ==>
        r.value.design.order == AdjustedOrder(components) &&
        (r.value.adjusted <==> !(1 <= components <= 11 && components % 2 == 1)))
  {
    var hz := Parsing.ParseFrequency(frequency, toFloat);
    var ohms := PiFilter.ParseImpedance(impedance, toFloat);
    if hz.Ok? && hz.value > 0.0 && ohms.Ok? && ohms.value > 0.0 && ripple > 0.0 {
      PiDesignShape(hz.value, ohms.value, ripple, components, lib);
      OrderKeptIffOddInRange(components);
    }
  }
}
