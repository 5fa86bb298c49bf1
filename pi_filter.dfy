/** pi-lowpass-filter.py: the command-line calculator for Butterworth and
    Chebyshev Pi filters. Its calculate_butterworth, calculate_chebyshev and
    parse_frequency are the library's code line for line and are modelled once,
    in Calculations and Parsing; this module holds the script's own impedance
    parser, its choice of display unit and the checks of main. */
module PiFilter {
  import opened Errors
  import opened Elementary
  import opened Text
  import Parsing
  import Formatting
  import opened Calculations

  const SmallOmega: char := '\U{3C9}'
  const CapitalOmega: char := '\U{3A9}'
  const Micro: char := '\U{B5}'

  // ---------------------------------------------------------------------------
  // parse_impedance

  /** The text parse_impedance matches suffixes against: stripped, lower-cased,
      then both omega letters spelled "ohm". */
  function ImpedanceText(text: string): string
  {
    ReplaceAll(ReplaceAll(Lower(Strip(text)), [SmallOmega], "ohm"), [CapitalOmega], "ohm")
  }

  /** parse_impedance: the number before the first matching unit, times its
      multiplier; without a unit the whole text is the number. */
  function ParseImpedance(text: string, toFloat: string -> Option<real>): Result<real>
  {
    var z := ImpedanceText(text);
    Parsing.ReadUnit(z, z, Parsing.ImpedanceSuffixes, toFloat)
  }

  /** lower() has already turned the capital omega into the small one, so the
      second replacement finds nothing: both letters are read as "ohm" by the
      first. */
  lemma CapitalOmegaReplaceIsIdentity(text: string)
    ensures ImpedanceText(text) == ReplaceAll(Lower(Strip(text)), [SmallOmega], "ohm")
  {
    var lower := Lower(Strip(text));
    LowerHasNoCapitalOmega(Strip(text));
    assert forall i :: 0 <= i < |"ohm"| ==> "ohm"[i] != CapitalOmega;
    ReplaceKeepsAbsent(lower, [SmallOmega], "ohm", CapitalOmega);
    var replaced := ReplaceAll(lower, [SmallOmega], "ohm");
    ReplaceAbsent(replaced, CapitalOmega, "ohm");
  }

  /** The units are tried as mohm (1e6), kohm (1e3), ohm (1), then none. */
  lemma ParseImpedanceCascade(text: string, toFloat: string -> Option<real>)
    ensures var z := ImpedanceText(text);
            ParseImpedance(text, toFloat) ==
              if EndsWith(z, "mohm") then Scaled(toFloat(Parsing.Before(z, 4)), 1e6)
              else if EndsWith(z, "kohm") then Scaled(toFloat(Parsing.Before(z, 4)), 1e3)
              else if EndsWith(z, "ohm") then Scaled(toFloat(Parsing.Before(z, 3)), 1.0)
              else Plain(toFloat(z))
  {
    Parsing.ReadImpedanceCascade(ImpedanceText(text), toFloat);
  }

  /** When the stripped, lower-cased text ends in a small omega (which a capital
      omega or the ohm sign becomes), the library's text still ends in it, so
      no unit matches and the whole text goes to float(). */
  lemma LibraryIgnoresOmegaSuffix(text: string, toFloat: string -> Option<real>)
    requires var w := Lower(Strip(text)); |w| > 0 && w[|w| - 1] == SmallOmega
    ensures Parsing.ParseImpedance(text, toFloat) == Plain(toFloat(Parsing.ImpedanceText(text)))
  {
    var w := Lower(Strip(text));
    ReplaceKeepsLast(w, "omega", "ohm");
    Parsing.ImpedanceSecondReplaceIsIdentity(text);
    var z := Parsing.ImpedanceText(text);
    assert z[|z| - 1] == SmallOmega;
    Parsing.ImpedanceSuffixSearch(z);
  }

  /** For the same texts this script spells the omega "ohm", so some unit of
      its table always matches. */
  lemma ScriptReadsOmegaSuffixAsOhm(text: string)
    requires var w := Lower(Strip(text)); |w| > 0 && w[|w| - 1] == SmallOmega
    ensures EndsWith(ImpedanceText(text), "ohm")
    ensures FirstSuffix(ImpedanceText(text), Parsing.ImpedanceSuffixes).Some?
  {
    CapitalOmegaReplaceIsIdentity(text);
    ReplaceLastChar(Lower(Strip(text)), SmallOmega, "ohm");
    Parsing.ImpedanceSuffixSearch(ImpedanceText(text));
  }

  /** Stripping and lower-casing "50" and a capital omega gives "50" and a small
      omega. */
  lemma LowerOmegaText()
    ensures Lower(Strip("50" + [CapitalOmega])) == "50" + [SmallOmega]
  {
    var text := "50" + [CapitalOmega];
    StripUnpadded(text);
    assert Lower(text) == "50" + [SmallOmega];
  }

  /** The script reads "50" and a capital omega as "50ohm". */
  lemma OmegaSpelledOhm()
    ensures ImpedanceText("50" + [CapitalOmega]) == "50ohm"
  {
    LowerOmegaText();
    CapitalOmegaReplaceIsIdentity("50" + [CapitalOmega]);
    var s := "50" + [SmallOmega];
    assert s[2..] == [SmallOmega];
    assert ReplaceAll([SmallOmega], [SmallOmega], "ohm") == "ohm" + ReplaceAll([], [SmallOmega], "ohm");
    assert ReplaceAll(s[1..], [SmallOmega], "ohm") == "0ohm";
    assert ReplaceAll(s, [SmallOmega], "ohm") == "50ohm";
  }

  /** The library leaves "50" and a small omega as it is. */
  lemma LibraryKeepsOmega()
    ensures Parsing.ImpedanceText("50" + [CapitalOmega]) == "50" + [SmallOmega]
  {
    LowerOmegaText();
    Parsing.ImpedanceSecondReplaceIsIdentity("50" + [CapitalOmega]);
    var s := "50" + [SmallOmega];
    assert |s| < |"omega"|;
  }

  /** "50ohm" ends in "ohm" but in neither "mohm" nor "kohm". */
  lemma OhmIsTheFirstUnit()
    ensures FirstSuffix("50ohm", Parsing.ImpedanceSuffixes) == Some(2)
  {
    var z, t := "50ohm", Parsing.ImpedanceSuffixes;
    assert z[1..] == "0ohm" && z[2..] == "ohm";
    assert !EndsWith(z, t[0].0) && !EndsWith(z, t[1].0) && EndsWith(z, t[2].0);
    assert FirstSuffixFrom(z, t, 2) == Some(2);
    assert FirstSuffixFrom(z, t, 1) == Some(2);
  }

  /** "50" and a small omega ends in no unit. */
  lemma OmegaIsNoUnit()
    ensures FirstSuffix("50" + [SmallOmega], Parsing.ImpedanceSuffixes) == None
  {
    var w, t := "50" + [SmallOmega], Parsing.ImpedanceSuffixes;
    assert !EndsWith(w, t[0].0) && !EndsWith(w, t[1].0);
    assert !EndsWith(w, t[2].0) by { assert w[0] != t[2].0[0]; }
    assert FirstSuffixFrom(w, t, 3) == None;
    assert FirstSuffixFrom(w, t, 2) == None;
    assert FirstSuffixFrom(w, t, 1) == None;
  }

  /** The script reads "50" and a capital omega as float("50") ohms. */
  lemma ScriptReadsOmegaAsOhm(toFloat: string -> Option<real>)
    ensures ParseImpedance("50" + [CapitalOmega], toFloat) == Scaled(toFloat("50"), 1.0)
  {
    OmegaSpelledOhm();
    OhmIsTheFirstUnit();
    var z := "50ohm";
    assert z[..|z| - 3] == "50";
    StripUnpadded("50");
  }

  /** The library finds no unit in "50" and a small omega. */
  lemma LibraryFindsNoUnit(toFloat: string -> Option<real>)
    ensures Parsing.ParseImpedance("50" + [CapitalOmega], toFloat) == Plain(toFloat("50" + [SmallOmega]))
  {
    LibraryKeepsOmega();
    OmegaIsNoUnit();
  }

  /** "50" followed by a capital omega is 50 ohms for this script, while the
      library's parse_impedance, which only translates the ASCII word "omega",
      hands "50" and a small omega to float() and fails. */
  lemma GreekOmegaDivergesFromLibrary(toFloat: string -> Option<real>)
    requires toFloat("50") == Some(50.0)
    requires toFloat("50" + [SmallOmega]) == None
    ensures ParseImpedance("50" + [CapitalOmega], toFloat) == Ok(50.0)
    ensures Parsing.ParseImpedance("50" + [CapitalOmega], toFloat) == Err(NotANumber)
  {
    ScriptReadsOmegaAsOhm(toFloat);
    LibraryFindsNoUnit(toFloat);
  }

  // ---------------------------------------------------------------------------
  // format_capacitance, format_inductance: the unit only

  /** The number and unit format_capacitance shows. */
  function CapacitanceDisplay(farads: real): (real, string)
  {
    if farads >= 1e-3 then (farads * 1e3, "mF")
    else if farads >= 1e-6 then (farads * 1e6, [Micro, 'F'])
    else if farads >= 1e-9 then (farads * 1e9, "nF")
    else (farads * 1e12, "pF")
  }

  /** The number and unit format_inductance shows. */
  function InductanceDisplay(henries: real): (real, string)
  {
    if henries >= 1.0 then (henries, "H")
    else if henries >= 1e-3 then (henries * 1e3, "mH")
    else if henries >= 1e-6 then (henries * 1e6, [Micro, 'H'])
    else (henries * 1e9, "nH")
  }

  /** The library spells the micro prefix as 'u'. */
  function AsciiMicro(unit: string): string
  {
    if |unit| > 0 && unit[0] == Micro then "u" + unit[1..] else unit
  }

  /** For the positive values a design holds, the script picks the same unit and
      shows the same number as lowpass_lib/formatting.py, up to the spelling of
      the micro prefix. */
  lemma CapacitanceDisplayMatchesLibrary(farads: real)
    requires farads > 0.0
    ensures Formatting.FormatCapacitance(farads) ==
            Ok((CapacitanceDisplay(farads).0, AsciiMicro(CapacitanceDisplay(farads).1)))
  {
    Formatting.CapacitanceUnitCascade(farads);
    assert Abs(farads) == farads;
    assert AsciiMicro([Micro, 'F']) == "uF";
    if farads >= 1e-3 {
      assert farads / 1e-3 == farads * 1e3;
    } else if farads >= 1e-6 {
      assert farads / 1e-6 == farads * 1e6;
    } else if farads >= 1e-9 {
      assert farads / 1e-9 == farads * 1e9;
    } else {
      assert farads / 1e-12 == farads * 1e12;
    }
  }

  lemma InductanceDisplayMatchesLibrary(henries: real)
    requires henries > 0.0
    ensures Formatting.FormatInductance(henries) ==
            Ok((InductanceDisplay(henries).0, AsciiMicro(InductanceDisplay(henries).1)))
  {
    Formatting.InductanceUnitCascade(henries);
    assert Abs(henries) == henries;
    assert AsciiMicro([Micro, 'H']) == "uH";
    if henries >= 1.0 {
      assert henries / 1.0 == henries;
    } else if henries >= 1e-3 {
      assert henries / 1e-3 == henries * 1e3;
    } else if henries >= 1e-6 {
      assert henries / 1e-6 == henries * 1e6;
    } else {
      assert henries / 1e-9 == henries * 1e9;
    }
  }

  /** A positive value at or above the smallest unit is shown as a number in
      [1, 1000) unless it reaches the largest unit. */
  lemma CapacitanceDisplayRange(farads: real)
    requires 1e-12 <= farads < 1e-3
    ensures 1.0 <= CapacitanceDisplay(farads).0 < 1000.0
  {
  }

  lemma InductanceDisplayRange(henries: real)
    requires 1e-9 <= henries < 1.0
    ensures 1.0 <= InductanceDisplay(henries).0 < 1000.0
  {
  }

  // ---------------------------------------------------------------------------
  // main

  /** The two choices of --type. */
  datatype Family = ButterworthFamily | ChebyshevFamily

  /** What main computes before displaying it, or the error it stops with:
      a missing frequency, a text float() rejects, then the checks of frequency,
      impedance and component count, and the ripple only for Chebyshev. */
  function Run(family: Family, frequency: Option<string>, impedance: string, ripple: real,
               components: int, toFloat: string -> Option<real>, lib: Lib): Result<Design>
  {
    if frequency.None? || frequency.value == "" then Err(MissingFrequency)
    else
      Finish(family, Parsing.ParseFrequency(frequency.value, toFloat),
             ParseImpedance(impedance, toFloat), ripple, components, lib)
  }

  /** The rest of main once both texts have been read: a parse error stops it,
      the frequency's first. */
  function Finish(family: Family, hz: Result<real>, ohms: Result<real>, ripple: real,
                  components: int, lib: Lib): Result<Design>
  {
    match hz
    case Err(e) => Err(e)
    case Ok(f) =>
      match ohms
      case Err(e) => Err(e)
      case Ok(z) => DesignFor(family, f, z, ripple, components, lib)
  }

  /** The checks main makes once both texts have parsed, then the design. */
  function DesignFor(family: Family, hz: real, ohms: real, ripple: real, components: int,
                     lib: Lib): Result<Design>
  {
    if hz <= 0.0 then Err(FrequencyNotPositive)
    else if ohms <= 0.0 then Err(ImpedanceNotPositive)
    else if components < 2 || components > 9 then Err(ComponentCountOutOfRange)
    else
      match family
      case ButterworthFamily => ButterworthDesign(hz, ohms, components, lib)
      case ChebyshevFamily =>
        if ripple <= 0.0 then Err(NonPositiveRipple)
        else ChebyshevDesign(hz, ohms, ripple, components, lib)
  }

  /** Once read, a design comes out exactly for positive values, a count from
      2 to 9 and, for Chebyshev, a positive ripple. */
  lemma FinishSucceedsIff(family: Family, hz: Result<real>, ohms: Result<real>, ripple: real,
                          components: int, lib: Lib)
    requires SinPositive(lib) && ExpLaws(lib) && LnLaws(lib) && SinhLaws(lib)
    ensures var r := Finish(family, hz, ohms, ripple, components, lib);
      (r.Ok? <==> hz.Ok? && hz.value > 0.0 && ohms.Ok? && ohms.value > 0.0 &&
                  2 <= components <= 9 && (family == ChebyshevFamily ==> ripple > 0.0)) &&
      (r.Ok? ==>
        r.value.order == components &&
        |r.value.capacitors| == (components + 1) / 2 && |r.value.inductors| == components / 2 &&
        (forall j :: 0 <= j < |r.value.capacitors| ==> r.value.capacitors[j] > 0.0) &&
        (forall j :: 0 <= j < |r.value.inductors| ==> r.value.inductors[j] > 0.0))
  {
    if hz.Ok? && ohms.Ok? && hz.value > 0.0 && ohms.value > 0.0 && 2 <= components <= 9 {
      match family
      case ButterworthFamily =>
        ButterworthDesignShape(hz.value, ohms.value, components, lib);
        ButterworthDesignPositive(hz.value, ohms.value, components, lib);
      case ChebyshevFamily =>
        if ripple > 0.0 {
          ChebyshevDesignShape(hz.value, ohms.value, ripple, components, lib);
        }
    }
  }

  /** The inputs main accepts. */
  ghost predicate Accepted(family: Family, frequency: Option<string>, impedance: string,
                           ripple: real, components: int, toFloat: string -> Option<real>)
  {
    frequency.Some? && frequency.value != "" &&
    Parsing.ParseFrequency(frequency.value, toFloat).Ok? &&
    Parsing.ParseFrequency(frequency.value, toFloat).value > 0.0 &&
    ParseImpedance(impedance, toFloat).Ok? && ParseImpedance(impedance, toFloat).value > 0.0 &&
    2 <= components <= 9 &&
    (family == ChebyshevFamily ==> ripple > 0.0)
  }

  /** main computes a design exactly for the accepted inputs; the design keeps the
      requested order, even ones included, with ceil(n/2) positive capacitors and
      floor(n/2) positive inductors. */
  lemma RunSucceedsIffAccepted(family: Family, frequency: Option<string>, impedance: string,
                               ripple: real, components: int,
                               toFloat: string -> Option<real>, lib: Lib)
    requires SinPositive(lib) && ExpLaws(lib) && LnLaws(lib) && SinhLaws(lib)
    ensures var r := Run(family, frequency, impedance, ripple, components, toFloat, lib);
      (r.Ok? <==> Accepted(family, frequency, impedance, ripple, components, toFloat)) &&
      (r.Ok? ==>
        r.value.order == components &&
        |r.value.capacitors| == (components + 1) / 2 && |r.value.inductors| == components / 2 &&
        (forall j :: 0 <= j < |r.value.capacitors| ==> r.value.capacitors[j] > 0.0) &&
        (forall j :: 0 <= j < |r.value.inductors| ==> r.value.inductors[j] > 0.0))
  {
    if frequency.Some? && frequency.value != "" {
      FinishSucceedsIff(family, Parsing.ParseFrequency(frequency.value, toFloat),
                        ParseImpedance(impedance, toFloat), ripple, components, lib);
    }
  }

  /** The ripple is only looked at for Chebyshev. */
  lemma ButterworthIgnoresRipple(frequency: Option<string>, impedance: string, ripple1: real,
                                 ripple2: real, components: int,
                                 toFloat: string -> Option<real>, lib: Lib)
    ensures Run(ButterworthFamily, frequency, impedance, ripple1, components, toFloat, lib) ==
            Run(ButterworthFamily, frequency, impedance, ripple2, components, toFloat, lib)
  {
  }
}
