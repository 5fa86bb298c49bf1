/** lowpass_lib/formatting.py: the choice of display unit for a frequency, a
    capacitance or an inductance. A choice is the scaled number and the unit
    suffix; turning the number into digits (".4g", ".2f") is not modelled. */
module Formatting {
  import opened Errors
  import opened Elementary

  /** (threshold, suffix) pairs, largest unit first. */
  type UnitTable = seq<(real, string)>

  const FrequencyUnits: UnitTable := [(1e9, "GHz"), (1e6, "MHz"), (1e3, "kHz"), (1.0, "Hz")]
  const CapacitanceUnits: UnitTable := [(1e-3, "mF"), (1e-6, "uF"), (1e-9, "nF"), (1e-12, "pF")]
  const InductanceUnits: UnitTable := [(1.0, "H"), (1e-3, "mH"), (1e-6, "uH"), (1e-9, "nH")]

  /** Index of the first unit, from k on, whose threshold the magnitude of the
      value reaches. */
  function FirstUnitFrom(value: real, units: UnitTable, k: nat): (r: Option<nat>)
    requires k <= |units|
    ensures r.Some? ==> k <= r.value < |units| && Abs(value) >= units[r.value].0
    ensures r.Some? ==> forall j :: k <= j < r.value ==> Abs(value) < units[j].0
    ensures r.None? ==> forall j :: k <= j < |units| ==> Abs(value) < units[j].0
    decreases |units| - k
  {
    if k == |units| then None
    else if Abs(value) >= units[k].0 then Some(k)
    else FirstUnitFrom(value, units, k + 1)
  }

  /** The unit the value is shown in: the first one it reaches, else the last. */
  function UnitIndex(value: real, units: UnitTable): (k: nat)
    requires |units| > 0
    ensures k < |units|
  {
    match FirstUnitFrom(value, units, 0)
    case Some(k) => k
    case None => |units| - 1
  }

  /** What _format_with_units shows: the value divided by the chosen unit's
      threshold, and its suffix. An empty table fails at units[-1]. */
  function UnitChoice(value: real, units: UnitTable): Result<(real, string)>
  {
    if |units| == 0 then Err(IndexOutOfRange)
    else
      var unit := units[UnitIndex(value, units)];
      if unit.0 == 0.0 then Err(ZeroDivision) else Ok((value / unit.0, unit.1))
  }

  /** _format_with_units: the search loop with its early return, then the last unit. */
  method FormatWithUnits(value: real, units: UnitTable) returns (r: Result<(real, string)>)
    ensures r == UnitChoice(value, units)
  {
    var k := 0;
    while k < |units|
      invariant 0 <= k <= |units|
      invariant FirstUnitFrom(value, units, 0) == FirstUnitFrom(value, units, k)
    {
      var threshold := units[k].0;
      if Abs(value) >= threshold {
        if threshold == 0.0 {
          return Err(ZeroDivision);
        }
        return Ok((value / threshold, units[k].1));
      }
      k := k + 1;
    }
    if |units| == 0 {
      return Err(IndexOutOfRange);
    }
    var last := units[|units| - 1];
    r := Ok((value / last.0, last.1));
  }

  /** format_frequency, format_capacitance and format_inductance. */
  function FormatFrequency(hz: real): Result<(real, string)> { UnitChoice(hz, FrequencyUnits) }
  function FormatCapacitance(farads: real): Result<(real, string)> { UnitChoice(farads, CapacitanceUnits) }
  function FormatInductance(henries: real): Result<(real, string)> { UnitChoice(henries, InductanceUnits) }

  /** A table whose thresholds are positive and fall by a factor of 1000 per step. */
  ghost predicate ThousandStep(units: UnitTable)
  {
    |units| > 0 &&
    (forall k :: 0 <= k < |units| ==> units[k].0 > 0.0) &&
    (forall k :: 0 <= k < |units| - 1 ==> units[k].0 == 1000.0 * units[k + 1].0)
  }

  /** The three tables of lowpass_lib/formatting.py are of that shape. */
  lemma TablesStepByThousand()
    ensures ThousandStep(FrequencyUnits)
    ensures ThousandStep(CapacitanceUnits)
    ensures ThousandStep(InductanceUnits)
  {
    assert FrequencyUnits[0].0 == 1000.0 * FrequencyUnits[1].0;
  }

  /** With positive thresholds no division fails; the shown unit is the first one
      the magnitude reaches, and every unit before it is out of reach. */
  lemma FirstReachedUnitIsShown(value: real, units: UnitTable, k: nat)
    requires ThousandStep(units)
    requires k < |units| && Abs(value) >= units[k].0
    requires forall j :: 0 <= j < k ==> Abs(value) < units[j].0
    ensures UnitChoice(value, units) == Ok((value / units[k].0, units[k].1))
  {
  }

  /** A value below every threshold is shown in the last unit. */
  lemma FallbackToLastUnit(value: real, units: UnitTable)
    requires ThousandStep(units)
    requires forall j :: 0 <= j < |units| ==> Abs(value) < units[j].0
    ensures UnitChoice(value, units) ==
            Ok((value / units[|units| - 1].0, units[|units| - 1].1))
  {
  }

  /** |v / t| = |v| / t for a positive t. */
  lemma AbsQuotient(v: real, t: real)
    requires t > 0.0
    ensures Abs(v / t) == Abs(v) / t
  {
    if v < 0.0 {
      assert v / t == -((-v) / t);
      QuotientPositive(-v, t);
    } else if v > 0.0 {
      QuotientPositive(v, t);
    }
  }

  /** The comparison uses |value| but the division the signed value: the shown
      number has the sign of the value. */
  lemma SignIsPreserved(value: real, units: UnitTable)
    requires ThousandStep(units)
    ensures UnitChoice(value, units).Ok?
    ensures var s := UnitChoice(value, units).value.0;
            (s < 0.0 <==> value < 0.0) && (s == 0.0 <==> value == 0.0)
  {
    var t := units[UnitIndex(value, units)].0;
    if value < 0.0 {
      QuotientPositive(-value, t);
      assert value / t == -((-value) / t);
    } else if value > 0.0 {
      QuotientPositive(value, t);
    }
  }

  /** A unit that is reached and is not the first one shows a number of
      magnitude in [1, 1000). */
  lemma ScaledIntoRange(value: real, units: UnitTable)
    requires ThousandStep(units)
    requires FirstUnitFrom(value, units, 0).Some? && FirstUnitFrom(value, units, 0).value > 0
    ensures UnitChoice(value, units).Ok?
    ensures 1.0 <= Abs(UnitChoice(value, units).value.0) < 1000.0
  {
    var k := FirstUnitFrom(value, units, 0).value;
    var t := units[k].0;
    assert Abs(value) < units[k - 1].0 == 1000.0 * t;
    AbsQuotient(value, t);
    DivAtLeast(Abs(value), t, 1.0);
    DivBelow(Abs(value), t, 1000.0);
  }

  /** format_capacitance as a cascade over |value|. */
  lemma CapacitanceUnitCascade(farads: real)
    ensures var a := Abs(farads);
            FormatCapacitance(farads) ==
              if a >= 1e-3 then Ok((farads / 1e-3, "mF"))
              else if a >= 1e-6 then Ok((farads / 1e-6, "uF"))
              else if a >= 1e-9 then Ok((farads / 1e-9, "nF"))
              else Ok((farads / 1e-12, "pF"))
  {
    TablesStepByThousand();
    Cascade(farads, CapacitanceUnits);
  }

  /** format_inductance as a cascade over |value|. */
  lemma InductanceUnitCascade(henries: real)
    ensures var a := Abs(henries);
            FormatInductance(henries) ==
              if a >= 1.0 then Ok((henries / 1.0, "H"))
              else if a >= 1e-3 then Ok((henries / 1e-3, "mH"))
              else if a >= 1e-6 then Ok((henries / 1e-6, "uH"))
              else Ok((henries / 1e-9, "nH"))
  {
    TablesStepByThousand();
    Cascade(henries, InductanceUnits);
  }

  /** format_frequency as a cascade over |value|. */
  lemma FrequencyUnitCascade(hz: real)
    ensures var a := Abs(hz);
            FormatFrequency(hz) ==
              if a >= 1e9 then Ok((hz / 1e9, "GHz"))
              else if a >= 1e6 then Ok((hz / 1e6, "MHz"))
              else if a >= 1e3 then Ok((hz / 1e3, "kHz"))
              else Ok((hz / 1.0, "Hz"))
  {
    TablesStepByThousand();
    Cascade(hz, FrequencyUnits);
  }

  /** Any four-unit table of positive thresholds is searched in order. */
  lemma Cascade(value: real, units: UnitTable)
    requires |units| == 4 && ThousandStep(units)
    ensures var a := Abs(value);
            UnitChoice(value, units) ==
              if a >= units[0].0 then Ok((value / units[0].0, units[0].1))
              else if a >= units[1].0 then Ok((value / units[1].0, units[1].1))
              else if a >= units[2].0 then Ok((value / units[2].0, units[2].1))
              else Ok((value / units[3].0, units[3].1))
  {
    var a := Abs(value);
    if a >= units[0].0 {
      FirstReachedUnitIsShown(value, units, 0);
    } else if a >= units[1].0 {
      FirstReachedUnitIsShown(value, units, 1);
    } else if a >= units[2].0 {
      FirstReachedUnitIsShown(value, units, 2);
    } else if a >= units[3].0 {
      FirstReachedUnitIsShown(value, units, 3);
    } else {
      FallbackToLastUnit(value, units);
    }
  }
}
