/** lowpass_lib/parsing.py: frequency and impedance text with an optional unit
    suffix. float() is the opaque partial function `toFloat`. */
module Parsing {
  import opened Errors
  import opened Text

  /** Tried in this order; the first suffix the lower-cased text ends with wins. */
  const FrequencySuffixes: seq<(string, real)> :=
    [("ghz", 1e9), ("mhz", 1e6), ("khz", 1e3), ("hz", 1.0)]

  /** The dict {'mohm': 1e6, 'kohm': 1e3, 'ohm': 1}, in insertion order. */
  const ImpedanceSuffixes: seq<(string, real)> :=
    [("mohm", 1e6), ("kohm", 1e3), ("ohm", 1.0)]

  /** The number in front of the first unit of the table that `key` ends with,
      scaled by that unit's multiplier; without a unit, the whole text is the
      number. Units are matched against `key`, the number is cut from `text`. */
  function ReadUnit(text: string, key: string, table: seq<(string, real)>,
                    toFloat: string -> Option<real>): Result<real>
    requires |key| == |text|
  {
    match FirstSuffix(key, table)
    case Some(k) => Scaled(toFloat(Before(text, |table[k].0|)), table[k].1)
    case None => Plain(toFloat(text))
  }

  /** parse_frequency: strip, look for a unit suffix case-insensitively, and parse
      the ORIGINAL-case text before it (stripped again) as a number. */
  function ParseFrequency(text: string, toFloat: string -> Option<real>): Result<real>
  {
    var s := Strip(text);
    ReadUnit(s, Lower(s), FrequencySuffixes, toFloat)
  }

  /** The text parse_impedance matches suffixes against: stripped, lower-cased, the
      word "omega" spelled as "ohm", then "ohm" replaced by itself. */
  function ImpedanceText(text: string): string
  {
    ReplaceAll(ReplaceAll(Lower(Strip(text)), "omega", "ohm"), "ohm", "ohm")
  }

  /** parse_impedance: the number before the first matching suffix, taken from the
      already lower-cased text, times that suffix's multiplier. */
  function ParseImpedance(text: string, toFloat: string -> Option<real>): Result<real>
  {
    var z := ImpedanceText(text);
    ReadUnit(z, z, ImpedanceSuffixes, toFloat)
  }

  /** The text in front of a suffix of the given length, stripped. */
  function Before(s: string, n: nat): string
    requires n <= |s|
  {
    Strip(s[..|s| - n])
  }

  /** The frequency suffix table, searched in order. */
  lemma FrequencySuffixSearch(lower: string)
    ensures FirstSuffix(lower, FrequencySuffixes) ==
              if EndsWith(lower, "ghz") then Some(0)
              else if EndsWith(lower, "mhz") then Some(1)
              else if EndsWith(lower, "khz") then Some(2)
              else if EndsWith(lower, "hz") then Some(3)
              else None
  {
    var t := FrequencySuffixes;
    assert t[0].0 == "ghz" && t[1].0 == "mhz" && t[2].0 == "khz" && t[3].0 == "hz";
    assert FirstSuffixFrom(lower, t, 4) == None;
  }

  /** The ordered suffix search is the cascade ghz, mhz, khz, hz, plain number. */
  lemma ParseFrequencyCascade(text: string, toFloat: string -> Option<real>)
    ensures var s := Strip(text);
            var lower := Lower(s);
            ParseFrequency(text, toFloat) ==
              if EndsWith(lower, "ghz") then Scaled(toFloat(Before(s, 3)), 1e9)
              else if EndsWith(lower, "mhz") then Scaled(toFloat(Before(s, 3)), 1e6)
              else if EndsWith(lower, "khz") then Scaled(toFloat(Before(s, 3)), 1e3)
              else if EndsWith(lower, "hz") then Scaled(toFloat(Before(s, 2)), 1.0)
              else Plain(toFloat(s))
  {
    var s := Strip(text);
    ReadFrequencyCascade(s, Lower(s), toFloat);
  }

  /** ReadUnit over the frequency table, for any text and key. */
  lemma ReadFrequencyCascade(s: string, lower: string, toFloat: string -> Option<real>)
    requires |lower| == |s|
    ensures ReadUnit(s, lower, FrequencySuffixes, toFloat) ==
              if EndsWith(lower, "ghz") then Scaled(toFloat(Before(s, 3)), 1e9)
              else if EndsWith(lower, "mhz") then Scaled(toFloat(Before(s, 3)), 1e6)
              else if EndsWith(lower, "khz") then Scaled(toFloat(Before(s, 3)), 1e3)
              else if EndsWith(lower, "hz") then Scaled(toFloat(Before(s, 2)), 1.0)
              else Plain(toFloat(s))
  {
    FrequencySuffixSearch(lower);
  }

  /** Text ending in "khz" also ends in "hz", yet it is read in kilohertz: the
      longer suffixes are tried first. */
  lemma KilohertzIsNotHertz(text: string, toFloat: string -> Option<real>)
    requires EndsWith(Lower(Strip(text)), "khz")
    ensures EndsWith(Lower(Strip(text)), "hz")
    ensures ParseFrequency(text, toFloat) ==
            Scaled(toFloat(Before(Strip(text), 3)), 1000.0)
  {
    var lower := Lower(Strip(text));
    KhzEndings(lower);
    FrequencySuffixSearch(lower);
  }

  /** A text ending in "khz" ends in "hz" and in neither "ghz" nor "mhz". */
  lemma KhzEndings(lower: string)
    requires EndsWith(lower, "khz")
    ensures EndsWith(lower, "hz") && !EndsWith(lower, "ghz") && !EndsWith(lower, "mhz")
  {
    var n := |lower|;
    assert lower[n - 3..] == "khz";
    assert lower[n - 3] == 'k';
    assert lower[n - 2..] == lower[n - 3..][1..];
  }

  /** The second replacement of parse_impedance leaves the text as it was. */
  lemma ImpedanceSecondReplaceIsIdentity(text: string)
    ensures ImpedanceText(text) == ReplaceAll(Lower(Strip(text)), "omega", "ohm")
  {
    ReplaceWithItself(ReplaceAll(Lower(Strip(text)), "omega", "ohm"), "ohm");
  }

  /** The impedance suffix table, searched in order. */
  lemma ImpedanceSuffixSearch(z: string)
    ensures FirstSuffix(z, ImpedanceSuffixes) ==
              if EndsWith(z, "mohm") then Some(0)
              else if EndsWith(z, "kohm") then Some(1)
              else if EndsWith(z, "ohm") then Some(2)
              else None
  {
    var t := ImpedanceSuffixes;
    assert t[0].0 == "mohm" && t[1].0 == "kohm" && t[2].0 == "ohm";
    assert FirstSuffixFrom(z, t, 3) == None;
  }

  /** The ordered suffix search is the cascade mohm, kohm, ohm, plain number. */
  lemma ParseImpedanceCascade(text: string, toFloat: string -> Option<real>)
    ensures var z := ImpedanceText(text);
            ParseImpedance(text, toFloat) ==
              if EndsWith(z, "mohm") then Scaled(toFloat(Before(z, 4)), 1e6)
              else if EndsWith(z, "kohm") then Scaled(toFloat(Before(z, 4)), 1e3)
              else if EndsWith(z, "ohm") then Scaled(toFloat(Before(z, 3)), 1.0)
              else Plain(toFloat(z))
  {
    ReadImpedanceCascade(ImpedanceText(text), toFloat);
  }

  /** ReadUnit over the impedance table, for any text matched against itself. */
  lemma ReadImpedanceCascade(z: string, toFloat: string -> Option<real>)
    ensures ReadUnit(z, z, ImpedanceSuffixes, toFloat) ==
              if EndsWith(z, "mohm") then Scaled(toFloat(Before(z, 4)), 1e6)
              else if EndsWith(z, "kohm") then Scaled(toFloat(Before(z, 4)), 1e3)
              else if EndsWith(z, "ohm") then Scaled(toFloat(Before(z, 3)), 1.0)
              else Plain(toFloat(z))
  {
    ImpedanceSuffixSearch(z);
  }
}
