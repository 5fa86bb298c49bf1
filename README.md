# Passive LC low-pass filter calculator — a Dafny model

The modelled system designs passive LC low-pass filters in the Pi topology: shunt
capacitors at the odd positions and series inductors at the even ones. It takes a
cutoff frequency, a characteristic impedance, a number of components and, for
Chebyshev designs, a passband ripple in dB. It returns the component values and the
filter order.

The model covers the shared library `lowpass_lib`:

- the Butterworth and Chebyshev element calculators;
- the Butterworth, Chebyshev and Bessel magnitude responses and their conversion to dB;
- the log-spaced frequency grid of the response plot and its -3 dB crossing search;
- the parsers for frequency and impedance texts;
- the choice of display unit;
- matching ideal values to the E12/E24/E96 standard series, including the
  two-component parallel search.

It also covers the three command-line calculators:

- `pi-lowpass-filter.py`, a Butterworth or Chebyshev design with component counts 2..9;
- `butterworth-pi-lowpass-filter.py`, which clamps the count to 1..11;
- `chebyshev-pi-lowpass-filter.py`, which clamps the count to 1..11 and raises an even
  count to the next odd one.

Each script validates its inputs and computes a design. Printing it is not modelled.

Modules:

- `Errors`: the Python exceptions, as `Result` error cases.
- `Elementary`: real arithmetic helpers. It also defines the `Lib` record of
  transcendental routines (sin, sinh, exp, ln, log10, sqrt, 10**x) and the laws that
  lemmas may assume about them.
- `Text`: the string operations the parsers use (`strip`, `lower`, `upper`, `replace`,
  `endswith`).
- `ESeries`, `Transfer`, `Calculations`, `Parsing`, `Formatting`, `Plotting`: one module
  per library file.
- `PiFilter`, `ButterworthPi`, `ChebyshevPi`: one module per script.

Most loops in the source are methods with loop invariants. Each such method is proved
against a specification, and the properties are stated on that specification:

- the in-place Chebyshev tables (`Calculations.PrototypeTables`) use `array`s;
- the g-value recurrence (`Calculations.Recurrence`) and the denormalisation loops;
- the element loop of the Butterworth calculator;
- the E-series scan (`ESeries.ScanNearest`) and the candidate append loop
  (`ESeries.ScaledValues`);
- the Chebyshev polynomial recurrence and the Bessel polynomial sums;
- the unit-selection loop of `_format_with_units`;
- the frequency grid and the -3 dB crossing search of the plot.

Each of these is proved equal to a specification function, with two exceptions:

- The parallel-pair search (`ESeries.PairSearch`) is proved against the predicate
  `ESeries.FirstBestPair`, which says the pair is the first of the least error.
- The unit-suffix loops of the parsers (lowpass_lib/parsing.py:31-34 and 60-62,
  pi-lowpass-filter.py:167-170 and 180-182) return at the first matching suffix. They
  are modelled as recursion over the suffix list (`Parsing.ReadUnit`,
  `Text.FirstSuffixFrom`).

`float()` is the parameter `toFloat: string -> Option<real>`. A text it rejects becomes
a `ValueError` (`NotANumber`).

The docstring of `parse_impedance` (lowpass_lib/parsing.py:46) promises Unicode omega
support. The code at lowpass_lib/parsing.py:57 replaces only the ASCII word "omega". The
model follows the code. For every text whose stripped, lower-cased form ends in an omega,
`PiFilter.LibraryIgnoresOmegaSuffix` shows that the library finds no unit and hands the
whole text to float(). `PiFilter.ScriptReadsOmegaSuffixAsOhm` shows that the script reads
the same text as ending in "ohm" and always finds a unit. As an instance,
`PiFilter.GreekOmegaDivergesFromLibrary` shows that the script accepts "50Ω" while the
library rejects it.

## Model

| member | source | states |
|---|---|---|
| ESeries.E12WellFormed | lowpass_lib/eseries.py:15 | E12 has 12 values, each in [1, 10), strictly increasing, starting at 1.0 and ending at 8.2 |
| ESeries.E24WellFormed | lowpass_lib/eseries.py:17-20 | E24 has 24 values, each in [1, 10), strictly increasing, ending at 9.1 |
| ESeries.E96WellFormed | lowpass_lib/eseries.py:22-31 | E96 has 96 values, each in [1, 10), strictly increasing, ending at 9.76 |
| ESeries.SeriesValues | lowpass_lib/eseries.py:51-56 | a series is found exactly when the upper-cased name is E12, E24 or E96, and is then well formed; otherwise UnknownSeries |
| ESeries.SeriesNameIgnoresCase | lowpass_lib/eseries.py:53 | "e24" selects E24; "E6" is unknown |
| ESeries.NormalizeToDecade | lowpass_lib/eseries.py:59-81 | fails exactly for a non-positive value; otherwise mantissa × 10^exponent reproduces the value and the mantissa is positive |
| ESeries.NormalizeInDecade | lowpass_lib/eseries.py:73-79 | given a correct decade floor, the mantissa is in [1, 10) and 10^e ≤ value < 10^(e+1), which covers the rounding fix-up |
| ESeries.NormalizeStandard | lowpass_lib/eseries.py:59-81 | normalising x × 10^k with 1 ≤ x < 10 returns exactly (x, k) |
| ESeries.NearestInIsFirstNearest | lowpass_lib/eseries.py:100-107 | the index the scan settles on is nearest to the mantissa among the first n values, and every value before it is strictly farther |
| ESeries.ScanMayStop | lowpass_lib/eseries.py:108-110 | in a sorted series, once a value above the mantissa is farther than the best so far, no later value is nearer: the early exit is sound |
| ESeries.ScanNearest | lowpass_lib/eseries.py:100-110 | over a series sorted entry by entry, the early-exit scan returns the first nearest series value |
| ESeries.SnapIsNearest | lowpass_lib/eseries.py:100-124 | the snapped mantissa is nearest among the series, the previous decade's last value and 10.0; it moves up a decade exactly when 10.0 is chosen |
| ESeries.SnapMantissa | lowpass_lib/eseries.py:100-123 | the scan with both decade-wrap checks returns the snapped mantissa, and says whether the upward wrap was taken |
| ESeries.Closest | lowpass_lib/eseries.py:84-129 | corrected find_closest: succeeds exactly for a positive value and a known series; otherwise NonPositiveValue or UnknownSeries |
| ESeries.ClosestAsWritten | lowpass_lib/eseries.py:121-124 | find_closest as written, which lowers the exponent after choosing 10.0; it fails exactly when Closest does |
| ESeries.FindClosestAsWritten | lowpass_lib/eseries.py:84-129 | the loop-and-branch implementation, lowering the exponent after the upward wrap, equals ClosestAsWritten |
| ESeries.FindClosest | lowpass_lib/eseries.py:84-129 | the same implementation with the exponent kept equals the corrected Closest |
| ESeries.ClosestMatched | lowpass_lib/eseries.py:126 | the matched value is the snapped mantissa scaled by the value's own decade |
| ESeries.SnappedIsStandard | lowpass_lib/eseries.py:114-126 | the snapped value, scaled, is a series value times a power of ten |
| ESeries.ClosestIsNearestStandardValue | lowpass_lib/eseries.py:84-129 | the match is a standard value, and no candidate in the searched neighbourhood of the value's decade is closer to the value |
| ESeries.ClosestOfStandardValue | lowpass_lib/eseries.py:84-129 | a value that already is standard matches itself with 0 % error |
| ESeries.DownwardWrapUnreachable | lowpass_lib/eseries.py:112-118 | the downward decade wrap never fires, because the normalised mantissa is at least the table's first entry 1.0; the snapped mantissa is therefore a table entry or 10.0 |
| ESeries.UpwardWrapMantissa | lowpass_lib/eseries.py:122 | the upward decade wrap happens only for mantissas above 9.1 |
| ESeries.UpwardWrapAsWritten | lowpass_lib/eseries.py:121-124 | whenever the upward wrap fires, the as-written match is a tenth of the corrected one; its error is below -89 %, while the corrected error is in (0, 10) % |
| ESeries.NoWrapAsWrittenAgrees | lowpass_lib/eseries.py:119-127 | when the upward wrap is not taken, find_closest as written and the corrected one return the same result, so the fault is confined to the wrap |
| ESeries.WrapErrors | lowpass_lib/eseries.py:127 | the error percentages of the two candidate matches for a mantissa in (9.1, 10) |
| ESeries.NinePointSevenAsWritten | lowpass_lib/eseries.py:121-124 | 9.7 in E24 is matched to 1.0 as written, and to 10.0 when corrected |
| ESeries.NinePointNineAsWritten | lowpass_lib/eseries.py:121-124 | 9.9 normalises to (9.9, 0); in E24 it is matched to 1.0 as written, and to 10.0 when corrected |
| ESeries.ExactPairForNinePointNine | lowpass_lib/eseries.py:165-181 | 2.4 and 7.5 are admissible E24 candidates of the decade [1, 10) whose sum is 9.9 |
| ESeries.NinePointNineSpuriousPair | lowpass_lib/eseries.py:150-191 | for 9.9 in E24, find_parallel_match as written must offer a pair summing to exactly 9.9, because the single error is near -90 %; on the corrected match (+1.01 %) it must offer none |
| ESeries.Decade | lowpass_lib/eseries.py:169-170 | one decade of scaled candidates, as many as the series has values |
| ESeries.Candidates | lowpass_lib/eseries.py:165-170 | the candidate list holds two decades, twice the series length |
| ESeries.ScaledValues | lowpass_lib/eseries.py:167-170 | the append loop builds exactly the candidate list |
| ESeries.PairSearch | lowpass_lib/eseries.py:159-185 | the nested search returns the first strictly best admissible pair (ratio ≤ 10) beating the single-match error, or none when no pair does |
| ESeries.DecisionIsParallelChoice | lowpass_lib/eseries.py:187-191 | a pair is suggested only if it improves the single error by more than 2 points, and it is then the best pair |
| ESeries.ParallelSearch | lowpass_lib/eseries.py:151-191 | given the single error: no pair when it is within 2 %, else the parallel choice over both decades of candidates |
| ESeries.FindParallelMatch | lowpass_lib/eseries.py:132-191 | as written: fails exactly as find_closest does; otherwise the parallel choice for the error of the as-written single match |
| ESeries.FindParallelMatchCorrected | lowpass_lib/eseries.py:132-191 | the same, starting from the corrected single match |
| ESeries.Assemble | lowpass_lib/eseries.py:208-222 | the record holds the ideal value, the single match and its error, and the upper-cased series; it has both the pair and its error or neither, and the pair can be read back unchanged |
| ESeries.MatchComponent | lowpass_lib/eseries.py:194-222 | as written: fails exactly as find_closest does; the record carries the ideal value, the as-written single match and its error, the upper-cased series, and the parallel choice for that error |
| ESeries.MatchComponentCorrected | lowpass_lib/eseries.py:194-222 | the same record built on the corrected single match |
| Transfer.RowFromSound | lowpass_lib/transfer.py:15-16 | a row checked step by step against a_k = (2n-k)! / (2^(n-k) k! (n-k)!) agrees with that formula |
| Transfer.BesselCoeffsFollowFormula | lowpass_lib/transfer.py:15-25 | every row for orders 2..9 has n+1 entries, each equal to the Bessel coefficient formula |
| Transfer.BesselRowShape | lowpass_lib/transfer.py:16-25 | rows and scale factors exist for orders 2..9; entries are positive; a0 = a1 and the leading coefficient is 1 |
| Transfer.ButterworthSquared | lowpass_lib/transfer.py:47 | \|H\|² lies in (0, 1] |
| Transfer.ButterworthResponse | lowpass_lib/transfer.py:28-48 | fails exactly for a non-positive cutoff or an order below 1, with the source's error in its order |
| Transfer.ButterworthBounded | lowpass_lib/transfer.py:45-48 | the magnitude lies in (0, 1] |
| Transfer.ButterworthAtDcAndCutoff | lowpass_lib/transfer.py:45-48 | magnitude 1 at DC and sqrt(1/2) (-3 dB) at the cutoff |
| Transfer.ButterworthMonotone | lowpass_lib/transfer.py:45-48 | the magnitude never rises with frequency |
| Transfer.ChebyshevPolynomial | lowpass_lib/transfer.py:51-77 | the recurrence loop computes T_n(x) |
| Transfer.ChebyshevAtOne | lowpass_lib/transfer.py:64-77 | T_n(1) = 1 for every n |
| Transfer.ChebyshevGrowth | lowpass_lib/transfer.py:72-75 | for 1 ≤ x ≤ y, the recurrence keeps T values ≥ 1, non-decreasing in n, with a gap that widens |
| Transfer.ChebyshevMonotoneAboveOne | lowpass_lib/transfer.py:51-77 | T_n is ≥ 1 and non-decreasing on [1, ∞) |
| Transfer.ChebyshevSquared | lowpass_lib/transfer.py:110 | \|H\|² lies in (0, 1] |
| Transfer.ChebyshevResponse | lowpass_lib/transfer.py:80-111 | fails exactly for a non-positive cutoff, an order below 1 or a non-positive ripple, checked in that order |
| Transfer.ChebyshevBounded | lowpass_lib/transfer.py:101-111 | the magnitude lies in (0, 1] |
| Transfer.ChebyshevAtCutoff | lowpass_lib/transfer.py:101-111 | at the cutoff \|H\|² × 10^(ripple/10) = 1: the response is down by exactly the ripple |
| Transfer.ChebyshevMonotoneBeyondCutoff | lowpass_lib/transfer.py:101-111 | beyond the cutoff the magnitude never rises with frequency |
| Transfer.BesselSums | lowpass_lib/transfer.py:152-165 | the loop accumulates the alternating even and odd sums |
| Transfer.BesselSumsEvaluatePolynomial | lowpass_lib/transfer.py:146-165 | those sums are the real and imaginary parts of B_n(jw) |
| Transfer.PowerOfJ | lowpass_lib/transfer.py:159-165 | (jw)^k has the sign pattern the loop uses |
| Transfer.BesselMagnitude | lowpass_lib/transfer.py:114-175 | fails exactly for a non-positive cutoff or an order outside 2..9 |
| Transfer.BesselResponse | lowpass_lib/transfer.py:114-175 | the method computes BesselMagnitude |
| Transfer.BesselGainBounded | lowpass_lib/transfer.py:167-175 | the clamped gain lies in (0, 1], including the zero-denominator case |
| Transfer.BesselBounded | lowpass_lib/transfer.py:114-175 | the magnitude lies in (0, 1] |
| Transfer.PartsAtZero | lowpass_lib/transfer.py:152-165 | at w = 0 the sums are (a0, 0) |
| Transfer.BesselGainAtDc | lowpass_lib/transfer.py:167-175 | the gain is 1 when the denominator equals a0 |
| Transfer.BesselAtDc | lowpass_lib/transfer.py:114-175 | the magnitude is 1 at DC |
| Transfer.MagnitudeToDb | lowpass_lib/transfer.py:178-191 | never below -120 dB; exactly -120 for a non-positive magnitude |
| Transfer.MagnitudeToDbOfUnitInterval | lowpass_lib/transfer.py:188-191 | a magnitude in (0, 1] maps into [-120, 0] dB, and 1 maps to 0 dB |
| Transfer.KindOf | lowpass_lib/transfer.py:209-218 | each filter is selected exactly by its lower-cased name or alias |
| Transfer.ResponseOkIffValid | lowpass_lib/transfer.py:194-220 | a selected response succeeds exactly when its parameters are valid |
| Transfer.ResponsesDb | lowpass_lib/transfer.py:220 | on success, one dB value per frequency, each the dB of its response; on failure, the error of the first failing frequency |
| Transfer.FrequencyResponse | lowpass_lib/transfer.py:194-220 | an unknown type fails with UnknownFilterType; otherwise the list comprehension over the selected response |
| Transfer.FrequencyResponseOk | lowpass_lib/transfer.py:194-220 | succeeds exactly for an empty list or valid parameters |
| Calculations.AngleInRange | lowpass_lib/calculations.py:30 | (2i-1)π/(2n) lies in (0, π) for 1 ≤ i ≤ n |
| Calculations.ScaledPositive | lowpass_lib/calculations.py:33-34 | positive g, impedance and ω give positive C and L |
| Calculations.Capacitors | lowpass_lib/calculations.py:36-37 | the odd positions give ceil(m/2) capacitors |
| Calculations.Inductors | lowpass_lib/calculations.py:38-39 | the even positions give floor(m/2) inductors |
| Calculations.SplitIndexes | lowpass_lib/calculations.py:36-39 | capacitor j is C(g at position 2j+1); inductor j is L(g at position 2j+2) |
| Calculations.SplitIsLossless | lowpass_lib/calculations.py:29-41 | every position lands in exactly one list: the counts add up to n and differ by at most one |
| Calculations.ButterworthGs | lowpass_lib/calculations.py:29-31 | one g value per position, none for n < 1 |
| Calculations.CalculateButterworth | lowpass_lib/calculations.py:10-41 | the loop computes ButterworthDesign, with a division by zero exactly when impedance × ω is zero |
| Calculations.ButterworthDesignShape | lowpass_lib/calculations.py:10-41 | the order is n; ceil(n/2) capacitors and floor(n/2) inductors, each from g_i = 2 sin((2i-1)π/2n) |
| Calculations.ButterworthDesignEmpty | lowpass_lib/calculations.py:29 | a count below 1 gives empty lists, never an error |
| Calculations.ButterworthDesignPositive | lowpass_lib/calculations.py:10-41 | for positive inputs every component value is positive |
| Calculations.ChebyshevGnPositive | lowpass_lib/calculations.py:61-66 | a positive ripple gives a defined, positive gn |
| Calculations.ATable | lowpass_lib/calculations.py:68-74 | n+1 entries |
| Calculations.BTable | lowpass_lib/calculations.py:69-76 | n+1 entries |
| Calculations.ChebyshevGs | lowpass_lib/calculations.py:78-80 | k g values, or a ZeroDivision |
| Calculations.ChebyshevGsRecurrence | lowpass_lib/calculations.py:78-80 | g1 = 2a1/gn and g_i = 4a_{i-1}a_i/(b_{i-1}g_{i-1}), with every divisor non-zero |
| Calculations.ChebyshevGsErrorPersists | lowpass_lib/calculations.py:79-80 | once the recurrence divides by zero, every longer run fails the same way |
| Calculations.GStepPositive | lowpass_lib/calculations.py:78-80 | positive inputs keep each recurrence step positive |
| Calculations.ChebyshevGsPositive | lowpass_lib/calculations.py:78-80 | positive tables and gn give a successful recurrence with only positive g values |
| Calculations.PrototypeTables | lowpass_lib/calculations.py:68-76 | the fill loop writes fresh arrays equal to the a and b tables |
| Calculations.Recurrence | lowpass_lib/calculations.py:78-80 | the in-place loop succeeds exactly when the recurrence does, leaving g[1..] equal to it and g[0] as it was |
| Calculations.Denormalize | lowpass_lib/calculations.py:82-89 | ZeroDivision exactly when impedance × ω is zero; otherwise the odd/even split of g[1..] |
| Calculations.CalculateChebyshev | lowpass_lib/calculations.py:44-91 | the method computes ChebyshevDesign, including every math-domain, index and zero-division failure |
| Calculations.ChebyshevDesignShape | lowpass_lib/calculations.py:44-91 | for positive inputs: order n, ceil(n/2) capacitors, floor(n/2) inductors, all positive |
| Parsing.ParseFrequencyCascade | lowpass_lib/parsing.py:26-36 | suffixes are tried GHz, MHz, kHz, Hz, case-insensitively, on the stripped text; the number before the suffix is scaled, and bare numbers are Hz |
| Parsing.KilohertzIsNotHertz | lowpass_lib/parsing.py:29-34 | a kHz text also ends in "hz" but is read as kHz, × 1000 |
| Parsing.ImpedanceSecondReplaceIsIdentity | lowpass_lib/parsing.py:57 | the second replace ("ohm" by "ohm") changes nothing |
| Parsing.ParseImpedanceCascade | lowpass_lib/parsing.py:57-64 | suffixes are tried mohm (× 1e6), kohm (× 1e3), ohm, else a plain number |
| Formatting.FirstUnitFrom | lowpass_lib/formatting.py:10-12 | the first unit from k whose threshold the magnitude reaches, or none reached |
| Formatting.FormatWithUnits | lowpass_lib/formatting.py:8-15 | the loop with early return and the last-unit fallback gives UnitChoice, including the empty-table and zero-threshold failures |
| Formatting.TablesStepByThousand | lowpass_lib/formatting.py:18-36 | the three tables have positive thresholds falling by 1000 per step |
| Formatting.FirstReachedUnitIsShown | lowpass_lib/formatting.py:10-12 | the value is shown divided by the first threshold its magnitude reaches |
| Formatting.FallbackToLastUnit | lowpass_lib/formatting.py:13-15 | below every threshold, the value is shown in the last unit |
| Formatting.SignIsPreserved | lowpass_lib/formatting.py:11-12 | comparison is on \|value\| and the shown number keeps the value's sign |
| Formatting.ScaledIntoRange | lowpass_lib/formatting.py:10-12 | a reached unit other than the first shows a magnitude in [1, 1000) |
| Formatting.Cascade | lowpass_lib/formatting.py:8-15 | a four-unit table is an if-cascade over \|value\| |
| Formatting.FrequencyUnitCascade | lowpass_lib/formatting.py:18-22 | GHz, MHz, kHz, else Hz |
| Formatting.CapacitanceUnitCascade | lowpass_lib/formatting.py:25-29 | mF, uF, nF, else pF |
| Formatting.InductanceUnitCascade | lowpass_lib/formatting.py:32-36 | H, mH, uH, else nH |
| Plotting.FrequencyPoints | lowpass_lib/plotting.py:23-45 | on success, exactly num_points points |
| Plotting.GenerateFrequencyPoints | lowpass_lib/plotting.py:40-45 | the append loop builds the point list |
| Plotting.FrequencyPointsErrors | lowpass_lib/plotting.py:34-37 | fails exactly for a non-positive cutoff, then fewer than 2 points, in that order |
| Plotting.ExponentWalk | lowpass_lib/plotting.py:43 | the exponent starts at -1, ends at 1 and strictly increases |
| Plotting.FrequencyPointsSpanTwoDecades | lowpass_lib/plotting.py:39-45 | the first point is 0.1 fc, the last is 10 fc, and the points strictly increase |
| Plotting.CrossingFrom | lowpass_lib/plotting.py:50-51 | the first index from k where the response goes from ≥ -3 dB to < -3 dB |
| Plotting.Find3dbFrequency | lowpass_lib/plotting.py:48-59 | the loop returns ThreeDbFrequency: none without a crossing, else the log-interpolated frequency |
| Plotting.CrossingRatio | lowpass_lib/plotting.py:53-55 | at a crossing the two responses differ, so the equal-response branch is unreachable; the ratio lies in [0, 1) |
| Plotting.InterpolationBetween | lowpass_lib/plotting.py:57-58 | the interpolated log frequency lies in [log f1, log f2) |
| Plotting.ThreeDbFrequencyBracketed | lowpass_lib/plotting.py:48-59 | no crossing gives none; a crossing between increasing positive frequencies gives a result in [f_i, f_{i+1}) |
| Plotting.FirstCrossingWins | lowpass_lib/plotting.py:50-51 | the first crossing is the one reported |
| PiFilter.CapitalOmegaReplaceIsIdentity | pi-lowpass-filter.py:177 | after lower(), replacing the capital omega changes nothing |
| PiFilter.ParseImpedanceCascade | pi-lowpass-filter.py:175-184 | the script's parser is the suffix cascade over the omega-spelled text |
| PiFilter.LibraryIgnoresOmegaSuffix | lowpass_lib/parsing.py:57-64 | for every text whose stripped, lower-cased form ends in an omega, no unit suffix matches and the library's result is float() of the whole normalised text |
| PiFilter.ScriptReadsOmegaSuffixAsOhm | pi-lowpass-filter.py:177-182 | for the same texts, the script's normalised text ends in "ohm", so one of its unit suffixes always matches |
| PiFilter.LowerOmegaText | pi-lowpass-filter.py:177 | strip() and lower() turn "50Ω" into "50ω" |
| PiFilter.OhmIsTheFirstUnit | pi-lowpass-filter.py:178-182 | "50ohm" ends with neither "mohm" nor "kohm", so "ohm" is the suffix found |
| PiFilter.OmegaIsNoUnit | lowpass_lib/parsing.py:58-62 | "50ω" ends with none of the impedance suffixes |
| PiFilter.OmegaSpelledOhm | pi-lowpass-filter.py:177 | "50Ω" is read as "50ohm" |
| PiFilter.LibraryKeepsOmega | lowpass_lib/parsing.py:57 | the library turns "50Ω" into "50ω", with no "ohm" in it |
| PiFilter.ScriptReadsOmegaAsOhm | pi-lowpass-filter.py:180-182 | the script reads "50Ω" as 50 ohms |
| PiFilter.LibraryFindsNoUnit | lowpass_lib/parsing.py:60-64 | the library passes "50ω" to float() |
| PiFilter.GreekOmegaDivergesFromLibrary | pi-lowpass-filter.py:175-184 | given float("50") = 50 and float("50ω") failing, the script returns 50 Ω and the library a ValueError |
| PiFilter.CapacitanceDisplayMatchesLibrary | pi-lowpass-filter.py:136-145 | for positive values the script's multiply cascade picks the library's unit and number (µ for u) |
| PiFilter.InductanceDisplayMatchesLibrary | pi-lowpass-filter.py:148-157 | for positive values the script's multiply cascade picks the library's unit and number (µ for u) |
| PiFilter.CapacitanceDisplayRange | pi-lowpass-filter.py:136-145 | values from 1 pF to below 1 mF show a number in [1, 1000) |
| PiFilter.InductanceDisplayRange | pi-lowpass-filter.py:148-157 | values from 1 nH to below 1 H show a number in [1, 1000) |
| PiFilter.FinishSucceedsIff | pi-lowpass-filter.py:272-299 | once both texts are read, a design results exactly when both parsed to positive values, the count is in 2..9 and, for Chebyshev, the ripple is positive; the design keeps the count as its order with ceil(n/2) positive capacitors and floor(n/2) positive inductors |
| PiFilter.RunSucceedsIffAccepted | pi-lowpass-filter.py:269-299 | a design results exactly when the frequency is given, both texts parse to positive values, the count is in 2..9 and, for Chebyshev, the ripple is positive; the order is the count and every value is positive |
| PiFilter.ButterworthIgnoresRipple | pi-lowpass-filter.py:289-292 | the ripple has no effect on a Butterworth run, not even a non-positive one |
| ButterworthPi.ClampedOrder | butterworth-pi-lowpass-filter.py:31 | the order is in 1..11, equals the request exactly when that is in range, and otherwise the nearer end |
| ButterworthPi.CalculateButterworthPi | butterworth-pi-lowpass-filter.py:18-53 | the element loop on the clamped order |
| ButterworthPi.PiDesignShape | butterworth-pi-lowpass-filter.py:31-53 | ceil(n/2) capacitors and floor(n/2) inductors for the clamped n, summing to n, each from g_i = 2 sin((2i-1)π/2n) |
| ButterworthPi.RunSucceedsIffPositive | butterworth-pi-lowpass-filter.py:157-178 | a design results exactly when both texts parse to positive values; the count is never rejected; the printed order is the clamped count; all values are positive |
| ChebyshevPi.AdjustedOrder | chebyshev-pi-lowpass-filter.py:35-37 | the order is odd and in 1..11: an in-range odd request is kept, an in-range even one is raised by one, and out-of-range requests go to the nearer end |
| ChebyshevPi.OrderKeptIffOddInRange | chebyshev-pi-lowpass-filter.py:35-37 | the order equals the request exactly when the request is odd and in 1..11 |
| ChebyshevPi.CalculateChebyshevPi | chebyshev-pi-lowpass-filter.py:16-77 | the library Chebyshev calculation on the adjusted order |
| ChebyshevPi.PiDesignShape | chebyshev-pi-lowpass-filter.py:35-77 | one more capacitor than inductors, (n+1)/2 capacitors, n components in all, all positive |
| ChebyshevPi.RunSucceedsIffPositive | chebyshev-pi-lowpass-filter.py:185-214 | a design results exactly when both texts parse to positive values and the ripple is positive; the adjustment notice appears exactly when the request is not odd in 1..11 |

## Left out

- Printing, argparse, `--explain`, `--raw`, exit codes and the ASCII topology diagrams are
  not modelled. Each script's `main` becomes a function from its arguments to a design or
  an error.
- `display_results`, `render_ascii_plot`, `export_response_json`, `export_response_csv`,
  `_format_freq_compact` and `_print_pi_topology_diagram` are not part of this model. They
  only render text.
- Digit formatting (`.4g`, `.2f`) is not modelled. A formatted value is the pair of the
  scaled number and its unit.
- Floating point: every value is an exact real. Rounding, overflow to infinity and
  underflow to zero are not modelled.
- sin, sinh, exp, ln, log10, sqrt and 10**x are parameters, not definitions. Lemmas
  assume only the listed laws (sin positive on (0, π), monotone sqrt, log10 inverse to
  10**x, and so on).
- `float()` is the parameter `toFloat`. Which texts Python accepts is not modelled.
- `Text.Lower` and `Text.Strip` cover ASCII, the Greek omegas, the ohm sign and the
  kelvin sign. Other Unicode case mappings and white space are not modelled.
- The calculators in the three scripts are textual copies of
  `lowpass_lib/calculations.py`. They are modelled by calling the library model after each
  script's own order policy.
- The parsers of butterworth-pi-lowpass-filter.py:80-107 and
  chebyshev-pi-lowpass-filter.py:104-131 are the same text as the ones in
  pi-lowpass-filter.py. They reuse `Parsing.ParseFrequency` and `PiFilter.ParseImpedance`.
  Their display functions differ only in digits (`.4g`), which are out of scope.
- ESeries.MatchComponent: `series` has no default value. The source defaults it to
  'E24' (lowpass_lib/eseries.py:194), and every caller here passes it explicitly.
- Transfer.FrequencyResponse: `ripple` has no default value. The source defaults
  `ripple_db` to 0.5 (lowpass_lib/transfer.py:195). A call that omits it is modelled by
  passing 0.5.
- Plotting.FrequencyPoints: `numPoints` has no default value. The source defaults
  `num_points` to 51 (lowpass_lib/plotting.py:23). A call that omits it is modelled by
  passing 51.
- Transfer.ChebyshevMonotoneBeyondCutoff: monotonicity is stated for f ≥ fc only. In the
  passband the response ripples.
- Plotting.ThreeDbFrequencyBracketed: bracketing is stated for strictly increasing
  positive frequencies, as `generate_frequency_points` produces. Other inputs reach the
  modelled error cases.

## Findings

| source | as written | input that shows it | evidently intended | confidence | as-written member | corrected member |
|---|---|---|---|---|---|---|
| lowpass_lib/eseries.py:121-124 | when the mantissa is closer to 10.0 (the next decade's first value) the code keeps best_match = 10.0 **and** lowers the exponent by one, so the match is a tenth of the intended value | find_closest(9.7, 'E24') gives 1.0, an error of about -89.7 %, instead of 10.0 (+3.1 %). match_component(9.9, 'E24') reports 1.0 (about -89.9 %) and, because that error exceeds 2 %, offers a parallel pair summing to 9.9 (such as 2.4 + 7.5), where 10.0 (+1.01 %) would offer none | keep the exponent: 10.0 × 10^e is already the next decade's first value | not executed | ESeries.ClosestAsWritten (ESeries.FindClosestAsWritten, ESeries.NinePointSevenAsWritten, ESeries.UpwardWrapAsWritten, ESeries.FindParallelMatch, ESeries.MatchComponent, ESeries.NinePointNineSpuriousPair) | ESeries.Closest (ESeries.FindClosest, ESeries.ClosestIsNearestStandardValue, ESeries.FindParallelMatchCorrected, ESeries.MatchComponentCorrected) |
