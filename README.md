# Chandra thermal anomaly analysis and count-conversion helpers, in Dafny

This project models the rule-bearing core of two analysis notebooks for the
Chandra spacecraft's thermal telemetry:

- `2023_044_safe_mode_anomaly_max_temps.py` studies the 2023:044 safe-mode
  anomaly. It looks up caution/warning limits for each thermal MSID (telemetry
  identifier), masks out samples near spacecraft mode transitions and
  thermal-control outages, and builds two reports:
  - the sensors whose mission maximum, or failing that mission minimum, fell
    inside the anomaly window;
  - the sensors that spent time above their warning-high or caution-high limit
    during the anomaly.
- `Thermal_Count_Conversion_Tool.py` converts between Celsius and Fahrenheit,
  parses plot colours, evaluates the polynomial calibrations of the telemetry
  database, and prepares the point-pair calibration table of one MSID.

Telemetry arrives as plain sequences of reals. Times are in seconds. The
results of remote lookups appear as inputs:
- technical name and unit: an `Option`, None when the lookup raised KeyError;
- mission safety limits: a `SafetyLookup`;
- glimmon limits: an `Option`;
- violation spans: a `SpanFinder` function parameter.

Python exceptions that abort a cell appear as `Result.Err`. A per-sensor loop
becomes a method that walks the sensor records with local accumulators. That
method is proved equal to a fold (`Run` of `Step`), and the report invariants
are proved about that fold.

Modules, one file each:
- `Wrappers`: `Option`/`Result`.
- `Telemetry`: series records, name and unit fallbacks.
- `MaskedSeries`: numpy boolean indexing and the first-occurrence argmax/argmin.
- `ExclusionFilters`: the padded dead zones and the glitch gate.
- `SafetyLimits`: `get_warning_low`/`get_warning_high` and the limit-source fallback.
- `MsidList`: cleaning the MSID column.
- `AnomalyExtrema`: the max/min loop.
- `LimitViolations`: the violation loop.
- `Temperature`, `HexColor`, `PolyCalibration`, `PointPair`: the conversion tool's helpers.

Behaviour the code has, perhaps unintentionally, is modelled as written. A lemma exhibits each case except the first, which needs none:

- Lines 207 and 414 call `filter_bad(copy=True)` as a bare statement. The
  filtered copy it returns is discarded, so both loops take their maxima,
  minima and limit comparisons over the unfiltered series, bad-quality
  samples included. The model's series are therefore the unfiltered
  `fetch_eng.Msid` data; any series is admitted as input.

- Lines 302-303 and 314-315 take `argmax`/`argmin` on the masked array but
  read the time from the unmasked `times` array. The recorded time can then
  belong to a sample the mask excluded.
  - `AnomalyExtrema.TimeOfMaxReadsUnmaskedTimes` gives a two-sample instance.
  - `MaskedSeries.TimeOfMaskedMax` is the indexing of lines 528-529 (masked
    times at the masked argmax), for comparison.
- Min-table rows put the caution-high and warning-high limits under the
  "Caution Low" and "Warning Low" columns (lines 200 and 327):
  `AnomalyExtrema.MinRowHoldsHighLimits`.
- `calc_poly` with degree 1 returns `COEF0 + COEF1` and ignores the counts
  (lines 208-209): `PolyCalibration.DegreeOneIgnoresCounts`.

The caution report compares each sensor with `current_caution_high`
(lines 512-513) and stores that limit in the caution rows (line 543).

## Model

| member | source | states |
|---|---|---|
| Telemetry.TechnicalName | 2023_044_safe_mode_anomaly_max_temps.py:209-214 | A failed technical-name lookup gives "Not in TDB"; otherwise the name itself |
| Telemetry.Units | 2023_044_safe_mode_anomaly_max_temps.py:217-222 | A failed unit lookup gives "None Found"; otherwise the unit itself |
| MaskedSeries.Select | 2023_044_safe_mode_anomaly_max_temps.py:296 | `xs[mask]` has one element per true mask entry |
| MaskedSeries.KeptIndex | 2023_044_safe_mode_anomaly_max_temps.py:296 | The k-th kept sample sits at a position the mask keeps, at or after k |
| MaskedSeries.SelectAt | 2023_044_safe_mode_anomaly_max_temps.py:296 | The k-th element of `xs[mask]` is the element at the k-th kept position |
| MaskedSeries.KeptRankInverse | 2023_044_safe_mode_anomaly_max_temps.py:296 | Every kept sample appears in `xs[mask]`, at its rank among the kept samples |
| MaskedSeries.KeptIndexIncreasing | 2023_044_safe_mode_anomaly_max_temps.py:296 | Boolean indexing keeps the samples' relative order |
| MaskedSeries.SelectAllTrue | 2023_044_safe_mode_anomaly_max_temps.py:296 | A mask that keeps everything returns the whole array |
| MaskedSeries.CountTrueZero | 2023_044_safe_mode_anomaly_max_temps.py:296-301 | The masked array is empty (so `max` raises ValueError) exactly when no entry is kept |
| MaskedSeries.ArgMax | 2023_044_safe_mode_anomaly_max_temps.py:302 | `np.argmax`: a position of a largest value, and the first such |
| MaskedSeries.ArgMin | 2023_044_safe_mode_anomaly_max_temps.py:314 | `np.argmin`: a position of a smallest value, and the first such |
| MaskedSeries.MaskedMaxIsMaxOfKept | 2023_044_safe_mode_anomaly_max_temps.py:296-297 | The max of the masked maxes bounds every kept sample and equals one of them |
| MaskedSeries.MaskedMinIsMinOfKept | 2023_044_safe_mode_anomaly_max_temps.py:310-311 | The min of the masked mins bounds every kept sample and equals one of them |
| MaskedSeries.TimeOfMaskedMax | 2023_044_safe_mode_anomaly_max_temps.py:525-529 | The masked time at the masked argmax is the time of the first kept sample whose value is the masked maximum: every earlier kept sample is strictly lower |
| MaskedSeries.FirstKeptMax | 2023_044_safe_mode_anomaly_max_temps.py:296-303 | `argmax` of the kept values is the rank, among kept samples, of the first kept sample reaching the maximum |
| MaskedSeries.FirstKeptMin | 2023_044_safe_mode_anomaly_max_temps.py:310-315 | `argmin` of the kept values is the rank, among kept samples, of the first kept sample reaching the minimum |
| ExclusionFilters.EventMask | 2023_044_safe_mode_anomaly_max_temps.py:262-272 | A sample is dropped by a transition filter exactly when `e - pad <= t <= e + pad` (closed dead zone) |
| ExclusionFilters.WindowMask | 2023_044_safe_mode_anomaly_max_temps.py:280-286 | A sample is dropped by an outage filter exactly when `start - pad2 <= t <= stop + pad2` |
| ExclusionFilters.TransitionMaskAt | 2023_044_safe_mode_anomaly_max_temps.py:273-277 | The transition filters keep a sample iff it lies outside every padded transition |
| ExclusionFilters.OutageMaskAt | 2023_044_safe_mode_anomaly_max_temps.py:287-289 | The outage filters keep a sample iff it lies outside every padded outage window |
| ExclusionFilters.GlitchMask | 2023_044_safe_mode_anomaly_max_temps.py:278 | One flag per sample; a sample is dropped exactly when its value is 250 or more |
| ExclusionFilters.CombinedMaskIsConjunction | 2023_044_safe_mode_anomaly_max_temps.py:291 | `good_ind_all` has one entry per sample and keeps it iff it passes every transition filter, the `vals < 250` gate and every outage filter |
| ExclusionFilters.CombinedKeepsSubsetOfEachFilter | 2023_044_safe_mode_anomaly_max_temps.py:291 | The kept set of the combined mask lies inside the kept set of each single filter |
| ExclusionFilters.EmptyScheduleKeepsAllButGlitches | 2023_044_safe_mode_anomaly_max_temps.py:278-291 | With no events, only the glitch gate removes samples |
| SafetyLimits.GetWarningLow | 2023_044_safe_mode_anomaly_max_temps.py:75-86 | None iff no row has the MSID; otherwise WARNING_LOW of the first row that does |
| SafetyLimits.GetWarningHigh | 2023_044_safe_mode_anomaly_max_temps.py:89-100 | None iff no row has the MSID; otherwise WARNING_HIGH of the first row that does |
| SafetyLimits.ResolveLimits | 2023_044_safe_mode_anomaly_max_temps.py:226-255 | Truthy mission limits give the last entry of each history (IndexError on an empty one); a raised lookup gives glimmon's limits, or ±9999 when glimmon fails; falsy limits keep the previous sensor's limits (NameError before any) |
| SafetyLimits.PreviousLimitsMatterOnlyWhenFalsy | 2023_044_safe_mode_anomaly_max_temps.py:232-255 | The carried-over limits affect the result only when the mission lookup is falsy |
| MsidList.Strip | 2023_044_safe_mode_anomaly_max_temps.py:158 | `strip()` returns the infix left after removing leading and trailing whitespace, and it has no whitespace at either edge |
| MsidList.StripIdempotent | 2023_044_safe_mode_anomaly_max_temps.py:158 | Stripping twice is stripping once |
| MsidList.ContainsInInfix | 2023_044_safe_mode_anomaly_max_temps.py:158 | A substring of an infix is a substring of the whole string |
| MsidList.StripKeepsNoneFree | 2023_044_safe_mode_anomaly_max_temps.py:158 | Stripping a value without "None" cannot produce one with "None" |
| MsidList.CleanMsidList | 2023_044_safe_mode_anomaly_max_temps.py:156-158 | The list holds the stripped form of every entry without "None", and nothing else |
| MsidList.CleanMsidListOfOne | 2023_044_safe_mode_anomaly_max_temps.py:158 | One entry gives the empty list if it contains "None", else the one stripped entry |
| MsidList.CleanMsidListAppend | 2023_044_safe_mode_anomaly_max_temps.py:156-158 | Cleaning a concatenation is the concatenation of the cleaned parts, so the list is exactly the kept stripped entries in input order |
| MsidList.CleanMsidsAreStrippedAndNoneFree | 2023_044_safe_mode_anomaly_max_temps.py:156-158 | Every cleaned MSID is free of "None" and of surrounding whitespace |
| AnomalyExtrema.MaskedExtrema | 2023_044_safe_mode_anomaly_max_temps.py:294-316 | None exactly when the mask keeps nothing; otherwise max_t and min_t are the max and min over the kept samples, and time_of_max (time_of_min) is the unmasked time at the kept rank of the first kept sample reaching the max (min) |
| AnomalyExtrema.Place | 2023_044_safe_mode_anomaly_max_temps.py:319-330 | Max table iff the max time is strictly inside the window; min table iff the max test failed and the min time is strictly inside |
| AnomalyExtrema.Step | 2023_044_safe_mode_anomaly_max_temps.py:204-330 | An exception from the limit lookups aborts the loop with that error; otherwise the resolved limits are carried on and both tables keep their earlier rows |
| AnomalyExtrema.StepAppendsRowIffInWindow | 2023_044_safe_mode_anomaly_max_temps.py:319-330 | A max row (and the MSID on the max list) is appended exactly when the max time is strictly inside the window; otherwise a min row exactly when the min time is; otherwise neither table changes |
| AnomalyExtrema.StepPreservesSound | 2023_044_safe_mode_anomaly_max_temps.py:319-327 | One sensor adds at most one row, keeps earlier rows, and keeps the MSID lists aligned with the tables and every row time inside the window |
| AnomalyExtrema.RunSound | 2023_044_safe_mode_anomaly_max_temps.py:204-330 | After any run, each table row passed its strict window test, the MSID lists mirror the tables, and there are at most as many rows as sensors |
| AnomalyExtrema.MinRowHoldsHighLimits | 2023_044_safe_mode_anomaly_max_temps.py:325-327 | A new min row's "Caution Low"/"Warning Low" entries are the caution-high and warning-high limits in force |
| AnomalyExtrema.EmptyMaskSkipsSensor | 2023_044_safe_mode_anomaly_max_temps.py:295-301 | A sensor with no kept sample updates the carried limits and adds no row |
| AnomalyExtrema.TimeOfMaxReadsUnmaskedTimes | 2023_044_safe_mode_anomaly_max_temps.py:302-303 | On a two-sample series the recorded time of max is 0, a masked-out sample, while the masked time of the kept max is 1000 |
| AnomalyExtrema.AnomalyExtremaReport | 2023_044_safe_mode_anomaly_max_temps.py:204-330 | The loop's result is the fold of per-sensor steps; a completed report satisfies the window and alignment invariant, with at most as many rows over both tables as sensors |
| LimitViolations.AboveLimit | 2023_044_safe_mode_anomaly_max_temps.py:504 | One flag per kept value, set exactly when the value exceeds the limit |
| LimitViolations.TotalSeconds | 2023_044_safe_mode_anomaly_max_temps.py:508 | Spans with start <= stop give a non-negative total |
| LimitViolations.Hours | 2023_044_safe_mode_anomaly_max_temps.py:509 | The hours times 3600 are the seconds |
| LimitViolations.Analyze | 2023_044_safe_mode_anomaly_max_temps.py:503-533 | The "Max Temp" value is 9999 when the mask keeps nothing, otherwise the largest kept value, attained by a kept sample |
| LimitViolations.Step | 2023_044_safe_mode_anomaly_max_temps.py:410-545 | An exception from the limit lookups aborts the loop with that error; otherwise the resolved limits are carried on and both tables keep their earlier rows |
| LimitViolations.StepKeepsSound | 2023_044_safe_mode_anomaly_max_temps.py:537-545 | One sensor keeps every row's duration nonzero and adds at most one row to each table |
| LimitViolations.HoursAreSecondsOver3600 | 2023_044_safe_mode_anomaly_max_temps.py:509 | `t * (1/60) * (1/60)` is t / 3600, nonzero iff t is |
| LimitViolations.TotalSecondsAppend | 2023_044_safe_mode_anomaly_max_temps.py:508 | The total duration of concatenated span lists is the sum of their totals |
| LimitViolations.TotalSecondsOfOrderedSpans | 2023_044_safe_mode_anomaly_max_temps.py:508 | Spans with start <= stop total a non-negative duration, zero iff every span is empty |
| LimitViolations.MaxTemp | 2023_044_safe_mode_anomaly_max_temps.py:523-533 | 9999 when the mask keeps nothing; otherwise the largest kept value, attained by a kept sample |
| LimitViolations.StepAppendsRowIffNonzero | 2023_044_safe_mode_anomaly_max_temps.py:503-545 | The carried limits are the resolved ones. Exactly the row [MSID, technical name, Max Temp, units, warning-high, hours of the warning total] is appended iff that total is nonzero, else nothing; independently the same holds for the caution table with the caution-high limit |
| LimitViolations.RunSound | 2023_044_safe_mode_anomaly_max_temps.py:410-545 | After any run, every row reports a nonzero duration and each table has at most as many rows as sensors |
| LimitViolations.LimitViolationReport | 2023_044_safe_mode_anomaly_max_temps.py:410-545 | The loop's result is the fold of per-sensor steps; a completed report has only nonzero durations and at most as many rows as sensors in each table |
| Temperature.CtoF | Thermal_Count_Conversion_Tool.py:39-43 | An array maps element-wise to `c * 1.8 + 32` with its length kept; a scalar maps by the same formula |
| Temperature.FtoC | Thermal_Count_Conversion_Tool.py:46-50 | An array maps element-wise to `(f - 32) / 1.8` with its length kept; a scalar maps by the same formula |
| Temperature.CtoFThenFtoC | Thermal_Count_Conversion_Tool.py:39-50 | `FtoC(CtoF(x)) == x` for scalars and arrays |
| Temperature.FtoCThenCtoF | Thermal_Count_Conversion_Tool.py:39-50 | `CtoF(FtoC(x)) == x` for scalars and arrays |
| Temperature.MinusFortyIsFixed | Thermal_Count_Conversion_Tool.py:39-43 | -40 is the one temperature that `CtoF` leaves unchanged |
| Temperature.CtoFStrictlyIncreasing | Thermal_Count_Conversion_Tool.py:39-43 | `CtoF` preserves strict order in both directions |
| HexColor.LStripHash | Thermal_Count_Conversion_Tool.py:155 | `lstrip("#")` drops exactly the leading '#' run: a suffix, preceded only by '#', not starting with '#' |
| HexColor.ParseHex | Thermal_Count_Conversion_Tool.py:157 | `int(s, 16)` succeeds iff s is a nonempty string of hex digits, and the value has at most \|s\| hex digits |
| HexColor.ParseHexFront | Thermal_Count_Conversion_Tool.py:157 | The value is the first digit times 16^(\|s\|-1) plus the value of the rest: positional base-16 read from the front |
| HexColor.ParseAllFailsIffSomeChunkFails | Thermal_Count_Conversion_Tool.py:157 | Parsing the chunks fails exactly when some chunk is not hexadecimal |
| HexColor.Chunks | Thermal_Count_Conversion_Tool.py:157 | The slices for `range(0, hlen, w)` are nonempty, all of width w but the last, and concatenate back to the string |
| HexColor.ChunkCount | Thermal_Count_Conversion_Tool.py:156-157 | There are ceil(hlen / w) chunks |
| HexColor.ParseAll | Thermal_Count_Conversion_Tool.py:157 | Every chunk parsed in order, or failure exactly when some chunk does not parse |
| HexColor.HexToRgba | Thermal_Count_Conversion_Tool.py:154-160 | Fewer than three characters after the '#'s iff ValueError from a zero step; otherwise one channel per chunk, followed by the opacity |
| HexColor.HexToRgbaChannels | Thermal_Count_Conversion_Tool.py:154-160 | Channel k is `int(chunk k, 16)`, and the call fails with ValueError from `int` exactly when some chunk is not hexadecimal |
| HexColor.PairValue | Thermal_Count_Conversion_Tool.py:157 | A pair of hex digits has the value 16*high+low, which is below 256 |
| HexColor.SixDigitsGiveBytes | Thermal_Count_Conversion_Tool.py:154-160 | Six hex digits give three channels, each the PairValue 16*high+low of its digit pair, then the opacity |
| HexColor.ThreeDigitsAreNotDoubled | Thermal_Count_Conversion_Tool.py:154-160 | Three hex digits give their three digit values in 0..15, not doubled |
| HexColor.FormatThenParse | Thermal_Count_Conversion_Tool.py:154-160 | Parsing "#rrggbb" written from three bytes gives back those bytes and the opacity |
| PolyCalibration.BranchPolyIsPolySum | Thermal_Count_Conversion_Tool.py:211-233 | Each written-out branch for degrees 2..9 equals the sum of COEFi * counts^i for i in 0..deg |
| PolyCalibration.CalcPoly | Thermal_Count_Conversion_Tool.py:203-238 | Degree 0 gives COEF0 and degree 1 gives COEF0 + COEF1, whatever the counts; degrees 2..9 give the polynomial of each count, keeping the shape; any other degree iff UnboundLocalError |
| PolyCalibration.DegreeOneIgnoresCounts | Thermal_Count_Conversion_Tool.py:208-209 | With COEF1 nonzero and a count other than 1, the degree-1 result differs from COEF0 + COEF1 * count |
| PolyCalibration.FindDegree | Thermal_Count_Conversion_Tool.py:263-266 | None iff no row has the MSID; otherwise the DEG of the last row that does |
| PolyCalibration.ConvertToTemp | Thermal_Count_Conversion_Tool.py:246-273 | No matching row gives an unbound `deg`; otherwise `calc_poly` at the last matching row's degree |
| PointPair.RowsForExact | Thermal_Count_Conversion_Tool.py:334-345 | The filtered rows all have the MSID, and each matching row occurs as often as in the table |
| PointPair.RowsForAppend | Thermal_Count_Conversion_Tool.py:334-345 | Filtering keeps table order: filtering a concatenation concatenates the filtered parts |
| PointPair.SelectMsidRows | Thermal_Count_Conversion_Tool.py:334-345 | The row-appending loop yields exactly the rows of the MSID, in table order |
| PointPair.SortBySequence | Thermal_Count_Conversion_Tool.py:347-348 | The sorted rows have non-decreasing SEQUENCE_NUM and are a permutation of the input |
| PointPair.PointPairTable | Thermal_Count_Conversion_Tool.py:331-348 | The sorted per-MSID table is ordered by SEQUENCE_NUM and holds exactly the MSID's rows, each as often as in the table |

## Left out

- Telemetry and file I/O are not modelled: `maude_query`, `ska_query`, `fetch_eng.Msid`, `requests`, `read_csv` and `to_csv`. Their results are inputs.
- The `data_num` and `data_anomaly` caches only hold fetched data. The model passes each sensor's series directly.
- The pylimmon lookups are not modelled; their outcomes are inputs:
  - `get_mission_safety_limits`: raised, falsy, or the limit histories;
  - `get_latest_glimmon_limits`: None models the TypeError.
- `find_violation_time_spans` is foreign code. It is a function parameter, and no span rule is assumed of it.
- Calendar conversions are foreign: `CxoTime`, `Chandra.Time.DateTime` and `secs2date`. Event times and window bounds are given in seconds, and row times stay in seconds.
- `np.interp` in `point_pair` is foreign and not modelled; the model stops at the sorted table.
- The numeric-MSID filter (2023_044_safe_mode_anomaly_max_temps.py:167-178) depends on numpy's `float32` type tag, which has no counterpart over reals.
- Plotting and display are not modelled: the plot-data builders, `plot_object`, `time_axis_format`, `iplot` and `display(HTML(...))`.
- The None-substitution cell (2023_044_safe_mode_anomaly_max_temps.py:351-356) is not modelled. Because `and` short-circuits, it reads the `Warning High` column, which the min table lacks, only for a row whose `Warning Low` is None; such a row raises KeyError. Otherwise the cell changes nothing.
- The HRMA count-range cell (Thermal_Count_Conversion_Tool.py:463-474) is not modelled: it uses an undefined `maude_data2`.
- Floating point is not modelled. Temperatures, times and coefficients are reals, so the Celsius/Fahrenheit round trips hold exactly, and NaN values in the tables are not represented.
- SafetyLimits.Limits: the limit values the lookups return are assumed numeric. A None limit (which the None-substitution cell tests for) is not represented; in the first loop it would be stored in a row, and in the second loop line 504 would compare the values with None.
- SafetyLimits.ResolveLimits: in the first loop, the falsy branch prints `msid_anom` (line 255), which is bound only after the second loop has run once. The model treats that branch, like the second loop's, as keeping the previous limits.
- HexColor.ParseHex accepts only ASCII hex digits. Python's `int(s, 16)` also accepts a sign, surrounding whitespace, underscores, a `0x` prefix and non-ASCII Unicode decimal digits.
- PolyCalibration.CalcPoly takes `coef` as the ten COEF values of one calibration row.
  - Degrees 4..9 of the source multiply whole `COEF4`..`COEF9` columns rather than their first entry (`ska_data.tdb.Tpc` is not part of this model, so whether `[0]` is positional or label-based is not known). The source agrees with the model only for a single-row calibration set and, under pandas semantics, a single count.
  - Raw counts are a scalar or an array of reals.
- PolyCalibration.CalcPoly computes over unbounded reals. When the fetched counts are integers, numpy evaluates `counts**i` in int64, which wraps silently past 2^63 (for 8-bit counts from degree 8 on); the model does not reproduce that wrap.
- PointPair.SortBySequence: pandas' default sort is not stable. The model fixes one admissible order among rows with equal SEQUENCE_NUM and states only what every order shares: sorted, and a permutation.
