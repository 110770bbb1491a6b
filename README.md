# Training-load analytics, modelled in Dafny

This project models the analytics core of the `activity-analyser` crate, a
cycling training-load tool. The model covers:

- the typed measurements and their truncating integer averages;
- the athlete's FTP / FTHr timeline and its "value in force on a date" lookup;
- the sliding-window peak finder;
- the per-activity metrics: total work, Normalized Power (NP), intensity
  factor (IF), variability index (VI), power TSS, heart-rate TSS, altitude
  gain and loss, peak performances, and which results `from_activity`
  produces;
- the daily series: same-day TSS is merged, gaps are filled, and the
  CTL / ATL / TSB recurrence is run.

Dates are integer day numbers. Timestamps are opaque integers. Durations are
whole seconds in the i64 range. f64 values are exact reals, plus the
infinities and NaN that a division by zero produces.

Modules, one per source file:

| file | module | source |
|---|---|---|
| `prelude.dfy` | `Prelude` | Option, Ordering, i64 truncating division, iterator sums |
| `floats.dfy` | `Floats` | the f64 operations IF, VI and TSS use, and `as i64` |
| `measurements.dfy` | `Measurements` | `src/measurements.rs` |
| `athlete.dfy` | `Athlete` | `src/athlete.rs` |
| `peaks.dfy` | `Peaks` | `src/peak.rs` |
| `metrics.dfy` | `Metrics` | `src/metrics.rs` |
| `activity_analysis.dfy` | `ActivityAnalysis` | `src/activity_analysis.rs` |
| `daily_stats.dfy` | `DailyStatistics` | `src/daily_stats.rs` |

`src/activity_analysis.rs` repeats most of `src/metrics.rs`: NP, rolling
averages, total work, altitude changes, hrTSS, IF, VI and TSS. Each of these
is modelled once. `src/daily_stats.rs` also repeats the training-load step of
`src/metrics.rs` (`calc_training_load` and `calc_ctl` / `calc_atl` /
`calc_tsb`), and `DailyStatistics` reuses the `Metrics` definitions for it.

The model's form follows the source's:
- **`MeasurementRecords::new`** sorts a slice in place. `Athlete.New` is a
  stable insertion sort on an `array`, specified by the functional
  `SortByDate`. The struct's field is private and only `new` builds it, so
  `Athlete.MeasurementRecords` is a subset type whose records are always in
  date order.
- **The hrTSS counter fold** is `Metrics.CalculateHrTss`, a loop over an
  array of ten counters.
- **`sort_and_fill_daily_tss`** mutates a map and pushes onto a vector. It is
  modelled by the methods `AccumulateByDate`, `FillGaps` and `PushGapDays`.
  The map's in-order iteration takes the least remaining key each time.
- **`calc_rolling_daily_stats`** runs a `scan` whose closure never writes
  its state. `CalcRollingDailyStats` is a loop that computes every day from
  that unchanged state. The corrected driver `RollingIntended` carries each
  day's stats into the next day.
- **The other operations** are pure, and are modelled as functions with
  lemmas.

The code's own constants give an ATL of about 13.31 after one day at TSS 100
from zero (`Metrics.FirstDayFromZero`).

## Model

| member | source | states |
|---|---|---|
| Prelude.TruncDiv | src/measurements.rs:18 | i64 division truncates toward zero: for a positive divisor the quotient's multiple lies within one divisor below (non-negative dividend) or above (negative dividend); equals floor division for non-negative operands |
| Prelude.TruncDivUnique | src/measurements.rs:18 | any integer in the truncation window is the truncated quotient |
| Prelude.SumBounds | src/measurements.rs:18 | the iterator sum of terms in [lo, hi] lies in [n*lo, n*hi] |
| Prelude.SumConstant | src/measurements.rs:18 | the sum of n copies of c is n*c |
| Floats.ToI64 | src/metrics.rs:25 | `f64 as i64` truncates toward zero, saturates at the i64 bounds and maps NaN to 0 |
| Floats.Div | src/metrics.rs:135-143 | f64 division of finites is the real quotient; a finite over +0.0 is an infinity of its sign, or NaN for 0/0 |
| Measurements.Average | src/measurements.rs:10-23 | None exactly for an empty slice; otherwise the sum over the length truncated toward zero (window bounds for either sign of the sum) |
| Measurements.AveragePower | src/measurements.rs:35-48 | None iff empty; the i64 average of the watts |
| Measurements.AverageHeartRate | src/measurements.rs:76-89 | None iff empty; the i64 average of the bpm values |
| Measurements.AverageConstant | src/measurements.rs:10-23 | the average of identical values is that value |
| Measurements.AverageBounds | src/measurements.rs:10-23 | the average of values in [lo, hi] lies in [lo, hi] |
| Measurements.AveragePowerConstant | src/measurements.rs:35-48 | constant power averages to itself |
| Measurements.AverageNonNegative | src/measurements.rs:10-23 | non-negative samples have a non-negative average, equal to the floor division of their sum by their count |
| Measurements.WorkFromPower | src/measurements.rs:60-64 | the Power to Work conversion keeps the inner value |
| Measurements.AltitudeDiffFrom | src/measurements.rs:146-150 | the Altitude to AltitudeDiff conversion keeps the inner value |
| Athlete.GetFtp | src/athlete.rs:47-52 | Some exactly for the FTP variant, carrying its value |
| Athlete.GetFthr | src/athlete.rs:54-59 | Some exactly for the FTHr variant, carrying its value |
| Athlete.New | src/athlete.rs:8-15 | the slice is rearranged in place into SortByDate of its old contents and the records hold it |
| Athlete.InsertInPlace | src/athlete.rs:13 | one insertion step of the in-place stable sort: the prefix becomes the stable insertion of the next record, the rest is untouched |
| Athlete.SortByDateSorted | src/athlete.rs:13 | the records come out in ascending date order |
| Athlete.SortByDatePermutes | src/athlete.rs:13 | the sorted records are a permutation of the input |
| Athlete.SortByDateStable | src/athlete.rs:13 | records sharing a date keep their input order |
| Athlete.SortByDateKeepsSorted | src/athlete.rs:13 | already sorted records are unchanged |
| Athlete.InsertPos | src/athlete.rs:13 | a stable insertion goes after every record dated on or before it and before every later one |
| Athlete.Latest | src/athlete.rs:25-36 | reference lookup: None iff no record of the kind is dated on or before the date, else the value of the last such record |
| Athlete.GetActualIsLatest | src/athlete.rs:25-36 | on date-sorted records, filter_map / take_while / last returns exactly the last record of the kind dated on or before the date |
| Athlete.OtherKindsIgnored | src/athlete.rs:32 | records of other kinds do not affect the lookup |
| Athlete.GetActualFtp | src/athlete.rs:17-19 | the FTP in force is the last FTP record dated on or before the date (the records are sorted by construction) |
| Athlete.GetActualFthr | src/athlete.rs:21-23 | the FTHr in force is the last FTHr record dated on or before the date |
| Athlete.NoFtpBeforeFirstRecord | src/athlete.rs:17-19 | with no FTP record on or before the date the FTP is None |
| Athlete.LatestFtpAfterLastRecord | src/athlete.rs:17-19 | on or after the latest FTP record's date the FTP is that record's value |
| Athlete.FindFtpExample | src/athlete.rs:66-86 | FTPs 200/210/220 on 2022-07-08/08-08/09-08, queried on 2022-09-01, give 210 |
| Peaks.PeakCmp | src/peak.rs:14-30 | peaks are ordered by value alone |
| Peaks.PeakEq | src/peak.rs:32-39 | peaks are equal exactly when their values are |
| Peaks.PeakOrderIgnoresTimestamps | src/peak.rs:14-41 | timestamps and duration never change a comparison |
| Peaks.WindowLength | src/peak.rs:54 | `num_seconds() as usize`: the duration itself, or at least 2^63 for a negative one |
| Peaks.GetPeak | src/peak.rs:62-75 | None iff the window is empty; otherwise the window's average with its first and last timestamps and the requested duration |
| Peaks.MaxBy | src/peak.rs:58 | `max_by` keeps one of the two peaks, at least as large as both, and the later one on a tie |
| Peaks.IterMax | src/peak.rs:58 | None iff empty; otherwise a peak no smaller than every other, the last of the maximal ones |
| Peaks.PeakExistsIffLongEnough | src/peak.rs:50-59 | a peak exists exactly when the series holds one full window |
| Peaks.FromMeasurementRecords | src/peak.rs:50-59 | a peak only comes from a series holding a full window, and carries the requested duration |
| Peaks.NegativeDurationHasNoPeak | src/peak.rs:54 | a negative duration wraps to a huge window, so there is no peak |
| Peaks.PeakIsLatestBestWindow | src/peak.rs:50-75 | the peak is the average of a window of exactly n samples, at least every window's average, carries that window's timestamps and the requested duration, and every later window is strictly smaller |
| Peaks.ConstantSeriesPeak | src/peak.rs:50-75 | a constant series peaks at the constant, in its last window |
| Metrics.CalcIntensityFactor | src/metrics.rs:135-143 | IF is NP/FTP as a real for a non-zero FTP and not finite for FTP 0 |
| Metrics.CalcVariabilityIndex | src/metrics.rs:149-157 | VI is NP/average power for a non-zero average and not finite otherwise |
| Metrics.IntensityFactorAtThreshold | src/metrics.rs:135-143 | IF is exactly 1 iff NP equals a non-zero FTP |
| Metrics.TssClosedForm | src/metrics.rs:16-26 | for a non-zero FTP, TSS is the truncation of 100 * d * NP^2 / (3600 * FTP^2) |
| Metrics.TssOneHourAtThreshold | src/metrics.rs:263-267 | one hour at NP = FTP scores 100 |
| Metrics.TssNinetyMinutesAtThreshold | src/metrics.rs:269-273 | ninety minutes at NP = FTP scores 150 |
| Metrics.TssFourHoursAtHalfThreshold | src/metrics.rs:275-279 | four hours at NP = FTP / 2 scores 100 |
| Metrics.TssCalculate | src/metrics.rs:16-26 | with FTP 0 the f64 chain ends in an infinity (the cast saturates to the i64 bound of the duration's sign) or NaN (the cast gives 0, when the duration or NP is 0); every other FTP is covered by TssClosedForm |
| Metrics.ZoneThresholds | src/metrics.rs:31-41 | nine boundaries with FTHr itself as the seventh |
| Metrics.Zone | src/metrics.rs:43-69 | a sample's zone is the first boundary it is strictly below, or the tenth |
| Metrics.ZoneUnique | src/metrics.rs:43-69 | that zone is the only index with this property |
| Metrics.ZoneCountsPartition | src/metrics.rs:43-69 | the ten counters add up to the number of samples |
| Metrics.ZoneCountsWeighted | src/metrics.rs:71-81 | the weighted counter sum is the sum of each sample's own zone weight |
| Metrics.HrTssOf | src/metrics.rs:28-82 | hrTSS is the sum of each sample's zone weight over 3600, and lies between 20 and 120 points per 3600 samples (0 for no samples) |
| Metrics.CalculateHrTss | src/metrics.rs:29-82 | the counting loop over ten counters computes HrTssOf |
| Metrics.ExpNegInverse | src/metrics.rs:93-94 | the decay factor e^(-1/k) lies strictly between 0 and 1 |
| Metrics.CalcTrainingLoad | src/metrics.rs:86-97 | with equal decay and impact constants the new load lies between yesterday's load and today's TSS |
| Metrics.TrainingLoadRises | src/metrics.rs:86-97 | below today's TSS the load strictly rises |
| Metrics.CtlCalculate | src/metrics.rs:103-108 | CTL (42-day constant) moves from yesterday's value toward today's TSS without overshooting |
| Metrics.AtlCalculate | src/metrics.rs:114-119 | ATL (7-day constant) moves from yesterday's value toward today's TSS without overshooting |
| Metrics.TrainingLoadFixedPoint | src/metrics.rs:86-97 | a load equal to today's TSS stays there |
| Metrics.TrainingLoadRestDecays | src/metrics.rs:93-96 | a zero-TSS day keeps a non-negative load within [0, yesterday], strictly below when positive |
| Metrics.TsbCalculate | src/metrics.rs:125-129 | TSB is CTL minus ATL |
| Metrics.FirstDayFromZero | src/metrics.rs:103-129 | one 100-TSS day from zero gives CTL about 2.353, ATL about 13.31, TSB about -10.96 |
| ActivityAnalysis.CalcTotalWork | src/activity_analysis.rs:122-125 | total work is the sum of the power values, Work(0) when empty |
| ActivityAnalysis.ConstantEffortTotalWork | src/activity_analysis.rs:369-373 | a hundred samples at 260 W give Work(26000) |
| ActivityAnalysis.RollingAverages | src/activity_analysis.rs:161-170 | len - k + 1 averages when k <= len, none otherwise |
| ActivityAnalysis.RollingAverageWindow | src/activity_analysis.rs:161-170 | the i-th value is the truncated average of data[i..i+k] and lies within the samples' bounds |
| ActivityAnalysis.Root4 | src/activity_analysis.rs:141 | the floor fourth root (Pow4(r) <= x < Pow4(r+1)), and 0 for a negative input |
| ActivityAnalysis.Root4OfPow4 | src/activity_analysis.rs:141 | the fourth root of c^4 is c |
| ActivityAnalysis.CalcNormalizedPower | src/activity_analysis.rs:128-132 | below 30 samples NP is the plain average |
| ActivityAnalysis.NormalizedPowerExists | src/activity_analysis.rs:128-143 | NP exists exactly when there is power data |
| ActivityAnalysis.NormalizedPowerBetween | src/activity_analysis.rs:133-142 | with 30 or more samples NP lies between any non-negative bounds of the samples |
| ActivityAnalysis.ConstantEffortNormalizedPower | src/activity_analysis.rs:128-143 | NP of constant non-negative power is that power |
| ActivityAnalysis.ConstantEffortExamples | src/activity_analysis.rs:326-349 | 3600 and 4 samples at 200 W have NP 200 |
| ActivityAnalysis.CalcAltitudeChanges | src/activity_analysis.rs:242-275 | the fold of `AltitudeStep` over the samples (`AltitudeFold`) yields as gain the sum of strict rises (None if there is none) and as loss the total drop over the other steps (None if every step rises) |
| ActivityAnalysis.AltitudeGainSpec | src/activity_analysis.rs:255-261 | the fold's gain is the reference rise total, None without a rise |
| ActivityAnalysis.AltitudeLossSpec | src/activity_analysis.rs:262-269 | the fold's loss is the reference drop total, a level step giving Some(0) |
| ActivityAnalysis.AltitudeChangesShort | src/activity_analysis.rs:242-275 | fewer than two samples give (None, None) |
| ActivityAnalysis.AltitudeChangesClimb | src/activity_analysis.rs:242-275 | a strictly climbing series gains last - first and has no loss |
| ActivityAnalysis.RisesFallsNonNegative | src/activity_analysis.rs:242-275 | gain and loss totals are never negative |
| ActivityAnalysis.MaxPower | src/activity_analysis.rs:61 | None iff no samples; otherwise a sample at least as large as all |
| ActivityAnalysis.MaxHeartRate | src/activity_analysis.rs:64 | None iff no samples; otherwise a sample at least as large as all |
| ActivityAnalysis.GetOne | src/activity_analysis.rs:301-317 | a requested duration is a key iff its peak exists, mapped to that peak |
| ActivityAnalysis.GetOneKeys | src/activity_analysis.rs:301-317 | a duration is a key iff requested and the series holds a full window of it |
| ActivityAnalysis.ActualFtp | src/activity_analysis.rs:37 | no start date gives no FTP; otherwise the last FTP record dated on or before it |
| ActivityAnalysis.ActualFthr | src/activity_analysis.rs:38 | no start date gives no FTHr; otherwise the last FTHr record dated on or before it |
| ActivityAnalysis.FromActivity | src/activity_analysis.rs:31-119 | TSS iff FTP, duration and power; IF iff FTP and power; VI, NP, average and maximum iff power; hrTSS iff FTHr; average heart rate iff heart-rate samples; total work is the power sum |
| ActivityAnalysis.FromActivityValues | src/activity_analysis.rs:36-38 | hrTSS and TSS are computed from the latest FTHr and FTP records dated on or before the start date |
| ActivityAnalysis.NoDateNoThresholdMetrics | src/activity_analysis.rs:36-38 | without a start date there is no TSS, IF or hrTSS |
| DailyStatistics.CalcDailyStats | src/daily_stats.rs:59-73 | today's date and TSS are copied and TSB is CTL minus ATL |
| DailyStatistics.DailyStatsBetween | src/daily_stats.rs:32-53 | CTL and ATL each move from yesterday's value toward today's TSS without overshooting |
| DailyStatistics.DailyStatsSteady | src/daily_stats.rs:32-57 | loads already equal to today's TSS stay, with zero balance |
| DailyStatistics.AccumulateByDate | src/daily_stats.rs:134-143 | the map's keys are the input dates, each holding the total TSS of that date |
| DailyStatistics.PushGapDays | src/daily_stats.rs:150-155 | zero-TSS days are pushed for every day up to the next date, keeping the list consecutive |
| DailyStatistics.FillGaps | src/daily_stats.rs:144-161 | the output is consecutive, starts and ends on map keys, spans every key, and holds each key's TSS (0 on gaps) |
| DailyStatistics.SortAndFillDailyTss | src/daily_stats.rs:132-164 | empty iff the input is; consecutive dates from the earliest to the latest input date; each day carries the summed TSS of its date |
| DailyStatistics.FilledCoversRange | src/daily_stats.rs:132-164 | every date from min to max appears exactly once at its offset, and the length is max - min + 1 |
| DailyStatistics.FilledMergesSameDate | src/daily_stats.rs:137-143 | the entries of a date merge into one output entry carrying their sum |
| DailyStatistics.FilledKeepsTotal | src/daily_stats.rs:153-155 | the total TSS is conserved |
| DailyStatistics.MinimumExists | src/daily_stats.rs:144 | a non-empty key set has a least key, the next one the ordered map yields |
| DailyStatistics.CalcRollingDailyStats | src/daily_stats.rs:78-129 | the filter, the scan from the never-updated initial state through the kept and extension days, and skip(1) compute RollingAsWritten |
| DailyStatistics.FilterAfter | src/daily_stats.rs:82-92 | the filter loop computes KeepAfter |
| DailyStatistics.KeepAfterSpec | src/daily_stats.rs:84-90 | with a last known day exactly the later entries are kept; with none, nothing |
| DailyStatistics.ScanFromInitSteps | src/daily_stats.rs:114-126 | every day the scan yields is computed from the initial state, since the closure never writes its state |
| DailyStatistics.RollingNoneIsEmpty | src/daily_stats.rs:84-96 | with no last known day the result is empty |
| DailyStatistics.RollingAsWritten | src/daily_stats.rs:78-129 | with kept days, one result fewer than kept plus extension days; result i carries day i + 1's date and TSS and is computed from the starting state, not from result i - 1 |
| DailyStatistics.RollingTail | src/daily_stats.rs:100 | extension days follow the last real day consecutively with TSS 0 |
| DailyStatistics.RollingDropsOnlyDay | src/daily_stats.rs:127 | a single day after the last known one yields nothing |
| DailyStatistics.RollingForgetsHistory | src/daily_stats.rs:118-126 | the loads never build up: two results with the same TSS have the same CTL, ATL and TSB |
| DailyStatistics.RollingRepeatsFirstDay | src/daily_stats.rs:118-126 | three 100-TSS days after a zero-load day give two results that both carry the first-day CTL of about 2.353 |
| DailyStatistics.RollingIntendedShape | src/daily_stats.rs:78-129 | the corrected driver yields one result per kept and extension day, the first from the starting state and each later one from the result before it, and keeps every day when there is no last known day |
| DailyStatistics.RollingIntendedKeepsOnlyDay | src/daily_stats.rs:78-129 | the corrected driver returns that single day's stats |
| DailyStatistics.RollingIntendedAccumulates | src/daily_stats.rs:118-126 | with the state carried over, the same three days keep all three results and CTL rises from day to day (above 4.65 on the second) |

## Left out

- Speed (averages, maxima, peaks): `Speed` is an f64 with only a partial order. `get_one` needs `Ord`, so the speed branch cannot be instantiated as written.
- `TryFrom<Value>` conversions in `src/measurements.rs`, and FIT decoding in `src/activity.rs`. These are foreign record types. An activity is given as an optional start date, an optional duration, and sample sequences.
- `src/main.rs`: the command line, table printing, file reading and the clock. It also calls `SortedDailyTSS::from_unsorted` and `DailyStats::calc_rolling`, which `src/daily_stats.rs` does not define.
- The start time to date conversion (`naive_utc`) is not modelled. The start date is given as a day number.
- i64 overflow is not modelled: sums, `pow(4)` in NP, the weighted hrTSS sum, and the date arithmetic. Integers are unbounded.
- f64 rounding is not modelled. IF, VI and TSS use exact reals, so a result within rounding error of an integer may truncate differently in f64. Negative zero is not modelled.
- Metrics.CalcTrainingLoad: `exp(-1/k)` is replaced by its (2,2) Padé approximant. It lies strictly between 0 and 1 and agrees with the exponential to within 1e-7 for k = 7 and k = 42. Proven values such as `FirstDayFromZero` are stated as intervals.
- ActivityAnalysis.Root4: `powf(0.25) as i64` is the exact floor fourth root. f64 `powf` may land just below an exact root and truncate one lower.
- DailyStatistics.CalcRollingDailyStats: the `(1..)` extension and its convergence test never terminate. The convergence test at src/daily_stats.rs:120-124 has an empty body. The model takes `extraDays` extension days, so it says nothing about convergence.
- Peaks.NegativeDurationHasNoPeak: proved only for series shorter than 2^63 - 1 samples.
- Peak durations are whole seconds. A sub-second duration truncates to zero seconds, and `windows(0)` panics on it. The model's `requires` excludes a zero duration.
- The activity tests that read `tests/fixtures/Activity.fit` (file input).
- The `constant_effort_total_work` test (src/activity_analysis.rs:369-373) expects 26.0, but `Work` is an i64 sum. `ConstantEffortTotalWork` proves the code's value, 26000.
- Sorting algorithm: `sort_by` is a merge sort, and the model uses an insertion sort. A stable sort's result is unique, and `SortByDate` specifies that result.

## Findings

| source | as written | input that shows it | evidently intended | confidence | as-written member | corrected member |
|---|---|---|---|---|---|---|
| src/daily_stats.rs:84-96 | without a last known day the filter keeps nothing, so the result is always empty | `calc_rolling_daily_stats(None, [(d, 100)])` returns an empty vector | start from zero loads on the day before the first entry, as the `None` branch at lines 104-110 prepares | medium, not executed | DailyStatistics.RollingNoneIsEmpty | DailyStatistics.RollingIntendedShape |
| src/daily_stats.rs:127 | `skip(1)` drops the first computed day, since `scan` does not emit its initial state | last known day D, one entry on D + 1, no extension days: the result is empty | every day after the last known one gets its stats | medium, not executed | DailyStatistics.RollingDropsOnlyDay | DailyStatistics.RollingIntendedKeepsOnlyDay |
| src/daily_stats.rs:118-126 | the `scan` closure reads its state but never writes it, so every day is computed from the initial stats and CTL and ATL never build up | last known day D with zero loads, entries (D + 1, 100), (D + 2, 100), (D + 3, 100), no extension days: both results have CTL about 2.353 | store each day's stats as the state for the next day, so that the loads accumulate | high, not executed | DailyStatistics.RollingRepeatsFirstDay | DailyStatistics.RollingIntendedAccumulates |
