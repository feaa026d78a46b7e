# Cycle and temperature inference engine, in Dafny

This project models the statistics engine of a period tracker (`backend/api/utils/stats.py`).

The temperature side turns a user's basal-temperature readings into one row per calendar day. It smooths that daily series with two exponentially weighted means (EWMs), a short one and a long "baseline" one. It refuses to interpret series with a long gap. It classifies the user's temperature phase as LEARNING, UNKNOWN, LOW or ELEVATED, updating the user's temperature-state record in place.

The period side sorts the user's periods by start. It computes cycle lengths (days between consecutive starts) and period lengths (whole days from start to end). It masks implausible and outlier cycle lengths and averages the rest with a rounded EWM. It classifies the cycle as LEARNING, STABLE or UNSTABLE, updating the user's cycle record in place.

Joining the two, the engine finds the sustained temperature rise before a period and derives the luteal length from it. It stores that length on the period when valid, averages the stored lengths, and forecasts the next period with a confidence of 0.8, 0.5 or 0.2.

Modelling choices:
- Dates are integer day numbers.
- Temperatures are exact reals.
- Thresholds come from an explicit `Config` record (`config.dfy`).
- The evaluation instant is a parameter `now`.
- The EWM is written out as the dataframe library's own one-pass kernel (`ewm.dfy`). With the default `ignore_na=False`, a missing row of the daily series still ages the earlier rows. The model follows the code here, not the simpler reading in which only present days count as steps.
- The two record updates are methods on classes (`TemperatureState`, `Cycle`) that assign the fields in place and return the same object. Their contracts tie the new fields to specification functions (`PhaseOf`/`NewBaseline`, `Evaluate`/`StateOf`), and the properties of the decision ladders are proved about those functions.
- The luteal scan is a method with a loop and a run counter, like the source (`FirstRun`, over the frame rows of the window).
- The temperature evaluation runs its decision ladder in `ClassifyReadings` and then assigns the record's fields once. The source assigns them inside each branch; the resulting record is the same.

Files:
- `wrappers.dfy`: `Option`.
- `config.dfy`: thresholds.
- `ewm.dfy`: EWM kernel, half-to-even rounding.
- `temperature_series.dfy`: daily frame, EWMs, gap guard.
- `temperature_phase.dfy`: rise detector, temperature-state evaluation.
- `cycle_analysis.dfy`: sorting, lengths, mask, averages.
- `cycle_state.dfy`: cycle-state evaluation.
- `luteal.dfy`: rise scan, luteal length, luteal average.
- `prediction.dfy`: forecast.

## Model

| member | source | states |
|---|---|---|
| Ewm.EwmMean | backend/api/utils/stats.py:33-38 | the EWM series has the input's length and its first row is the first daily value |
| Ewm.EwmLast | backend/api/utils/stats.py:91 | the last value of a series is the last row of its EWM |
| Ewm.EwmMeanWithin | backend/api/utils/stats.py:33-38 | every EWM value lies between any lower and upper bound of the present inputs |
| Ewm.EwmScanWithin | backend/api/utils/stats.py:33-38 | the running mean after any prefix stays within bounds of the inputs (by induction over the rows) |
| Ewm.EwmMeanConstant | backend/api/utils/stats.py:33-38 | a constant series has that constant as its EWM at every present row |
| Ewm.EwmScanPresent | backend/api/utils/stats.py:33-38 | the running mean exists exactly when some row so far has a value |
| Ewm.EwmNoGapRecurrence | backend/api/utils/stats.py:33-38 | on a series without missing rows and adjust=False the kernel is mean := mean + alpha * (v - mean), with unit weight on the past |
| Ewm.EwmStep | backend/api/utils/stats.py:33-38 | one row of the kernel: the running mean exists afterwards iff it existed or the row has a value, and the decayed weight of the past stays non-negative |
| Ewm.EwmScan | backend/api/utils/stats.py:33-38 | the kernel folded over the rows keeps a non-negative past weight; EwmScanPresent and EwmScanWithin state when its mean exists and where it lies |
| Ewm.RoundHalfEven | backend/api/utils/stats.py:165 | the result is within 0.5 of x, and at an exact half it is even |
| Ewm.RoundWithin | backend/api/utils/stats.py:165 | rounding a value between two integers stays between them |
| TemperatureSeries.DayMean | backend/api/utils/stats.py:27 | a day has a mean exactly when some reading falls on it |
| TemperatureSeries.TemperaturesToFrame | backend/api/utils/stats.py:15-30 | one row per calendar day from the first to the last reading; empty iff there are no readings; first and last rows present; a row is present iff a reading falls on its day |
| TemperatureSeries.FrameIgnoresOrder | backend/api/utils/stats.py:27 | the daily frame depends only on the multiset of readings, not on their order |
| TemperatureSeries.SameDayAveraged | backend/api/utils/stats.py:27 | two readings on one day become a single row holding their average |
| TemperatureSeries.SmoothedTemperature | backend/api/utils/stats.py:33-34 | the smoothed series has one value per daily row |
| TemperatureSeries.Baseline | backend/api/utils/stats.py:37-38 | the baseline series has one value per daily row |
| TemperatureSeries.MeansWithinReadings | backend/api/utils/stats.py:33-38 | smoothed and baseline values lie between the lowest and highest reading |
| TemperatureSeries.MeansPresent | backend/api/utils/stats.py:33-38 | every row of both EWMs has a value, because the frame's first row does |
| TemperatureSeries.PresentRows | backend/api/utils/stats.py:44 | the positions kept by dropping missing rows are increasing, present, and include every present row |
| TemperatureSeries.MaxGap | backend/api/utils/stats.py:44-45 | the largest difference between consecutive present days, null with fewer than two of them |
| TemperatureSeries.MaxGapAt | backend/api/utils/stats.py:44-45 | the largest gap is attained: some pair of neighbours is exactly that far apart |
| TemperatureSeries.HasLongGap | backend/api/utils/stats.py:41-45 | never true with fewer than two rows; HasLongGapIff states exactly when it holds |
| TemperatureSeries.HasLongGapIff | backend/api/utils/stats.py:41-45 | a long gap exists iff there are at least two rows and two consecutive present days more than MAX_MISSING_DAYS apart |
| TemperatureSeries.TwoReadingsGap | backend/api/utils/stats.py:41-45 | two readings g >= 1 days apart form a long gap iff g > MAX_MISSING_DAYS |
| TemperaturePhase.SampleVariance | backend/api/utils/stats.py:55 | the sample variance (divisor n - 1) is non-negative |
| TemperaturePhase.DetectElevatedPhase | backend/api/utils/stats.py:48-57 | a rise needs at least ELEVATION_DAYS_REQUIRED smoothed values, and each of the last ones is above baseline + ELEVATION_MIN_DELTA |
| TemperaturePhase.ThresholdIsMaxOfMinDeltaAndStd | backend/api/utils/stats.py:55-57 | the comparison made on squares is exactly "delta > max(ELEVATION_MIN_DELTA, std)" for the non-negative std whose square is the variance |
| TemperaturePhase.ConstantRiseDetected | backend/api/utils/stats.py:48-57 | a smoothed series held at a level more than ELEVATION_MIN_DELTA above the baseline for N days or more is a rise (zero std) |
| TemperaturePhase.TemperatureState.constructor | backend/api/utils/stats.py:71 | a fresh state has the given phase and no baseline or evaluation time |
| TemperaturePhase.SmoothedValues | backend/api/utils/stats.py:83 | the smoothed series of the frame with every row known |
| TemperaturePhase.LastBaseline | backend/api/utils/stats.py:90-91 | the last row of the baseline series |
| TemperaturePhase.PhaseOf | backend/api/utils/stats.py:74-98 | the phase an evaluation assigns; LearningIff, UnknownIff, ElevatedMeansAboveBaseline and PhaseIgnoresOrder state which readings give which phase |
| TemperaturePhase.Ladder | backend/api/utils/stats.py:78-98 | the rungs after the no-readings exit (long gap, too few rows, rise or not); LadderOfFrame ties it to PhaseOf and LadderLearningIff says when it gives LEARNING |
| TemperaturePhase.NewBaseline | backend/api/utils/stats.py:86-93 | the baseline an evaluation stores; BaselineSetIffClassified and BaselineWithinReadings state when it is set and where it lies |
| TemperaturePhase.EvaluateTemperatureState | backend/api/utils/stats.py:60-100 | the previous object is the one updated and returned (or a fresh one); last_evaluated is now; the phase is the ladder's; the baseline is set on the final branch and left as it was on every early exit |
| TemperaturePhase.ClassifyReadings | backend/api/utils/stats.py:74-98 | the decision ladder's phase and stored baseline are those of PhaseOf and NewBaseline |
| TemperaturePhase.LearningIff | backend/api/utils/stats.py:74-88 | LEARNING iff no readings, or no long gap and fewer calendar days spanned than MIN_POINTS_FOR_BASELINE |
| TemperaturePhase.UnknownIff | backend/api/utils/stats.py:79-81 | UNKNOWN iff two consecutive recorded days are more than MAX_MISSING_DAYS apart |
| TemperaturePhase.BaselineSetIffClassified | backend/api/utils/stats.py:86-98 | a baseline is stored iff the phase is LOW or ELEVATED |
| TemperaturePhase.ElevatedMeansAboveBaseline | backend/api/utils/stats.py:93-96 | ELEVATED means each of the last ELEVATION_DAYS_REQUIRED smoothed values exceeds the stored baseline + ELEVATION_MIN_DELTA |
| TemperaturePhase.BaselineWithinReadings | backend/api/utils/stats.py:90-93 | the stored baseline lies between the lowest and highest reading |
| TemperaturePhase.PhaseIgnoresOrder | backend/api/utils/stats.py:27 | phase and baseline depend only on the multiset of readings |
| TemperaturePhase.TwoDistantReadingsUnknown | backend/api/utils/stats.py:79-81 | two readings more than MAX_MISSING_DAYS apart give UNKNOWN, closer ones never do |
| CycleAnalysis.FloorOfDays | backend/api/utils/__init__.py:14-17 | the whole-day part of k days plus less than a day is k |
| CycleAnalysis.SortByStart | backend/api/utils/stats.py:106-116 | the periods frame has one row per period; SortSorted and SortPermutes state that it is ordered by start and holds exactly the given periods |
| CycleAnalysis.SortSorted | backend/api/utils/stats.py:116 | the periods frame is ordered by start day |
| CycleAnalysis.SortPermutes | backend/api/utils/stats.py:116 | the periods frame holds exactly the given periods |
| CycleAnalysis.InsertSorted | backend/api/utils/stats.py:116 | inserting a period into a sorted frame keeps it sorted |
| CycleAnalysis.InsertPermutes | backend/api/utils/stats.py:116 | inserting adds exactly the one period |
| CycleAnalysis.LatestStart | backend/api/utils/stats.py:297 | the latest start day is one of the periods' and no period starts later |
| CycleAnalysis.LastSortedIsLatest | backend/api/utils/stats.py:297 | the last row of the sorted frame starts on the latest start day, whatever the input order |
| CycleAnalysis.CycleLengths | backend/api/utils/stats.py:119-120 | one entry per period, null for the first, otherwise the days since the previous start |
| CycleAnalysis.PeriodLengths | backend/api/utils/stats.py:123-124 | one entry per period, null without an end, otherwise end day minus start day |
| CycleAnalysis.CycleLengthsAreWholeDays | backend/api/utils/stats.py:119-120 | each cycle length is the whole-day part of the difference of the midnight start instants |
| CycleAnalysis.PeriodLengthsAreWholeDays | backend/api/utils/stats.py:123-124 | each period length is the whole-day part of end-of-day minus midnight, so it floors to end day minus start day |
| CycleAnalysis.Plausible | backend/api/utils/stats.py:134-136 | a length is plausible iff it is non-null and within MIN_PLAUSIBLE_CYCLE..MAX_PLAUSIBLE_CYCLE inclusive; ClassifyCycleLengths and FirstCycleInvalid use it |
| CycleAnalysis.RecentLengths | backend/api/utils/stats.py:141 | the last min(CYCLE_EWM_SPAN, count) non-null cycle lengths, as a suffix of the non-null ones in order |
| CycleAnalysis.MaxAllowed | backend/api/utils/stats.py:142-144 | the outlier bound exists iff there are at least three recent lengths; MaxAllowedAtLeast bounds it for regular cycles |
| CycleAnalysis.ClassifyCycleLengths | backend/api/utils/stats.py:127-150 | one flag per length; a length is valid exactly when it is non-null, plausible, and (when the outlier bound exists) not above mean x LONG_GAP_MULTIPLIER of the recent lengths, so an outlier above the bound is always rejected |
| CycleAnalysis.FirstCycleInvalid | backend/api/utils/stats.py:134-136 | the leading null cycle length is never valid |
| CycleAnalysis.MaxAllowedAtLeast | backend/api/utils/stats.py:141-144 | with all lengths equal to c and LONG_GAP_MULTIPLIER >= 1, the outlier bound is at least c |
| CycleAnalysis.RegularCyclesValid | backend/api/utils/stats.py:127-150 | equal plausible lengths are all valid |
| CycleAnalysis.Usable | backend/api/utils/stats.py:158 | the usable lengths come from masked non-null entries, and there are none iff no entry is both |
| CycleAnalysis.UsableInOrder | backend/api/utils/stats.py:158 | nothing masked and non-null is dropped and order is kept: there are as many usable lengths as masked non-null entries, and entry i sits at the position given by the number of such entries before it |
| CycleAnalysis.PositionsIncrease | backend/api/utils/stats.py:158 | a later masked non-null entry lands at a later position among the usable lengths |
| CycleAnalysis.RoundedEwm | backend/api/utils/stats.py:161-167 | the adjust=False EWM of the usable lengths (also the period lengths at lines 179-185), last value, rounded half to even; RoundedEwmWithin keeps it within the lengths' bounds |
| CycleAnalysis.CycleAverage | backend/api/utils/stats.py:153-168 | null iff no cycle length is both valid and non-null |
| CycleAnalysis.PeriodAverage | backend/api/utils/stats.py:171-186 | null iff every period length is null |
| CycleAnalysis.RoundedEwmWithin | backend/api/utils/stats.py:161-167 | the rounded EWM of integer lengths lies between their bounds |
| CycleAnalysis.CycleAverageWithin | backend/api/utils/stats.py:153-168 | the cycle average lies between bounds of the usable lengths, so equal lengths c average to c |
| CycleAnalysis.PeriodAverageWithin | backend/api/utils/stats.py:171-186 | the period average lies between bounds of the known lengths, so equal lengths d average to d |
| CycleStateEval.Cycle.constructor | backend/api/utils/stats.py:194 | a fresh record has the given state and no averages or evaluation time |
| CycleStateEval.CountTrue | backend/api/utils/stats.py:215 | the count of valid flags is at most their number and equals it iff all are valid |
| CycleStateEval.CountTailAll | backend/api/utils/stats.py:214-218 | the last n flags count to n iff all of them are valid |
| CycleStateEval.Evaluate | backend/api/utils/stats.py:193-222 | the verdict over the periods sorted by start, null on the early exit; FewPeriodsLearning, StableIff and RegularPeriodsStable state its outcomes |
| CycleStateEval.EvaluateSorted | backend/api/utils/stats.py:197-209 | the verdict over an already sorted frame; StableIffSorted states when it is STABLE and SortKeepsSorted that sorting first changes nothing |
| CycleStateEval.StateFrom | backend/api/utils/stats.py:211-220 | the final ladder from mask and average; StateFromStableIff states when it is STABLE |
| CycleStateEval.StateOf | backend/api/utils/stats.py:197-220 | the state an evaluation assigns; FewPeriodsLearning, StableIff and StableCyclesPlausible state which periods give which state |
| CycleStateEval.EvaluateCycleState | backend/api/utils/stats.py:189-222 | the previous object is the one updated and returned (or a fresh one); last_evaluated is now; the state is StateOf; the averages are set past the early exit and left as they were on it |
| CycleStateEval.FewPeriodsLearning | backend/api/utils/stats.py:197-199 | MIN_CYCLES_FOR_STABLE periods or fewer take the early exit and are LEARNING |
| CycleStateEval.StableIff | backend/api/utils/stats.py:211-220 | past the exit, STABLE iff the cycle average exists and the last MIN_CYCLES_FOR_STABLE mask entries are all valid; that window starts at index 1 or later, never at the null first entry |
| CycleStateEval.StableIffSorted | backend/api/utils/stats.py:211-220 | the same over an already sorted frame |
| CycleStateEval.StateFromStableIff | backend/api/utils/stats.py:211-220 | the final ladder gives STABLE iff the average exists and the tail is all valid |
| CycleStateEval.StableCyclesPlausible | backend/api/utils/stats.py:211-220 | a STABLE record rests on more than MIN_CYCLES_FOR_STABLE periods whose last MIN_CYCLES_FOR_STABLE cycle lengths are all plausible |
| CycleStateEval.SortKeepsSorted | backend/api/utils/stats.py:116 | sorting periods that are already in start order changes nothing |
| CycleStateEval.RegularPeriodsStable | backend/api/utils/stats.py:189-222 | more than MIN_CYCLES_FOR_STABLE periods, c days apart with c plausible and lasting d days each, are STABLE with averages c and d |
| CycleStateEval.RegularAverages | backend/api/utils/stats.py:201-206 | such periods have every cycle after the first valid, cycle average c and period average d |
| CycleStateEval.RegularCycleLengths | backend/api/utils/stats.py:119-120 | periods c days apart have every cycle length after the first equal to c |
| Luteal.WindowRows | backend/api/utils/stats.py:235-240 | a row is in the scanned window iff its day is from start - MAX_LOOKBACK_DAYS up to, not including, the start day |
| Luteal.RunLengthCovers | backend/api/utils/stats.py:252-265 | the counter before row i reaches n iff the n rows before i are in the window and all elevated |
| Luteal.FirstRunUnique | backend/api/utils/stats.py:252-265 | only one row ends the first qualifying run |
| Luteal.DetectElevatedPhaseStart | backend/api/utils/stats.py:225-266 | null iff no row of the window ends ELEVATION_DAYS_REQUIRED consecutive elevated rows (so null for no readings and for N = 0); otherwise the first day of the first such run, which lies in [start - MAX_LOOKBACK_DAYS, start - N] |
| Luteal.FirstRun | backend/api/utils/stats.py:252-265 | the row scan returns null iff no row of the window ends a run of n elevated rows, and otherwise the row where the first such run ends |
| Luteal.LutealLength | backend/api/utils/stats.py:269-271 | the luteal phase starts the day before the rise and the length counts from there to the period's start day |
| Luteal.LutealLengthRange | backend/api/utils/stats.py:225-271 | a rise found in the window gives a length from ELEVATION_DAYS_REQUIRED + 1 to MAX_LOOKBACK_DAYS + 1 |
| Luteal.IsValidLutealLength | backend/api/utils/stats.py:274-275 | MIN_LUTEAL_DAYS to MAX_LUTEAL_DAYS inclusive; UpdateLutealLength stores a length only when it holds |
| Luteal.FifteenDaysBefore | backend/tests/test_stats.py:725-731 | a rise 15 days before the period gives a 16-day luteal phase |
| Luteal.UpdateLutealLength | backend/api/db/crud/period.py:102-114 | start and end are kept; without a run the period is unchanged; with the first run the length is stored iff it is within MIN_LUTEAL_DAYS..MAX_LUTEAL_DAYS, otherwise the old value stays |
| Luteal.AverageLutealLength | backend/api/utils/stats.py:278-288 | null iff fewer than two rows or no stored length |
| Luteal.AverageLutealWithin | backend/api/utils/stats.py:288 | the luteal average lies between bounds of the stored lengths |
| Luteal.ConsistentLutealAverage | backend/tests/test_stats.py:745-761 | two or more periods all with length c average to c |
| Prediction.PredictNextPeriod | backend/api/utils/stats.py:291-322 | null iff there are no periods or the state is UNSTABLE; the forecast lasts the average period length (0 when missing); its confidence is 0.8, 0.5 or 0.2 |
| Prediction.Known | backend/api/utils/stats.py:305-310 | an average counts only when present and non-zero (Python truthiness); PredictionLadder states which branch each case takes |
| Prediction.PredictionLadder | backend/api/utils/stats.py:303-319 | 0.8 iff luteal and cycle averages are both non-zero and starts that difference after the latest period; 0.5 iff only the cycle average is, starting that many days after; 0.2 otherwise, starting 28 days after; the latest start is taken whatever the input order |

## Left out

- `combine_events` (backend/api/utils/stats.py:325-376), the CSV export merge: it depends on a symptom-summary model that is not part of this model.
- Database sessions, ORM queries and commits, routers, authentication, redis and the `server/` tree: I/O. The fetch of the lookback readings in `update_luteal_length` becomes the `rs` parameter of `UpdateLutealLength`.
- `backend/api/db/crud/temperature.py`: a stand-alone script, not called by the engine.
- Wall-clock time: `datetime.now(UTC)` is the `now` parameter.
- Floating point: temperatures and means are exact reals. NaN appears only where the source's result does not depend on its value: the std of fewer than two deltas, and missing rows, which are `None`.
- Time zones and sub-day timestamps of readings: a reading is given by its day number.
- TemperaturesToFrame: the daily label of a reading is taken as its day number. Daily resampling of timestamps that carry a time zone is not modelled.
- SortByStart: a stable insertion sort. The dataframe library's default sort is not stable, so periods with equal start days may come out in another order in the source. The cycle lengths do not depend on the order of tied periods; the order of their period lengths, and so `avg_period_length`, can differ, and so can the luteal average.
- DetectElevatedPhaseStart: states its result in frame rows and window bounds; the day-number form of the window is the separate lemma `WindowRows`.
- DetectElevatedPhase: the std is compared through the variance on squares; `ThresholdIsMaxOfMinDeltaAndStd` shows that this equals comparing with max(ELEVATION_MIN_DELTA, std) for the non-negative square root.
- Ewm.EwmMean: with missing rows, the kernel still ages the earlier rows on every calendar day (the library's `ignore_na=False`), as the code does; the simpler reading in which only present days count as steps is not modelled.
- Luteal.AverageLutealLength: gated on fewer than two rows, not on fewer than two stored lengths, as the code does; one stored length among several rows is averaged.
- Config: only span >= 1 is required, which the library itself enforces; other thresholds (MIN <= MAX) are not needed by any proof.
- `convert_dates_to_range` (backend/api/utils/__init__.py:6-23): only its consequence is modelled, namely that starts are midnights and ends are the last microsecond of the day (`StartInstant`, `EndInstant`).

