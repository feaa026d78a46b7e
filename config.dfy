/** The deployment thresholds the engine reads from its settings object, passed
    explicitly to every entry point. */
module Config {

  datatype Config = Config(
    smoothingSpanDays: nat,       // SMOOTHING_SPAN_DAYS: span of the short EWM
    baselineSpanDays: nat,        // BASELINE_SPAN_DAYS: span of the long EWM
    minPointsForBaseline: nat,    // MIN_POINTS_FOR_BASELINE: daily rows needed before a baseline
    elevationMinDelta: real,      // ELEVATION_MIN_DELTA: degrees above baseline
    elevationDaysRequired: nat,   // ELEVATION_DAYS_REQUIRED: length of a sustained rise
    maxMissingDays: int,          // MAX_MISSING_DAYS: longest tolerated gap between readings
    cycleEwmSpan: nat,            // CYCLE_EWM_SPAN: span of the cycle/period averages and outlier window
    minCyclesForStable: nat,      // MIN_CYCLES_FOR_STABLE
    minPlausibleCycle: int,       // MIN_PLAUSIBLE_CYCLE (days, inclusive)
    maxPlausibleCycle: int,       // MAX_PLAUSIBLE_CYCLE (days, inclusive)
    longGapMultiplier: real,      // LONG_GAP_MULTIPLIER: outlier bound relative to the recent mean
    minLutealDays: int,           // MIN_LUTEAL_DAYS (inclusive)
    maxLutealDays: int,           // MAX_LUTEAL_DAYS (inclusive)
    maxLookbackDays: int          // MAX_LOOKBACK_DAYS: how far before a period the luteal scan looks
  ) {

    /** pandas refuses an exponentially weighted window whose span is below 1. */
    predicate Valid() {
      smoothingSpanDays >= 1 && baselineSpanDays >= 1 && cycleEwmSpan >= 1
    }
  }
}
