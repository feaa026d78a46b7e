/** The temperature phase classifier: a sustained rise of the smoothed series above the
    baseline, and the evaluation that updates a user's TemperatureState in place. */
module TemperaturePhase {
  import opened Wrappers
  import opened Config
  import opened Ewm
  import opened TemperatureSeries

  datatype TempPhase = Learning | Low | Elevated | Unknown

  // ----- sample spread of the deltas -----

  function Sum(xs: seq<real>): real {
    if |xs| == 0 then 0.0 else xs[0] + Sum(xs[1..])
  }

  function SquaredDeviations(xs: seq<real>, m: real): (r: real)
    ensures r >= 0.0
  {
    if |xs| == 0 then 0.0
    else
      assert (xs[0] - m) * (xs[0] - m) >= 0.0 by { SquareNonNegative(xs[0] - m); }
      (xs[0] - m) * (xs[0] - m) + SquaredDeviations(xs[1..], m)
  }

  lemma SquareNonNegative(x: real)
    ensures x * x >= 0.0
  {
    if x < 0.0 { MulNonNegative(-x, -x); assert x * x == (-x) * (-x); }
    else { MulNonNegative(x, x); }
  }

  /** The sample variance (ddof = 1): the square of pandas' `Series.std()`. */
  function SampleVariance(xs: seq<real>): (v: real)
    requires |xs| >= 2
    ensures v >= 0.0
  {
    DivNonNegative(SquaredDeviations(xs, Sum(xs) / |xs| as real), |xs| as real - 1.0);
    SquaredDeviations(xs, Sum(xs) / |xs| as real) / (|xs| as real - 1.0)
  }

  /** Python's `max(a, b)`: the first argument unless the second is greater, so a NaN
      second argument (the std of a single point) leaves the first. */
  function PyMax(a: real, b: real): real {
    if b > a then b else a
  }

  /** Whether delta d clears max(ELEVATION_MIN_DELTA, std) of all the deltas. With fewer
      than two deltas the std is NaN and the threshold is ELEVATION_MIN_DELTA; a zero std
      becomes 0 through `or 0`. The comparison with the std is made on squares. */
  predicate ExceedsThreshold(d: real, deltas: seq<real>, minDelta: real) {
    d > minDelta && (|deltas| < 2 || (d > 0.0 && d * d > SampleVariance(deltas)))
  }

  /** The deltas of the smoothed series against the baseline value. */
  function Deltas(smoothed: seq<real>, baseline: real): (ds: seq<real>)
    ensures |ds| == |smoothed|
    ensures forall i :: 0 <= i < |ds| ==> ds[i] + baseline == smoothed[i]
  {
    seq(|smoothed|, i requires 0 <= i < |smoothed| => smoothed[i] - baseline)
  }

  /** A sustained rise: each of the last ELEVATION_DAYS_REQUIRED deltas is above the
      threshold; never with fewer smoothed points than that. */
  function DetectElevatedPhase(smoothed: seq<real>, baseline: real, cfg: Config): (r: bool)
    ensures r ==> |smoothed| >= cfg.elevationDaysRequired
    ensures r ==> forall i :: |smoothed| - cfg.elevationDaysRequired <= i < |smoothed| ==>
      smoothed[i] > baseline + cfg.elevationMinDelta
  {
    if |smoothed| < cfg.elevationDaysRequired then false
    else
      var ds := Deltas(smoothed, baseline);
      forall i :: |ds| - cfg.elevationDaysRequired <= i < |ds| ==> ExceedsThreshold(ds[i], ds, cfg.elevationMinDelta)
  }

  lemma SquareMonotone(s: real, d: real)
    requires 0.0 <= s
    ensures d > s ==> d * d > s * s
    ensures d > 0.0 && d * d > s * s ==> d > s
  {
    if d > s {
      SquareStrict(s, d);
    } else if d > 0.0 {
      SquareWeak(d, s);
    }
  }

  lemma SquareStrict(s: real, d: real)
    requires 0.0 <= s < d
    ensures s * s < d * d
  {
    calc {
      s * s;
    <= { MulMonotone(s, s, d); }
      s * d;
    == d * s;
    < { MulStrict(d, s, d); }
      d * d;
    }
  }

  lemma SquareWeak(d: real, s: real)
    requires 0.0 <= d <= s
    ensures d * d <= s * s
  {
    MulMonotone(d, d, s);
    MulMonotone(s, d, s);
  }

  lemma NoDeviationNoVariance(xs: seq<real>)
    requires |xs| >= 2 && SquaredDeviations(xs, Sum(xs) / |xs| as real) == 0.0
    ensures SampleVariance(xs) == 0.0
  {
    var sd := SquaredDeviations(xs, Sum(xs) / |xs| as real);
    var k := |xs| as real - 1.0;
    assert SampleVariance(xs) == sd / k;
    ZeroOver(sd, k);
  }

  lemma ZeroOver(a: real, b: real)
    requires a == 0.0 && b > 0.0
    ensures a / b == 0.0
  {
  }

  lemma MulStrict(a: real, x: real, y: real)
    requires a > 0.0 && x < y
    ensures a * x < a * y
  {
    assert a * y - a * x == a * (y - x);
  }

  /** The squared test agrees with comparing d against max(ELEVATION_MIN_DELTA, std)
      for any non-negative std whose square is the sample variance. */
  lemma ThresholdIsMaxOfMinDeltaAndStd(d: real, deltas: seq<real>, minDelta: real, std: real)
    requires |deltas| >= 2 && std >= 0.0 && std * std == SampleVariance(deltas)
    ensures ExceedsThreshold(d, deltas, minDelta) <==> d > PyMax(minDelta, std)
  {
    SquareMonotone(std, d);
  }

  lemma {:induction false} ConstantSum(xs: seq<real>, c: real)
    requires forall i :: 0 <= i < |xs| ==> xs[i] == c
    ensures Sum(xs) == |xs| as real * c
  {
    if |xs| > 0 {
      ConstantSum(xs[1..], c);
    }
  }

  lemma {:induction false} ConstantDeviations(xs: seq<real>, c: real)
    requires forall i :: 0 <= i < |xs| ==> xs[i] == c
    ensures SquaredDeviations(xs, c) == 0.0
  {
    if |xs| > 0 {
      ConstantDeviations(xs[1..], c);
    }
  }

  /** A smoothed series sitting at a constant level above baseline + ELEVATION_MIN_DELTA
      (and above the baseline) for ELEVATION_DAYS_REQUIRED days or more is a rise. */
  lemma ConstantRiseDetected(smoothed: seq<real>, baseline: real, c: real, cfg: Config)
    requires |smoothed| >= cfg.elevationDaysRequired
    requires forall i :: 0 <= i < |smoothed| ==> smoothed[i] == c
    requires c - baseline > cfg.elevationMinDelta && c > baseline
    ensures DetectElevatedPhase(smoothed, baseline, cfg)
  {
    var ds := Deltas(smoothed, baseline);
    var d := c - baseline;
    forall i | 0 <= i < |ds| ensures ds[i] == d {
      assert ds[i] + baseline == smoothed[i];
    }
    if |ds| >= 2 {
      ConstantSum(ds, d);
      DivCancel(|ds| as real, d);
      assert Sum(ds) / |ds| as real == d;
      ConstantDeviations(ds, d);
      assert SquaredDeviations(ds, Sum(ds) / |ds| as real) == 0.0;
      NoDeviationNoVariance(ds);
      SquareStrict(0.0, d);
    }
    assert ExceedsThreshold(d, ds, cfg.elevationMinDelta);
  }

  // ----- the state object and its evaluation -----

  /** A user's temperature state, updated in place by each evaluation. */
  class TemperatureState {
    var phase: TempPhase
    var baseline: Option<real>
    var lastEvaluated: Option<int>

    constructor (phase: TempPhase)
      ensures this.phase == phase && baseline == None && lastEvaluated == None
    {
      this.phase := phase;
      baseline := None;
      lastEvaluated := None;
    }
  }

  /** The smoothed series of the readings' daily frame, every row of which has a value. */
  function SmoothedValues(rs: seq<Reading>, cfg: Config): (s: seq<real>)
    requires cfg.Valid()
    ensures |s| == |TemperaturesToFrame(rs).temps|
    ensures forall i :: 0 <= i < |s| ==> SmoothedTemperature(TemperaturesToFrame(rs), cfg)[i] == Some(s[i])
  {
    var sm := SmoothedTemperature(TemperaturesToFrame(rs), cfg);
    MeansPresent(rs, cfg);
    seq(|sm|, i requires 0 <= i < |sm| => sm[i].value)
  }

  /** The last value of the baseline series. */
  function LastBaseline(rs: seq<Reading>, cfg: Config): (b: real)
    requires cfg.Valid() && |rs| > 0
    ensures var bs := Baseline(TemperaturesToFrame(rs), cfg); bs[|bs| - 1] == Some(b)
  {
    var bs := Baseline(TemperaturesToFrame(rs), cfg);
    MeansPresent(rs, cfg);
    bs[|bs| - 1].value
  }

  /** The phase an evaluation assigns, as the decision ladder: no readings, a long gap,
      too few daily rows for a baseline, then a sustained rise or not. */
  function PhaseOf(rs: seq<Reading>, cfg: Config): TempPhase
    requires cfg.Valid()
  {
    var f := TemperaturesToFrame(rs);
    if |f.temps| == 0 then Learning
    else Ladder(f, SmoothedValues(rs, cfg), LastBaseline(rs, cfg), cfg)
  }

  /** The rungs of the ladder after the no-readings exit, given the frame, its smoothed
      values and its last baseline. */
  function Ladder(f: DailyFrame, smoothed: seq<real>, baseline: real, cfg: Config): TempPhase {
    if HasLongGap(f, cfg) then Unknown
    else if |f.temps| < cfg.minPointsForBaseline then Learning
    else if DetectElevatedPhase(smoothed, baseline, cfg) then Elevated
    else Low
  }

  /** With at least one row, the phase and the stored baseline come from the rungs. */
  lemma LadderOfFrame(rs: seq<Reading>, cfg: Config)
    requires cfg.Valid() && |TemperaturesToFrame(rs).temps| > 0
    ensures |rs| > 0
    ensures PhaseOf(rs, cfg) == Ladder(TemperaturesToFrame(rs), SmoothedValues(rs, cfg), LastBaseline(rs, cfg), cfg)
    ensures var f := TemperaturesToFrame(rs);
      NewBaseline(rs, cfg) ==
        if HasLongGap(f, cfg) || |f.temps| < cfg.minPointsForBaseline then None else Some(LastBaseline(rs, cfg))
  {
  }

  /** The baseline an evaluation stores: only the final branch of the ladder sets one. */
  function NewBaseline(rs: seq<Reading>, cfg: Config): Option<real>
    requires cfg.Valid()
  {
    var f := TemperaturesToFrame(rs);
    if |f.temps| == 0 || HasLongGap(f, cfg) || |f.temps| < cfg.minPointsForBaseline then None
    else Some(LastBaseline(rs, cfg))
  }

  /** Re-evaluates the temperature state from all of a user's readings. The previous
      state object, when there is one, is the one updated and returned; `now` is the
      evaluation instant. */
  method EvaluateTemperatureState(rs: seq<Reading>, previous: TemperatureState?, now: int, cfg: Config)
    returns (state: TemperatureState)
    requires cfg.Valid()
    modifies previous
    ensures previous != null ==> state == previous
    ensures previous == null ==> fresh(state)
    ensures state.lastEvaluated == Some(now)
    ensures state.phase == PhaseOf(rs, cfg)
    ensures NewBaseline(rs, cfg).Some? ==> state.baseline == NewBaseline(rs, cfg)
    ensures NewBaseline(rs, cfg).None? && previous != null ==> state.baseline == old(previous.baseline)
    ensures NewBaseline(rs, cfg).None? && previous == null ==> state.baseline == None
  {
    var phase, baseline := ClassifyReadings(rs, cfg);
    if previous != null {
      state := previous;
    } else {
      state := new TemperatureState(Learning);
    }
    state.lastEvaluated := Some(now);
    state.phase := phase;
    if baseline.Some? {
      state.baseline := baseline;
    }
  }

  /** The decision ladder of an evaluation, run over the daily frame: the phase it
      assigns and the baseline it stores, if any. */
  method ClassifyReadings(rs: seq<Reading>, cfg: Config) returns (phase: TempPhase, baseline: Option<real>)
    requires cfg.Valid()
    ensures phase == PhaseOf(rs, cfg)
    ensures baseline == NewBaseline(rs, cfg)
  {
    var df := TemperaturesToFrame(rs);
    if |df.temps| == 0 {
      return Learning, None;
    }
    LadderOfFrame(rs, cfg);
    if HasLongGap(df, cfg) {
      return Unknown, None;
    }
    var smoothed := SmoothedValues(rs, cfg);
    if |smoothed| < cfg.minPointsForBaseline {
      return Learning, None;
    }
    var baselineValue := LastBaseline(rs, cfg);
    baseline := Some(baselineValue);
    if DetectElevatedPhase(smoothed, baselineValue, cfg) {
      phase := Elevated;
    } else {
      phase := Low;
    }
  }

  // ----- properties of the ladder -----

  /** No readings, or no long gap and fewer calendar days spanned than
      MIN_POINTS_FOR_BASELINE: the rows counted are days, not readings. */
  lemma LearningIff(rs: seq<Reading>, cfg: Config)
    requires cfg.Valid()
    ensures PhaseOf(rs, cfg) == Learning <==>
      |rs| == 0 || (!HasLongGap(TemperaturesToFrame(rs), cfg) && MaxDay(rs) - MinDay(rs) + 1 < cfg.minPointsForBaseline)
  {
    if |rs| > 0 {
      FrameSpan(rs);
      LadderOfFrame(rs, cfg);
      LadderLearningIff(TemperaturesToFrame(rs), SmoothedValues(rs, cfg), LastBaseline(rs, cfg), cfg);
    }
  }

  /** The rungs give LEARNING exactly for a frame without a long gap and with fewer rows
      than MIN_POINTS_FOR_BASELINE. */
  lemma LadderLearningIff(f: DailyFrame, smoothed: seq<real>, baseline: real, cfg: Config)
    ensures Ladder(f, smoothed, baseline, cfg) == Learning <==>
      !HasLongGap(f, cfg) && |f.temps| < cfg.minPointsForBaseline
  {
  }

  /** UNKNOWN exactly when two consecutive recorded days are more than MAX_MISSING_DAYS
      apart. */
  lemma UnknownIff(rs: seq<Reading>, cfg: Config)
    requires cfg.Valid()
    ensures var f := TemperaturesToFrame(rs);
      PhaseOf(rs, cfg) == Unknown <==>
        exists i, j :: ConsecutivePresent(f.temps, i, j) && j - i > cfg.maxMissingDays
  {
    var f := TemperaturesToFrame(rs);
    HasLongGapIff(f, cfg);
  }

  /** A baseline is stored exactly when the phase is LOW or ELEVATED. */
  lemma BaselineSetIffClassified(rs: seq<Reading>, cfg: Config)
    requires cfg.Valid()
    ensures NewBaseline(rs, cfg).Some? <==> PhaseOf(rs, cfg) in {Low, Elevated}
  {
  }

  /** ELEVATED means the last ELEVATION_DAYS_REQUIRED smoothed values are all above the
      stored baseline by more than ELEVATION_MIN_DELTA. */
  lemma ElevatedMeansAboveBaseline(rs: seq<Reading>, cfg: Config)
    requires cfg.Valid() && PhaseOf(rs, cfg) == Elevated
    ensures NewBaseline(rs, cfg).Some?
    ensures var s := SmoothedValues(rs, cfg);
      |s| >= cfg.elevationDaysRequired &&
      forall i :: |s| - cfg.elevationDaysRequired <= i < |s| ==>
        s[i] > NewBaseline(rs, cfg).value + cfg.elevationMinDelta
  {
  }

  /** The stored baseline lies between the lowest and the highest reading. */
  lemma BaselineWithinReadings(rs: seq<Reading>, cfg: Config, lo: real, hi: real)
    requires cfg.Valid()
    requires forall k :: 0 <= k < |rs| ==> lo <= rs[k].temperature <= hi
    ensures NewBaseline(rs, cfg).Some? ==> lo <= NewBaseline(rs, cfg).value <= hi
  {
    if NewBaseline(rs, cfg).Some? {
      MeansWithinReadings(rs, cfg, lo, hi);
      var bs := Baseline(TemperaturesToFrame(rs), cfg);
      assert bs[|bs| - 1].Some?;
    }
  }

  /** The evaluation does not depend on the order of the readings. */
  lemma PhaseIgnoresOrder(rs: seq<Reading>, qs: seq<Reading>, cfg: Config)
    requires cfg.Valid() && multiset(rs) == multiset(qs)
    ensures PhaseOf(rs, cfg) == PhaseOf(qs, cfg)
    ensures NewBaseline(rs, cfg) == NewBaseline(qs, cfg)
  {
    FrameIgnoresOrder(rs, qs);
    SameFrameSameMeans(rs, qs, cfg);
    if |TemperaturesToFrame(rs).temps| > 0 {
      LadderOfFrame(rs, cfg);
      LadderOfFrame(qs, cfg);
    }
  }

  /** Readings with the same daily frame have the same smoothed values and last baseline. */
  lemma SameFrameSameMeans(rs: seq<Reading>, qs: seq<Reading>, cfg: Config)
    requires cfg.Valid() && TemperaturesToFrame(rs) == TemperaturesToFrame(qs)
    ensures SmoothedValues(rs, cfg) == SmoothedValues(qs, cfg)
    ensures |rs| > 0 ==> |qs| > 0 && LastBaseline(rs, cfg) == LastBaseline(qs, cfg)
  {
    var a, b := SmoothedValues(rs, cfg), SmoothedValues(qs, cfg);
    forall i | 0 <= i < |a| ensures a[i] == b[i] {
      assert Some(a[i]) == Some(b[i]);
    }
  }

  /** Two readings more than MAX_MISSING_DAYS apart make the phase UNKNOWN, and two
      readings closer than that never do. */
  lemma TwoDistantReadingsUnknown(d: int, g: int, a: real, b: real, cfg: Config)
    requires cfg.Valid() && g >= 1
    ensures PhaseOf([Reading(d, a), Reading(d + g, b)], cfg) == Unknown <==> g > cfg.maxMissingDays
  {
    TwoReadingsGap(d, g, a, b, cfg);
  }
}
