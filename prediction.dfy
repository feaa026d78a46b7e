/** The next-period forecast from a user's cycle record and periods. */
module Prediction {
  import opened Wrappers
  import opened CycleAnalysis
  import opened CycleStateEval
  import opened Luteal

  datatype PredictedPeriod = PredictedPeriod(startDay: int, endDay: int, confidence: real)

  /** The generic cycle length used when the record has no average. */
  const DefaultCycleLength: int := 28

  /** A length that is absent or zero counts as missing. */
  predicate Known(x: Option<int>) {
    x.Some? && x.value != 0
  }

  /** Forecasts the next period from the start of the latest period: with a known luteal
      average and cycle average, the cycle average minus the luteal average later
      (confidence 0.8); with only a cycle average, that many days later (0.5); otherwise
      28 days later (0.2). The forecast lasts the average period length, or no days
      without one. No periods, or an UNSTABLE record, give no forecast. */
  function PredictNextPeriod(cycle: Cycle, ps: seq<Period>): (r: Option<PredictedPeriod>)
    reads cycle
    ensures r.None? <==> |ps| == 0 || cycle.state == Unstable
    ensures r.Some? ==> r.value.endDay - r.value.startDay == cycle.avgPeriodLength.GetOr(0)
    ensures r.Some? ==> r.value.confidence in {0.8, 0.5, 0.2}
  {
    var df := SortByStart(ps);
    if |df| == 0 then None
    else if cycle.state == Unstable then None
    else
      var lastStart := df[|df| - 1].startDay;
      var avgLuteal := AverageLutealLength(df);
      var useLuteal := Known(avgLuteal) && Known(cycle.avgCycleLength);
      var start :=
        if useLuteal then lastStart + (cycle.avgCycleLength.value - avgLuteal.value)
        else if Known(cycle.avgCycleLength) then lastStart + cycle.avgCycleLength.value
        else lastStart + DefaultCycleLength;
      var confidence :=
        if useLuteal then 0.8 else if Known(cycle.avgCycleLength) then 0.5 else 0.2;
      Some(PredictedPeriod(start, start + cycle.avgPeriodLength.GetOr(0), confidence))
  }

  /** Each confidence level, and the day the forecast starts, counted from the latest
      period start whatever order the periods come in. */
  lemma PredictionLadder(cycle: Cycle, ps: seq<Period>)
    requires |ps| > 0 && cycle.state != Unstable
    ensures var r := PredictNextPeriod(cycle, ps);
      var avgLuteal := AverageLutealLength(SortByStart(ps));
      r.Some? &&
      (r.value.confidence == 0.8 <==> Known(avgLuteal) && Known(cycle.avgCycleLength)) &&
      (r.value.confidence == 0.5 <==> !Known(avgLuteal) && Known(cycle.avgCycleLength)) &&
      (r.value.confidence == 0.2 <==> !Known(cycle.avgCycleLength)) &&
      r.value.startDay - LatestStart(ps) ==
        (if r.value.confidence == 0.8 then cycle.avgCycleLength.value - avgLuteal.value
         else if r.value.confidence == 0.5 then cycle.avgCycleLength.value
         else DefaultCycleLength)
  {
    LastSortedIsLatest(ps);
  }
}
