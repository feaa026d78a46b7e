/** The LEARNING / STABLE / UNSTABLE classifier over a user's periods, updating the
    user's Cycle record in place. */
module CycleStateEval {
  import opened Wrappers
  import opened Config
  import opened CycleAnalysis

  datatype CycleState = Learning | Stable | Unstable

  /** A user's cycle record, updated in place by each evaluation. */
  class Cycle {
    var state: CycleState
    var avgCycleLength: Option<int>
    var avgPeriodLength: Option<int>
    var lastEvaluated: Option<int>

    constructor (state: CycleState)
      ensures this.state == state && avgCycleLength == None && avgPeriodLength == None
      ensures lastEvaluated == None
    {
      this.state := state;
      avgCycleLength := None;
      avgPeriodLength := None;
      lastEvaluated := None;
    }
  }

  /** Number of true entries. */
  function CountTrue(xs: seq<bool>): (n: nat)
    ensures n <= |xs|
    ensures n == |xs| <==> forall k :: 0 <= k < |xs| ==> xs[k]
  {
    if |xs| == 0 then 0
    else
      var rest := CountTrue(xs[1..]);
      assert forall k :: 1 <= k < |xs| ==> xs[k] == xs[1..][k - 1];
      (if xs[0] then 1 else 0) + rest
  }

  /** What an evaluation past the early exit computes. */
  datatype Verdict = Verdict(state: CycleState, avgCycle: Option<int>, avgPeriod: Option<int>)

  /** The mask over the sorted periods' cycle lengths. */
  function MaskOf(df: seq<Period>, cfg: Config): (m: seq<bool>)
    ensures |m| == |df|
  {
    ClassifyCycleLengths(CycleLengths(df), cfg)
  }

  /** The verdict, or null on the early exit (no periods, or no more than
      MIN_CYCLES_FOR_STABLE of them), which leaves the averages as they were. */
  function Evaluate(ps: seq<Period>, cfg: Config): Option<Verdict>
    requires cfg.Valid()
  {
    EvaluateSorted(SortByStart(ps), cfg)
  }

  /** The evaluation over the periods once sorted by start. */
  function EvaluateSorted(df: seq<Period>, cfg: Config): Option<Verdict>
    requires cfg.Valid()
  {
    if |df| == 0 || |df| <= cfg.minCyclesForStable then None
    else
      var cycleLengths := CycleLengths(df);
      var validMask := ClassifyCycleLengths(cycleLengths, cfg);
      var avgCycle := CycleAverage(cycleLengths, validMask, cfg);
      var avgPeriod := PeriodAverage(PeriodLengths(df), cfg);
      Some(Verdict(StateFrom(validMask, avgCycle, cfg), avgCycle, avgPeriod))
  }

  /** The verdict from the mask and the cycle average: LEARNING without an average,
      STABLE when the last MIN_CYCLES_FOR_STABLE mask entries count as many valid ones. */
  function StateFrom(validMask: seq<bool>, avgCycle: Option<int>, cfg: Config): CycleState {
    if avgCycle.None? then Learning
    else if CountTrue(Tail(validMask, cfg.minCyclesForStable)) >= cfg.minCyclesForStable then Stable
    else Unstable
  }

  /** Counting the valid entries of the last n reaches n exactly when all of them are
      valid. */
  lemma CountTailAll(m: seq<bool>, n: nat)
    requires |m| >= n
    ensures CountTrue(Tail(m, n)) >= n <==> forall i :: |m| - n <= i < |m| ==> m[i]
  {
    var t := Tail(m, n);
    assert t == m[|m| - n..];
    assert forall i :: |m| - n <= i < |m| ==> m[i] == t[i - (|m| - n)];
  }

  function StateOf(ps: seq<Period>, cfg: Config): CycleState
    requires cfg.Valid()
  {
    match Evaluate(ps, cfg)
    case None => Learning
    case Some(v) => v.state
  }

  /** Re-evaluates the cycle record from all of a user's periods. The previous record,
      when there is one, is the one updated and returned; `now` is the evaluation
      instant. */
  method EvaluateCycleState(ps: seq<Period>, previous: Cycle?, now: int, cfg: Config)
    returns (cycle: Cycle)
    requires cfg.Valid()
    modifies previous
    ensures previous != null ==> cycle == previous
    ensures previous == null ==> fresh(cycle)
    ensures cycle.lastEvaluated == Some(now)
    ensures cycle.state == StateOf(ps, cfg)
    ensures Evaluate(ps, cfg).Some? ==>
      cycle.avgCycleLength == Evaluate(ps, cfg).value.avgCycle &&
      cycle.avgPeriodLength == Evaluate(ps, cfg).value.avgPeriod
    ensures Evaluate(ps, cfg).None? && previous != null ==>
      cycle.avgCycleLength == old(previous.avgCycleLength) &&
      cycle.avgPeriodLength == old(previous.avgPeriodLength)
    ensures Evaluate(ps, cfg).None? && previous == null ==>
      cycle.avgCycleLength == None && cycle.avgPeriodLength == None
  {
    var df := SortByStart(ps);
    if previous != null {
      cycle := previous;
    } else {
      cycle := new Cycle(Learning);
    }
    cycle.lastEvaluated := Some(now);
    if |df| == 0 || |df| <= cfg.minCyclesForStable {
      cycle.state := Learning;
      return;
    }
    var cycleLengths := CycleLengths(df);
    var validMask := ClassifyCycleLengths(cycleLengths, cfg);
    var avgCycle := CycleAverage(cycleLengths, validMask, cfg);
    var periodLengths := PeriodLengths(df);
    var avgPeriod := PeriodAverage(periodLengths, cfg);
    cycle.avgCycleLength := avgCycle;
    cycle.avgPeriodLength := avgPeriod;
    if avgCycle.None? {
      cycle.state := Learning;
    } else if CountTrue(Tail(validMask, cfg.minCyclesForStable)) >= cfg.minCyclesForStable {
      cycle.state := Stable;
    } else {
      cycle.state := Unstable;
    }
    assert Evaluate(ps, cfg) == Some(Verdict(cycle.state, avgCycle, avgPeriod));
  }

  // ----- properties -----

  /** MIN_CYCLES_FOR_STABLE periods or fewer are always LEARNING: MIN + 1 periods are
      needed for MIN cycle lengths. */
  lemma FewPeriodsLearning(ps: seq<Period>, cfg: Config)
    requires cfg.Valid()
    ensures |ps| <= cfg.minCyclesForStable ==> Evaluate(ps, cfg).None? && StateOf(ps, cfg) == Learning
  {
  }

  /** Past the early exit, STABLE exactly when an average exists and each of the last
      MIN_CYCLES_FOR_STABLE entries of the mask over the sorted periods is valid. That
      window never reaches the first period, whose cycle length is null. */
  lemma StableIff(ps: seq<Period>, cfg: Config)
    requires cfg.Valid() && |ps| > cfg.minCyclesForStable
    ensures var m := MaskOf(SortByStart(ps), cfg);
      StateOf(ps, cfg) == Stable <==>
        Evaluate(ps, cfg).value.avgCycle.Some? &&
        forall i :: |ps| - cfg.minCyclesForStable <= i < |ps| ==> m[i]
    ensures |ps| - cfg.minCyclesForStable >= 1
  {
    StateOfSorted(ps, cfg);
    StableIffSorted(SortByStart(ps), cfg);
  }

  /** Past the early exit the state is the verdict over the sorted periods. */
  lemma StateOfSorted(ps: seq<Period>, cfg: Config)
    requires cfg.Valid() && |ps| > cfg.minCyclesForStable
    ensures |SortByStart(ps)| == |ps|
    ensures Evaluate(ps, cfg) == EvaluateSorted(SortByStart(ps), cfg)
    ensures StateOf(ps, cfg) == EvaluateSorted(SortByStart(ps), cfg).value.state
  {
    EvaluatePastExit(SortByStart(ps), cfg);
  }

  lemma StableIffSorted(df: seq<Period>, cfg: Config)
    requires cfg.Valid() && |df| > cfg.minCyclesForStable
    ensures EvaluateSorted(df, cfg).Some?
    ensures var m := MaskOf(df, cfg);
      EvaluateSorted(df, cfg).value.state == Stable <==>
        EvaluateSorted(df, cfg).value.avgCycle.Some? &&
        forall i :: |df| - cfg.minCyclesForStable <= i < |df| ==> m[i]
  {
    EvaluatePastExit(df, cfg);
    StateFromStableIff(MaskOf(df, cfg), EvaluateSorted(df, cfg).value.avgCycle, cfg);
  }

  /** Past the early exit the verdict is StateFrom over the mask of the sorted periods. */
  lemma EvaluatePastExit(df: seq<Period>, cfg: Config)
    requires cfg.Valid() && |df| > cfg.minCyclesForStable
    ensures EvaluateSorted(df, cfg).Some?
    ensures EvaluateSorted(df, cfg).value.state == StateFrom(MaskOf(df, cfg), EvaluateSorted(df, cfg).value.avgCycle, cfg)
    ensures EvaluateSorted(df, cfg).value.avgCycle == CycleAverage(CycleLengths(df), MaskOf(df, cfg), cfg)
    ensures EvaluateSorted(df, cfg).value.avgPeriod == PeriodAverage(PeriodLengths(df), cfg)
  {
  }

  /** STABLE exactly when there is an average and the last MIN_CYCLES_FOR_STABLE mask
      entries are all valid. */
  lemma StateFromStableIff(m: seq<bool>, avgCycle: Option<int>, cfg: Config)
    requires |m| > cfg.minCyclesForStable
    ensures StateFrom(m, avgCycle, cfg) == Stable <==>
      avgCycle.Some? && forall i :: |m| - cfg.minCyclesForStable <= i < |m| ==> m[i]
  {
    CountTailAll(m, cfg.minCyclesForStable);
  }

  /** A STABLE verdict rests on MIN_CYCLES_FOR_STABLE real, plausible cycle lengths. */
  lemma StableCyclesPlausible(ps: seq<Period>, cfg: Config)
    requires cfg.Valid() && StateOf(ps, cfg) == Stable
    ensures |ps| > cfg.minCyclesForStable
    ensures var cls := CycleLengths(SortByStart(ps));
      forall i :: |ps| - cfg.minCyclesForStable <= i < |ps| ==> Plausible(cls[i], cfg)
  {
    FewPeriodsLearning(ps, cfg);
    StableIff(ps, cfg);
    ValidArePlausible(SortByStart(ps), cfg);
  }

  /** Only plausible cycle lengths are marked valid. */
  lemma ValidArePlausible(df: seq<Period>, cfg: Config)
    ensures forall i :: 0 <= i < |df| && MaskOf(df, cfg)[i] ==> Plausible(CycleLengths(df)[i], cfg)
  {
  }

  /** Periods already in start order are left as they are by the sort. */
  lemma {:induction false} SortKeepsSorted(ps: seq<Period>)
    requires SortedByStart(ps)
    ensures SortByStart(ps) == ps
  {
    if |ps| > 0 {
      var init, last := ps[..|ps| - 1], ps[|ps| - 1];
      assert SortedByStart(init) by {
        forall i, j | 0 <= i < j < |init| ensures init[i].startDay <= init[j].startDay {
          assert init[i] == ps[i] && init[j] == ps[j];
        }
      }
      SortKeepsSorted(init);
      if |init| > 0 {
        assert init[|init| - 1] == ps[|ps| - 2];
      }
      assert Insert(init, last) == init + [last];
      assert ps == init + [last];
    }
  }

  /** Each period starts c days after the one before it. */
  ghost predicate EveryCycle(ps: seq<Period>, c: int) {
    forall i :: 1 <= i < |ps| ==> StartGap(ps, i) == c
  }

  /** Days from the start of period i - 1 to the start of period i. */
  function StartGap(ps: seq<Period>, i: int): int
    requires 1 <= i < |ps|
  {
    ps[i].startDay - ps[i - 1].startDay
  }

  /** Periods given in order, each starting c days after the one before and lasting d
      days, with c a plausible length and LONG_GAP_MULTIPLIER >= 1: more than
      MIN_CYCLES_FOR_STABLE (and at least two) of them are STABLE with average cycle c
      and average period d. */
  lemma RegularPeriodsStable(ps: seq<Period>, c: int, d: int, cfg: Config)
    requires cfg.Valid()
    requires |ps| > cfg.minCyclesForStable && |ps| >= 2
    requires EveryCycle(ps, c)
    requires forall i :: 0 <= i < |ps| ==> ps[i].endDay == Some(ps[i].startDay + d)
    requires cfg.minPlausibleCycle <= c <= cfg.maxPlausibleCycle && c >= 0
    requires cfg.longGapMultiplier >= 1.0
    ensures StateOf(ps, cfg) == Stable
    ensures Evaluate(ps, cfg).value.avgCycle == Some(c)
    ensures Evaluate(ps, cfg).value.avgPeriod == Some(d)
  {
    forall i, j {:trigger ps[i], ps[j]} | 0 <= i && j == i + 1 && j < |ps|
      ensures ps[i].startDay <= ps[j].startDay
    {
      assert StartGap(ps, j) == c;
    }
    AdjacentSorted(ps);
    SortKeepsSorted(ps);
    RegularAverages(ps, c, d, cfg);
    EvaluatePastExit(ps, cfg);
    StateFromStableIff(MaskOf(ps, cfg), Some(c), cfg);
  }

  /** The mask and both averages of regular periods already in start order. */
  lemma RegularAverages(ps: seq<Period>, c: int, d: int, cfg: Config)
    requires cfg.Valid() && |ps| >= 2
    requires EveryCycle(ps, c)
    requires forall i :: 0 <= i < |ps| ==> ps[i].endDay == Some(ps[i].startDay + d)
    requires cfg.minPlausibleCycle <= c <= cfg.maxPlausibleCycle && c >= 0
    requires cfg.longGapMultiplier >= 1.0
    ensures forall i :: 1 <= i < |ps| ==> MaskOf(ps, cfg)[i]
    ensures CycleAverage(CycleLengths(ps), MaskOf(ps, cfg), cfg) == Some(c)
    ensures PeriodAverage(PeriodLengths(ps), cfg) == Some(d)
  {
    RegularMask(ps, c, cfg);
    RegularCycleAverage(ps, c, cfg);
    RegularPeriodAverage(ps, d, cfg);
  }

  /** Consecutive regular periods start c days apart. */
  lemma CycleStep(ps: seq<Period>, c: int, i: int)
    requires EveryCycle(ps, c) && 1 <= i < |ps|
    ensures ps[i].startDay - ps[i - 1].startDay == c
  {
    assert StartGap(ps, i) == c;
  }

  /** The cycle length at a later row is the distance between the two starts. */
  lemma CycleLengthAt(ps: seq<Period>, i: int)
    requires 1 <= i < |ps|
    ensures CycleLengths(ps)[i] == Some(ps[i].startDay - ps[i - 1].startDay)
  {
  }

  lemma RegularCycleLengths(ps: seq<Period>, c: int)
    requires EveryCycle(ps, c)
    ensures forall i :: 1 <= i < |ps| ==> CycleLengths(ps)[i] == Some(c)
    ensures forall i :: 0 <= i < |ps| ==> CycleLengths(ps)[i].None? || CycleLengths(ps)[i] == Some(c)
  {
    forall i | 1 <= i < |ps| ensures CycleLengths(ps)[i] == Some(c) {
      CycleStep(ps, c, i);
      CycleLengthAt(ps, i);
    }
  }

  lemma RegularMask(ps: seq<Period>, c: int, cfg: Config)
    requires EveryCycle(ps, c)
    requires cfg.minPlausibleCycle <= c <= cfg.maxPlausibleCycle && c >= 0
    requires cfg.longGapMultiplier >= 1.0
    ensures forall i :: 1 <= i < |ps| ==> MaskOf(ps, cfg)[i]
  {
    RegularCycleLengths(ps, c);
    RegularCyclesValid(CycleLengths(ps), c, cfg);
  }

  lemma RegularCycleAverage(ps: seq<Period>, c: int, cfg: Config)
    requires cfg.Valid() && |ps| >= 2
    requires EveryCycle(ps, c)
    requires cfg.minPlausibleCycle <= c <= cfg.maxPlausibleCycle && c >= 0
    requires cfg.longGapMultiplier >= 1.0
    ensures CycleAverage(CycleLengths(ps), MaskOf(ps, cfg), cfg) == Some(c)
  {
    var cls := CycleLengths(ps);
    var m := MaskOf(ps, cfg);
    RegularCycleLengths(ps, c);
    RegularMask(ps, c, cfg);
    AverageOfConstant(cls, m, cfg, c);
  }

  /** When every usable cycle length is c and entry 1 is usable, the average is c. */
  lemma AverageOfConstant(cls: seq<Option<int>>, m: seq<bool>, cfg: Config, c: int)
    requires cfg.Valid() && |m| == |cls| && |cls| >= 2
    requires forall i :: 0 <= i < |cls| ==> cls[i].None? || cls[i] == Some(c)
    requires m[1] && cls[1].Some?
    ensures CycleAverage(cls, m, cfg) == Some(c)
  {
    CycleAverageWithin(cls, m, cfg, c, c);
  }

  lemma RegularPeriodAverage(ps: seq<Period>, d: int, cfg: Config)
    requires cfg.Valid() && |ps| >= 1
    requires forall i :: 0 <= i < |ps| ==> ps[i].endDay == Some(ps[i].startDay + d)
    ensures PeriodAverage(PeriodLengths(ps), cfg) == Some(d)
  {
    var pls := PeriodLengths(ps);
    assert pls[0] == Some(d);
    PeriodAverageWithin(pls, cfg, d, d);
  }

  /** Starts that never decrease from one period to the next are sorted. */
  lemma {:induction false} AdjacentSorted(ps: seq<Period>)
    requires forall i, j {:trigger ps[i], ps[j]} :: 0 <= i && j == i + 1 && j < |ps| ==> ps[i].startDay <= ps[j].startDay
    ensures SortedByStart(ps)
  {
    if |ps| > 1 {
      var init := ps[..|ps| - 1];
      assert forall i :: 0 <= i < |init| ==> init[i] == ps[i];
      AdjacentSorted(init);
      forall i, j | 0 <= i < j < |ps| ensures ps[i].startDay <= ps[j].startDay {
        if j < |ps| - 1 {
          assert init[i] == ps[i] && init[j] == ps[j];
        } else if i < j - 1 {
          assert init[i] == ps[i] && init[j - 1] == ps[j - 1];
        }
      }
    }
  }
}
