/** The period pipeline: periods sorted by start, cycle and period lengths in whole days,
    the plausibility/outlier mask over cycle lengths, and the rounded exponentially
    weighted averages of cycle and period lengths. */
module CycleAnalysis {
  import opened Wrappers
  import opened Config
  import opened Ewm

  /** A logged period: start day, optional end day and optional luteal length. The start
      instant is the start day's midnight, the end instant the last microsecond of the end
      day. */
  datatype Period = Period(startDay: int, endDay: Option<int>, lutealLength: Option<int>)

  // ----- instants and whole days -----

  const MicrosPerDay: int := 86_400_000_000

  function StartInstant(day: int): int {
    day * MicrosPerDay
  }

  function EndInstant(day: int): int {
    day * MicrosPerDay + MicrosPerDay - 1
  }

  /** The `days` component of a time difference: the floor of the difference in days. */
  function WholeDays(micros: int): int {
    micros / MicrosPerDay
  }

  lemma FloorOfDays(k: int, r: int)
    requires 0 <= r < MicrosPerDay
    ensures WholeDays(k * MicrosPerDay + r) == k
  {
  }

  // ----- sorting by start -----

  ghost predicate SortedByStart(ps: seq<Period>) {
    forall i, j :: 0 <= i < j < |ps| ==> ps[i].startDay <= ps[j].startDay
  }

  /** Places p after every period that starts no later than it, scanning from the end. */
  function Insert(ps: seq<Period>, p: Period): (r: seq<Period>)
    ensures |r| == |ps| + 1
  {
    if |ps| == 0 then [p]
    else if ps[|ps| - 1].startDay <= p.startDay then ps + [p]
    else Insert(ps[..|ps| - 1], p) + [ps[|ps| - 1]]
  }

  /** The periods in order of start day; equal starts keep their input order. */
  function SortByStart(ps: seq<Period>): (r: seq<Period>)
    ensures |r| == |ps|
  {
    if |ps| == 0 then []
    else Insert(SortByStart(ps[..|ps| - 1]), ps[|ps| - 1])
  }

  lemma {:induction false} InsertPermutes(ps: seq<Period>, p: Period)
    ensures multiset(Insert(ps, p)) == multiset(ps) + multiset{p}
  {
    if |ps| > 0 && ps[|ps| - 1].startDay > p.startDay {
      InsertPermutes(ps[..|ps| - 1], p);
      assert ps == ps[..|ps| - 1] + [ps[|ps| - 1]];
    }
  }

  lemma {:induction false} InsertSorted(ps: seq<Period>, p: Period)
    requires SortedByStart(ps)
    ensures SortedByStart(Insert(ps, p))
  {
    if |ps| > 0 && ps[|ps| - 1].startDay > p.startDay {
      var init, last := ps[..|ps| - 1], ps[|ps| - 1];
      InsertSorted(init, p);
      InsertPermutes(init, p);
      var r := Insert(init, p);
      forall k | 0 <= k < |r| ensures r[k].startDay <= last.startDay {
        assert r[k] in multiset(r);
        if r[k] != p {
          assert r[k] in multiset(init);
        }
      }
    }
  }

  /** The sort's output is in start order. */
  lemma {:induction false} SortSorted(ps: seq<Period>)
    ensures SortedByStart(SortByStart(ps))
  {
    if |ps| > 0 {
      SortSorted(ps[..|ps| - 1]);
      InsertSorted(SortByStart(ps[..|ps| - 1]), ps[|ps| - 1]);
    }
  }

  /** The sort's output holds exactly the input periods. */
  lemma {:induction false} SortPermutes(ps: seq<Period>)
    ensures multiset(SortByStart(ps)) == multiset(ps)
  {
    if |ps| > 0 {
      SortPermutes(ps[..|ps| - 1]);
      InsertPermutes(SortByStart(ps[..|ps| - 1]), ps[|ps| - 1]);
      assert ps == ps[..|ps| - 1] + [ps[|ps| - 1]];
    }
  }

  /** The latest start day among the periods. */
  function LatestStart(ps: seq<Period>): (d: int)
    requires |ps| > 0
    ensures exists k :: 0 <= k < |ps| && ps[k].startDay == d
    ensures forall k :: 0 <= k < |ps| ==> ps[k].startDay <= d
  {
    if |ps| == 1 then ps[0].startDay
    else
      var rest := LatestStart(ps[1..]);
      assert forall k :: 1 <= k < |ps| ==> ps[k] == ps[1..][k - 1];
      if ps[0].startDay >= rest then ps[0].startDay else rest
  }

  /** The last sorted period starts on the latest start day, whatever the input order. */
  lemma LastSortedIsLatest(ps: seq<Period>)
    requires |ps| > 0
    ensures var s := SortByStart(ps); s[|s| - 1].startDay == LatestStart(ps)
  {
    var s := SortByStart(ps);
    SortSorted(ps);
    SortPermutes(ps);
    var k :| 0 <= k < |ps| && ps[k].startDay == LatestStart(ps);
    assert ps[k] in multiset(s);
    assert s[|s| - 1] in multiset(ps);
  }

  // ----- lengths -----

  /** Days between consecutive starts; the first period has none. (Start instants are
      midnights, so this is the whole-day count of their difference.) */
  function CycleLengths(ps: seq<Period>): (r: seq<Option<int>>)
    ensures |r| == |ps|
    ensures |ps| > 0 ==> r[0] == None
    ensures forall i {:trigger r[i]} :: 1 <= i < |ps| ==> r[i] == Some(ps[i].startDay - ps[i - 1].startDay)
  {
    seq(|ps|, i requires 0 <= i < |ps| =>
      if i == 0 then None
      else
        Some(ps[i].startDay - ps[i - 1].startDay))
  }

  /** Days from start to end; null without an end. (The end instant is the end day's
      last microsecond, and the whole-day count floors it to the calendar difference.) */
  function PeriodLengths(ps: seq<Period>): (r: seq<Option<int>>)
    ensures |r| == |ps|
    ensures forall i :: 0 <= i < |ps| ==>
      r[i] == if ps[i].endDay.None? then None else Some(ps[i].endDay.value - ps[i].startDay)
  {
    seq(|ps|, i requires 0 <= i < |ps| =>
      match ps[i].endDay
      case None => None
      case Some(e) => Some(e - ps[i].startDay))
  }

  /** Each cycle length is the whole days between the two start instants (midnights). */
  lemma CycleLengthsAreWholeDays(ps: seq<Period>, i: int)
    requires 1 <= i < |ps|
    ensures CycleLengths(ps)[i] == Some(WholeDays(StartInstant(ps[i].startDay) - StartInstant(ps[i - 1].startDay)))
  {
    FloorOfDays(ps[i].startDay - ps[i - 1].startDay, 0);
  }

  /** Each period length is the whole days from the start instant (midnight) to the end
      instant (the end day's last microsecond): the partial last day is floored away, so
      a period from the 1st to the 5th lasts 4 days. */
  lemma PeriodLengthsAreWholeDays(ps: seq<Period>, i: int)
    requires 0 <= i < |ps| && ps[i].endDay.Some?
    ensures PeriodLengths(ps)[i] == Some(WholeDays(EndInstant(ps[i].endDay.value) - StartInstant(ps[i].startDay)))
  {
    FloorOfDays(ps[i].endDay.value - ps[i].startDay, MicrosPerDay - 1);
  }

  // ----- plausibility and outliers -----

  /** Non-null and within [MIN_PLAUSIBLE_CYCLE, MAX_PLAUSIBLE_CYCLE]; null compares false. */
  predicate Plausible(c: Option<int>, cfg: Config) {
    c.Some? && cfg.minPlausibleCycle <= c.value <= cfg.maxPlausibleCycle
  }

  /** The non-null entries, in order. */
  function NonNull(xs: seq<Option<int>>): (r: seq<int>)
    ensures |r| <= |xs|
    ensures forall k :: 0 <= k < |r| ==> Some(r[k]) in xs
  {
    if |xs| == 0 then []
    else
      var init := NonNull(xs[..|xs| - 1]);
      assert forall k :: 0 <= k < |init| ==> Some(init[k]) in xs[..|xs| - 1];
      match xs[|xs| - 1]
      case None => init
      case Some(v) => init + [v]
  }

  /** The last n entries (all of them when there are fewer). */
  function Tail<T>(xs: seq<T>, n: nat): (t: seq<T>)
    ensures |t| <= n && |t| <= |xs|
    ensures forall k :: 0 <= k < |t| ==> t[k] in xs
  {
    if |xs| <= n then xs else xs[|xs| - n..]
  }

  function RealSum(xs: seq<int>): real {
    if |xs| == 0 then 0.0 else xs[0] as real + RealSum(xs[1..])
  }

  /** The most recent CYCLE_EWM_SPAN non-null cycle lengths. */
  function RecentLengths(cls: seq<Option<int>>, cfg: Config): (r: seq<int>)
    ensures var nn := NonNull(cls);
      |r| == (if |nn| <= cfg.cycleEwmSpan then |nn| else cfg.cycleEwmSpan) && r == nn[|nn| - |r|..]
  {
    Tail(NonNull(cls), cfg.cycleEwmSpan)
  }

  /** mean x LONG_GAP_MULTIPLIER of the recent lengths, when there are at least three. */
  function MaxAllowed(cls: seq<Option<int>>, cfg: Config): (r: Option<real>)
    ensures r.Some? <==> |RecentLengths(cls, cfg)| >= 3
  {
    var recent := RecentLengths(cls, cfg);
    if |recent| >= 3 then Some(RealSum(recent) / |recent| as real * cfg.longGapMultiplier)
    else None
  }

  /** The validity mask: plausible, and not above the user's own outlier bound when that
      bound exists. */
  function ClassifyCycleLengths(cls: seq<Option<int>>, cfg: Config): (valid: seq<bool>)
    ensures |valid| == |cls|
    ensures forall i :: 0 <= i < |cls| ==>
      (valid[i] <==> Plausible(cls[i], cfg) &&
                     (MaxAllowed(cls, cfg).None? || cls[i].value as real <= MaxAllowed(cls, cfg).value))
  {
    var bound := MaxAllowed(cls, cfg);
    seq(|cls|, i requires 0 <= i < |cls| =>
      Plausible(cls[i], cfg) && (bound.None? || cls[i].value as real <= bound.value))
  }

  /** The first entry of a mask over cycle lengths is never valid. */
  lemma FirstCycleInvalid(ps: seq<Period>, cfg: Config)
    requires |ps| > 0
    ensures !ClassifyCycleLengths(CycleLengths(ps), cfg)[0]
  {
  }

  lemma {:induction false} ConstantRealSum(xs: seq<int>, c: int)
    requires forall k :: 0 <= k < |xs| ==> xs[k] == c
    ensures RealSum(xs) == |xs| as real * c as real
  {
    if |xs| > 0 {
      ConstantRealSum(xs[1..], c);
    }
  }

  /** With every cycle length equal to c (or null), so is every recent length. */
  lemma RecentAllEqual(cls: seq<Option<int>>, c: int, cfg: Config)
    requires forall i :: 0 <= i < |cls| ==> cls[i].None? || cls[i] == Some(c)
    ensures forall k :: 0 <= k < |RecentLengths(cls, cfg)| ==> RecentLengths(cls, cfg)[k] == c
  {
    var nn := NonNull(cls);
    assert forall k :: 0 <= k < |nn| ==> nn[k] == c;
  }

  /** With every cycle length equal to c >= 0 and LONG_GAP_MULTIPLIER >= 1 the outlier
      bound is at least c. */
  lemma MaxAllowedAtLeast(cls: seq<Option<int>>, c: int, cfg: Config)
    requires forall i :: 0 <= i < |cls| ==> cls[i].None? || cls[i] == Some(c)
    requires c >= 0 && cfg.longGapMultiplier >= 1.0
    ensures MaxAllowed(cls, cfg).Some? ==> MaxAllowed(cls, cfg).value >= c as real
  {
    var recent := RecentLengths(cls, cfg);
    if |recent| >= 3 {
      RecentAllEqual(cls, c, cfg);
      ConstantMeanAtLeast(recent, c, cfg.longGapMultiplier);
    }
  }

  /** The mean of lengths all equal to c >= 0, scaled by m >= 1, is at least c. */
  lemma ConstantMeanAtLeast(xs: seq<int>, c: int, m: real)
    requires |xs| > 0 && c >= 0 && m >= 1.0
    requires forall k :: 0 <= k < |xs| ==> xs[k] == c
    ensures RealSum(xs) / |xs| as real * m >= c as real
  {
    ConstantRealSum(xs, c);
    ScaledMeanAtLeast(RealSum(xs), |xs| as real, c as real, m);
  }

  /** The mean of n copies of c, scaled by m >= 1, is at least c >= 0. */
  lemma ScaledMeanAtLeast(sum: real, n: real, c: real, m: real)
    requires n > 0.0 && sum == n * c && c >= 0.0 && m >= 1.0
    ensures sum / n * m >= c
  {
    DivCancel(n, c);
    MulMonotone(c, 1.0, m);
  }

  /** When every cycle length is the same plausible c >= 0 and LONG_GAP_MULTIPLIER >= 1,
      the outlier step keeps every cycle. */
  lemma RegularCyclesValid(cls: seq<Option<int>>, c: int, cfg: Config)
    requires forall i :: 0 <= i < |cls| ==> cls[i].None? || cls[i] == Some(c)
    requires cfg.minPlausibleCycle <= c <= cfg.maxPlausibleCycle && c >= 0
    requires cfg.longGapMultiplier >= 1.0
    ensures forall i :: 0 <= i < |cls| && cls[i].Some? ==> ClassifyCycleLengths(cls, cfg)[i]
  {
    MaxAllowedAtLeast(cls, c, cfg);
  }

  // ----- averages -----

  /** The entries that are non-null and selected by the mask, in order. */
  function Usable(xs: seq<Option<int>>, mask: seq<bool>): (u: seq<int>)
    requires |mask| == |xs|
    ensures forall k :: 0 <= k < |u| ==> exists i :: 0 <= i < |xs| && mask[i] && xs[i] == Some(u[k])
    ensures |u| == 0 <==> forall i :: 0 <= i < |xs| ==> !(mask[i] && xs[i].Some?)
  {
    if |xs| == 0 then []
    else
      var n := |xs| - 1;
      var init := Usable(xs[..n], mask[..n]);
      assert forall i :: 0 <= i < n ==> xs[..n][i] == xs[i] && mask[..n][i] == mask[i];
      if mask[n] && xs[n].Some? then init + [xs[n].value] else init
  }

  /** The number of entries that are non-null and selected by the mask. */
  function CountUsable(xs: seq<Option<int>>, mask: seq<bool>): nat
    requires |mask| == |xs|
  {
    if |xs| == 0 then 0
    else
      var n := |xs| - 1;
      CountUsable(xs[..n], mask[..n]) + if mask[n] && xs[n].Some? then 1 else 0
  }

  /** Where entry i lands among the usable ones: the number of usable entries before it. */
  function Position(xs: seq<Option<int>>, mask: seq<bool>, i: int): nat
    requires |mask| == |xs| && 0 <= i <= |xs|
  {
    CountUsable(xs[..i], mask[..i])
  }

  /** Filtering keeps every masked non-null entry, in order: the usable lengths are as
      many as such entries, and entry i is found at its position. */
  lemma UsableInOrder(xs: seq<Option<int>>, mask: seq<bool>)
    requires |mask| == |xs|
    ensures |Usable(xs, mask)| == CountUsable(xs, mask)
    ensures forall i :: 0 <= i < |xs| && mask[i] && xs[i].Some? ==>
      Position(xs, mask, i) < |Usable(xs, mask)| && Usable(xs, mask)[Position(xs, mask, i)] == xs[i].value
  {
    UsableLength(xs, mask);
    forall i | 0 <= i < |xs| && mask[i] && xs[i].Some?
      ensures Position(xs, mask, i) < |Usable(xs, mask)| && Usable(xs, mask)[Position(xs, mask, i)] == xs[i].value
    {
      UsableAt(xs, mask, i);
    }
  }

  lemma {:induction false} UsableLength(xs: seq<Option<int>>, mask: seq<bool>)
    requires |mask| == |xs|
    ensures |Usable(xs, mask)| == CountUsable(xs, mask)
  {
    if |xs| > 0 {
      UsableLength(xs[..|xs| - 1], mask[..|xs| - 1]);
    }
  }

  lemma {:induction false} UsableAt(xs: seq<Option<int>>, mask: seq<bool>, i: int)
    requires |mask| == |xs| && 0 <= i < |xs| && mask[i] && xs[i].Some?
    ensures Position(xs, mask, i) < |Usable(xs, mask)| && Usable(xs, mask)[Position(xs, mask, i)] == xs[i].value
  {
    var n := |xs| - 1;
    var xs', mask' := xs[..n], mask[..n];
    UsableLength(xs', mask');
    if i < n {
      UsableAt(xs', mask', i);
      assert xs'[..i] == xs[..i] && mask'[..i] == mask[..i];
      assert xs'[i] == xs[i] && mask'[i] == mask[i];
    } else {
      assert xs[..i] == xs' && mask[..i] == mask';
    }
  }

  /** Usable entries keep their relative order: a later one lands at a later position. */
  lemma PositionsIncrease(xs: seq<Option<int>>, mask: seq<bool>, i: int, j: int)
    requires |mask| == |xs| && 0 <= i < j < |xs| && mask[i] && xs[i].Some?
    ensures Position(xs, mask, i) < Position(xs, mask, j)
  {
    assert xs[..i + 1][..i] == xs[..i] && mask[..i + 1][..i] == mask[..i];
    CountMonotone(xs, mask, i + 1, j);
  }

  lemma {:induction false} CountMonotone(xs: seq<Option<int>>, mask: seq<bool>, i: int, j: int)
    requires |mask| == |xs| && 0 <= i <= j <= |xs|
    ensures CountUsable(xs[..i], mask[..i]) <= CountUsable(xs[..j], mask[..j])
    decreases j - i
  {
    if i < j {
      CountMonotone(xs, mask, i, j - 1);
      assert xs[..j][..j - 1] == xs[..j - 1] && mask[..j][..j - 1] == mask[..j - 1];
    }
  }

  function AsSeries(xs: seq<int>): (s: seq<Option<real>>)
    ensures |s| == |xs|
    ensures forall k :: 0 <= k < |xs| ==> s[k] == Some(xs[k] as real)
  {
    seq(|xs|, k requires 0 <= k < |xs| => Some(xs[k] as real))
  }

  /** The adjust=False EWM of the lengths, last value, rounded half to even. */
  function RoundedEwm(xs: seq<int>, span: nat): int
    requires |xs| > 0 && span >= 1
  {
    var s := AsSeries(xs);
    EwmScanPresent(s, Alpha(span), false);
    RoundHalfEven(EwmLast(s, Alpha(span), false).value)
  }

  /** The rounded average stays within integer bounds of the lengths. */
  lemma RoundedEwmWithin(xs: seq<int>, span: nat, lo: int, hi: int)
    requires |xs| > 0 && span >= 1
    requires forall k :: 0 <= k < |xs| ==> lo <= xs[k] <= hi
    ensures lo <= RoundedEwm(xs, span) <= hi
  {
    var s := AsSeries(xs);
    EwmScanPresent(s, Alpha(span), false);
    EwmScanWithin(s, Alpha(span), false, lo as real, hi as real);
    RoundWithin(EwmLast(s, Alpha(span), false).value, lo, hi);
  }

  /** Rounded EWM of the usable cycle lengths; null when none is usable. */
  function CycleAverage(cls: seq<Option<int>>, valid: seq<bool>, cfg: Config): (avg: Option<int>)
    requires cfg.Valid() && |valid| == |cls|
    ensures avg.None? <==> forall i :: 0 <= i < |cls| ==> !(valid[i] && cls[i].Some?)
  {
    var usable := Usable(cls, valid);
    if |usable| < 1 then None else Some(RoundedEwm(usable, cfg.cycleEwmSpan))
  }

  /** Rounded EWM of the period lengths that have an end; null when none has. */
  function PeriodAverage(pls: seq<Option<int>>, cfg: Config): (avg: Option<int>)
    requires cfg.Valid()
    ensures avg.None? <==> forall i :: 0 <= i < |pls| ==> pls[i].None?
  {
    var usable := Usable(pls, seq(|pls|, _ => true));
    if |usable| < 1 then None else Some(RoundedEwm(usable, cfg.cycleEwmSpan))
  }

  /** The cycle average lies between the smallest and largest usable length; with every
      usable length equal to c it is c. */
  lemma CycleAverageWithin(cls: seq<Option<int>>, valid: seq<bool>, cfg: Config, lo: int, hi: int)
    requires cfg.Valid() && |valid| == |cls|
    requires forall i :: 0 <= i < |cls| && valid[i] && cls[i].Some? ==> lo <= cls[i].value <= hi
    ensures CycleAverage(cls, valid, cfg).Some? ==> lo <= CycleAverage(cls, valid, cfg).value <= hi
  {
    var usable := Usable(cls, valid);
    if |usable| >= 1 {
      RoundedEwmWithin(usable, cfg.cycleEwmSpan, lo, hi);
    }
  }

  /** The period average lies between the smallest and largest recorded period length;
      with every recorded length equal to c it is c. */
  lemma PeriodAverageWithin(pls: seq<Option<int>>, cfg: Config, lo: int, hi: int)
    requires cfg.Valid()
    requires forall i :: 0 <= i < |pls| && pls[i].Some? ==> lo <= pls[i].value <= hi
    ensures PeriodAverage(pls, cfg).Some? ==> lo <= PeriodAverage(pls, cfg).value <= hi
  {
    var usable := Usable(pls, seq(|pls|, _ => true));
    if |usable| >= 1 {
      RoundedEwmWithin(usable, cfg.cycleEwmSpan, lo, hi);
    }
  }
}
