/** The luteal phase: the sustained temperature rise before a period, the length of the
    phase it opens, and the average of the lengths stored on a user's periods. */
module Luteal {
  import opened Wrappers
  import opened Config
  import opened Ewm
  import opened TemperatureSeries
  import opened CycleAnalysis

  // ----- the lookback window -----

  /** First frame row of the window: the row of day periodStart - MAX_LOOKBACK_DAYS,
      or the first row when the frame starts later. */
  function WindowLo(f: DailyFrame, periodStart: int, cfg: Config): (lo: int)
    ensures lo >= 0
    ensures lo >= periodStart - cfg.maxLookbackDays - f.firstDay
    ensures lo == 0 || f.firstDay + lo == periodStart - cfg.maxLookbackDays
  {
    var d := periodStart - cfg.maxLookbackDays - f.firstDay;
    if d > 0 then d else 0
  }

  /** One past the last frame row of the window: the row of the day before the period
      starts, or the end of the frame when it stops earlier. */
  function WindowHi(f: DailyFrame, periodStart: int): (hi: int)
    ensures hi <= |f.temps|
    ensures hi <= periodStart - f.firstDay
    ensures hi == |f.temps| || f.firstDay + hi == periodStart
  {
    var d := periodStart - f.firstDay;
    if d < |f.temps| then d else |f.temps|
  }

  /** A frame row of the window holds exactly a day from periodStart - MAX_LOOKBACK_DAYS
      up to, not including, the period's start day. */
  lemma WindowRows(f: DailyFrame, periodStart: int, cfg: Config, i: int)
    ensures WindowLo(f, periodStart, cfg) <= i < WindowHi(f, periodStart) <==>
      0 <= i < |f.temps| && periodStart - cfg.maxLookbackDays <= f.firstDay + i < periodStart
  {
  }

  // ----- elevated runs -----

  /** A row is elevated when its day has a reading at least ELEVATION_MIN_DELTA above
      the baseline at that row; a day without readings never is. */
  predicate ElevatedRow(temps: seq<Option<real>>, base: seq<Option<real>>, i: int, minDelta: real)
    requires |base| == |temps|
  {
    0 <= i < |temps| && temps[i].Some? && base[i].Some? &&
    temps[i].value >= base[i].value + minDelta
  }

  /** Rows e - n + 1 .. e, none of them before row lo, are all elevated (n >= 1). */
  ghost predicate RunEndsAt(temps: seq<Option<real>>, base: seq<Option<real>>, lo: int, e: int, n: nat, minDelta: real)
    requires |base| == |temps|
  {
    n >= 1 && lo <= e - n + 1 &&
    forall k :: e - n + 1 <= k <= e ==> ElevatedRow(temps, base, k, minDelta)
  }

  /** e is the first row of [lo, hi) where such a run ends. */
  ghost predicate FirstRunEndsAt(temps: seq<Option<real>>, base: seq<Option<real>>, lo: int, hi: int, e: int, n: nat, minDelta: real)
    requires |base| == |temps|
  {
    lo <= e < hi && RunEndsAt(temps, base, lo, e, n, minDelta) &&
    forall e' :: lo <= e' < e ==> !RunEndsAt(temps, base, lo, e', n, minDelta)
  }

  /** The length of the elevated run that ends just before row i, not counting rows
      before lo. */
  ghost function RunLength(temps: seq<Option<real>>, base: seq<Option<real>>, lo: int, i: int, minDelta: real): nat
    requires |base| == |temps|
    decreases i - lo
  {
    if i <= lo || !ElevatedRow(temps, base, i - 1, minDelta) then 0
    else RunLength(temps, base, lo, i - 1, minDelta) + 1
  }

  /** The run before row i is at least n long exactly when the n rows before i lie in
      the window and are all elevated. */
  lemma {:induction false} RunLengthCovers(temps: seq<Option<real>>, base: seq<Option<real>>, lo: int, i: int, n: nat, minDelta: real)
    requires |base| == |temps| && lo <= i
    ensures RunLength(temps, base, lo, i, minDelta) >= n <==>
      lo <= i - n && forall k :: i - n <= k < i ==> ElevatedRow(temps, base, k, minDelta)
    decreases i - lo
  {
    if n > 0 && i > lo && ElevatedRow(temps, base, i - 1, minDelta) {
      RunLengthCovers(temps, base, lo, i - 1, n - 1, minDelta);
    }
  }

  /** A run ends at e exactly when the run counted up to e reaches n. */
  lemma RunEndsIff(temps: seq<Option<real>>, base: seq<Option<real>>, lo: int, e: int, n: nat, minDelta: real)
    requires |base| == |temps| && lo <= e && n >= 1
    ensures RunEndsAt(temps, base, lo, e, n, minDelta) <==> RunLength(temps, base, lo, e + 1, minDelta) >= n
  {
    RunLengthCovers(temps, base, lo, e + 1, n, minDelta);
  }

  /** Only the first run can be the first. */
  lemma FirstRunUnique(temps: seq<Option<real>>, base: seq<Option<real>>, lo: int, hi: int, e1: int, e2: int, n: nat, minDelta: real)
    requires |base| == |temps|
    requires FirstRunEndsAt(temps, base, lo, hi, e1, n, minDelta)
    requires FirstRunEndsAt(temps, base, lo, hi, e2, n, minDelta)
    ensures e1 == e2
  {
  }

  /** Scans the lookback window before a period, row by row in day order, for the first
      ELEVATION_DAYS_REQUIRED consecutive elevated days, against the baseline EWM of the
      whole frame. Returns the first day of that run, or null when there is none (no
      readings, an empty window, no run long enough, or a run length of zero). */
  method DetectElevatedPhaseStart(rs: seq<Reading>, periodStart: int, cfg: Config) returns (r: Option<int>)
    requires cfg.Valid()
    ensures var f := TemperaturesToFrame(rs);
      var base := Baseline(f, cfg);
      var lo, hi := WindowLo(f, periodStart, cfg), WindowHi(f, periodStart);
      var n := cfg.elevationDaysRequired;
      (r.None? <==> forall e :: lo <= e < hi ==> !RunEndsAt(f.temps, base, lo, e, n, cfg.elevationMinDelta)) &&
      (r.Some? ==> exists e :: FirstRunEndsAt(f.temps, base, lo, hi, e, n, cfg.elevationMinDelta) &&
                              r.value == f.firstDay + e - n + 1)
    ensures r.Some? ==> periodStart - cfg.maxLookbackDays <= r.value &&
                        r.value + cfg.elevationDaysRequired <= periodStart
  {
    var f := TemperaturesToFrame(rs);
    if |f.temps| == 0 {
      return None;
    }
    var base := Baseline(f, cfg);
    var lo, hi := WindowLo(f, periodStart, cfg), WindowHi(f, periodStart);
    var n := cfg.elevationDaysRequired;
    var e := FirstRun(f.temps, base, lo, hi, n, cfg.elevationMinDelta);
    if e.Some? {
      r := Some(f.firstDay + e.value - (n - 1));
    } else {
      r := None;
    }
  }

  /** The row scan of the window [lo, hi): counts consecutive elevated rows and stops at
      the first row where the count reaches n. */
  method FirstRun(temps: seq<Option<real>>, base: seq<Option<real>>, lo: int, hi: int, n: nat, minDelta: real)
    returns (r: Option<int>)
    requires |base| == |temps|
    ensures r.None? <==> forall e :: lo <= e < hi ==> !RunEndsAt(temps, base, lo, e, n, minDelta)
    ensures r.Some? ==> FirstRunEndsAt(temps, base, lo, hi, r.value, n, minDelta)
  {
    var consecutive: nat := 0;
    var e := lo;
    while e < hi
      invariant lo <= e && (e <= hi || e == lo)
      invariant consecutive == RunLength(temps, base, lo, e, minDelta)
      invariant n == 0 || consecutive < n
      invariant forall e' :: lo <= e' < e ==> !RunEndsAt(temps, base, lo, e', n, minDelta)
      decreases hi - e
    {
      if ElevatedRow(temps, base, e, minDelta) {
        consecutive := consecutive + 1;
        if consecutive == n {
          RunEndsIff(temps, base, lo, e, n, minDelta);
          return Some(e);
        }
      } else {
        consecutive := 0;
      }
      if n >= 1 {
        RunEndsIff(temps, base, lo, e, n, minDelta);
      }
      e := e + 1;
    }
    return None;
  }

  // ----- luteal length -----

  /** The luteal phase begins the day before the rise; its length counts the days from
      then to the period's start day. */
  function LutealLength(elevatedStart: int, periodStart: int): (n: int)
    ensures (elevatedStart - 1) + n == periodStart
  {
    periodStart - (elevatedStart - 1)
  }

  /** MIN_LUTEAL_DAYS to MAX_LUTEAL_DAYS, both inclusive. */
  predicate IsValidLutealLength(n: int, cfg: Config) {
    cfg.minLutealDays <= n <= cfg.maxLutealDays
  }

  /** A rise found in the window gives a luteal length from ELEVATION_DAYS_REQUIRED + 1
      up to MAX_LOOKBACK_DAYS + 1 days. */
  lemma LutealLengthRange(elevatedStart: int, periodStart: int, cfg: Config)
    requires periodStart - cfg.maxLookbackDays <= elevatedStart
    requires elevatedStart + cfg.elevationDaysRequired <= periodStart
    ensures cfg.elevationDaysRequired + 1 <= LutealLength(elevatedStart, periodStart) <= cfg.maxLookbackDays + 1
  {
  }

  /** A rise 15 days before the period start makes a 16-day luteal phase. */
  lemma FifteenDaysBefore(periodStart: int)
    ensures LutealLength(periodStart - 15, periodStart) == 16
  {
  }

  /** After a period is recorded: looks for the rise before it in the given readings
      (those of the lookback window, fetched by the caller) and stores the luteal length
      on the period only when a rise was found and the length is valid; otherwise the
      period is left as it was. */
  method UpdateLutealLength(rs: seq<Reading>, p: Period, cfg: Config) returns (q: Period)
    requires cfg.Valid()
    ensures q.startDay == p.startDay && q.endDay == p.endDay
    ensures var f := TemperaturesToFrame(rs);
      var base := Baseline(f, cfg);
      var lo, hi := WindowLo(f, p.startDay, cfg), WindowHi(f, p.startDay);
      var n := cfg.elevationDaysRequired;
      (forall e :: lo <= e < hi ==> !RunEndsAt(f.temps, base, lo, e, n, cfg.elevationMinDelta)) ==> q == p
    ensures var f := TemperaturesToFrame(rs);
      var base := Baseline(f, cfg);
      var lo, hi := WindowLo(f, p.startDay, cfg), WindowHi(f, p.startDay);
      var n := cfg.elevationDaysRequired;
      forall e :: FirstRunEndsAt(f.temps, base, lo, hi, e, n, cfg.elevationMinDelta) ==>
        var len := LutealLength(f.firstDay + e - n + 1, p.startDay);
        q.lutealLength == (if IsValidLutealLength(len, cfg) then Some(len) else p.lutealLength)
    ensures q.lutealLength != p.lutealLength ==>
      q.lutealLength.Some? && IsValidLutealLength(q.lutealLength.value, cfg)
  {
    var elevatedStart := DetectElevatedPhaseStart(rs, p.startDay, cfg);
    q := p;
    if elevatedStart.Some? {
      var len := LutealLength(elevatedStart.value, p.startDay);
      if IsValidLutealLength(len, cfg) {
        q := p.(lutealLength := Some(len));
      }
      ghost var f := TemperaturesToFrame(rs);
      ghost var base := Baseline(f, cfg);
      ghost var lo, hi := WindowLo(f, p.startDay, cfg), WindowHi(f, p.startDay);
      ghost var n := cfg.elevationDaysRequired;
      ghost var e0 :| FirstRunEndsAt(f.temps, base, lo, hi, e0, n, cfg.elevationMinDelta) &&
                      elevatedStart.value == f.firstDay + e0 - n + 1;
      forall e | FirstRunEndsAt(f.temps, base, lo, hi, e, n, cfg.elevationMinDelta)
        ensures e == e0
      {
        FirstRunUnique(f.temps, base, lo, hi, e, e0, n, cfg.elevationMinDelta);
      }
    }
  }

  // ----- average luteal length -----

  /** The stored luteal lengths of the periods, in frame order, as a nullable series. */
  function LutealSeries(df: seq<Period>): (s: seq<Option<real>>)
    ensures |s| == |df|
    ensures forall i :: 0 <= i < |df| ==> s[i].Some? == df[i].lutealLength.Some?
    ensures forall i :: 0 <= i < |df| && df[i].lutealLength.Some? ==> s[i] == Some(df[i].lutealLength.value as real)
  {
    seq(|df|, i requires 0 <= i < |df| =>
      if df[i].lutealLength.Some? then Some(df[i].lutealLength.value as real) else None)
  }

  /** The adjust=True EWM (span 3) of the luteal lengths over the frame's rows, last
      value, rounded half to even; null with fewer than two rows or no stored length.
      Rows without a length still age the earlier ones. */
  function AverageLutealLength(df: seq<Period>): (avg: Option<int>)
    ensures avg.None? <==> |df| < 2 || forall i :: 0 <= i < |df| ==> df[i].lutealLength.None?
  {
    if |df| < 2 || forall i :: 0 <= i < |df| ==> df[i].lutealLength.None? then None
    else
      var s := LutealSeries(df);
      EwmScanPresent(s, Alpha(3), true);
      Some(RoundHalfEven(EwmLast(s, Alpha(3), true).value))
  }

  /** The average lies between the smallest and largest stored length; with every stored
      length equal to c it is c. */
  lemma AverageLutealWithin(df: seq<Period>, lo: int, hi: int)
    requires forall i :: 0 <= i < |df| && df[i].lutealLength.Some? ==> lo <= df[i].lutealLength.value <= hi
    ensures AverageLutealLength(df).Some? ==> lo <= AverageLutealLength(df).value <= hi
  {
    if AverageLutealLength(df).Some? {
      var s := LutealSeries(df);
      EwmScanPresent(s, Alpha(3), true);
      EwmScanWithin(s, Alpha(3), true, lo as real, hi as real);
      RoundWithin(EwmLast(s, Alpha(3), true).value, lo, hi);
    }
  }

  /** Two or more periods all carrying the same luteal length c average to c. */
  lemma ConsistentLutealAverage(df: seq<Period>, c: int)
    requires |df| >= 2
    requires forall i :: 0 <= i < |df| ==> df[i].lutealLength == Some(c)
    ensures AverageLutealLength(df) == Some(c)
  {
    assert df[0].lutealLength.Some?;
    AverageLutealWithin(df, c, c);
  }
}
