/** Temperature readings turned into a daily series (one row per calendar day, missing
    days null), the two exponentially weighted means over it, and the long-gap guard. */
module TemperatureSeries {
  import opened Wrappers
  import opened Config
  import opened Ewm

  /** A reading: the calendar day of its timestamp and the temperature in degrees. */
  datatype Reading = Reading(day: int, temperature: real)

  /** The daily frame: row i is the mean temperature of day firstDay + i, or null when
      nothing was recorded that day. */
  datatype DailyFrame = DailyFrame(firstDay: int, temps: seq<Option<real>>)

  /** Sum of f over the readings. */
  function SumBy(rs: seq<Reading>, f: Reading -> real): real {
    if |rs| == 0 then 0.0 else f(rs[0]) + SumBy(rs[1..], f)
  }

  /** A reading's temperature when it was taken on day d, else nothing. */
  function TemperatureOn(d: int): Reading -> real {
    (r: Reading) => if r.day == d then r.temperature else 0.0
  }

  /** One for a reading taken on day d, else nothing. */
  function OneOn(d: int): Reading -> real {
    (r: Reading) => if r.day == d then 1.0 else 0.0
  }

  function DaySum(rs: seq<Reading>, d: int): real {
    SumBy(rs, TemperatureOn(d))
  }

  function DayCount(rs: seq<Reading>, d: int): real {
    SumBy(rs, OneOn(d))
  }

  ghost predicate RecordedOn(rs: seq<Reading>, d: int) {
    exists k :: 0 <= k < |rs| && rs[k].day == d
  }

  /** Mean temperature of day d, null when the day has no reading. */
  function DayMean(rs: seq<Reading>, d: int): (m: Option<real>)
    ensures m.Some? <==> RecordedOn(rs, d)
  {
    DayCountSign(rs, d);
    if DayCount(rs, d) == 0.0 then None else Some(DaySum(rs, d) / DayCount(rs, d))
  }

  function MinDay(rs: seq<Reading>): (d: int)
    requires |rs| > 0
    ensures RecordedOn(rs, d)
    ensures forall k :: 0 <= k < |rs| ==> d <= rs[k].day
  {
    if |rs| == 1 then rs[0].day
    else
      var rest := MinDay(rs[1..]);
      assert forall k :: 1 <= k < |rs| ==> rs[k] == rs[1..][k - 1];
      if rs[0].day <= rest then rs[0].day else rest
  }

  function MaxDay(rs: seq<Reading>): (d: int)
    requires |rs| > 0
    ensures RecordedOn(rs, d)
    ensures forall k :: 0 <= k < |rs| ==> rs[k].day <= d
  {
    if |rs| == 1 then rs[0].day
    else
      var rest := MaxDay(rs[1..]);
      assert forall k :: 1 <= k < |rs| ==> rs[k] == rs[1..][k - 1];
      if rs[0].day >= rest then rs[0].day else rest
  }

  /** The means of n consecutive days from day lo. */
  function DailyMeans(rs: seq<Reading>, lo: int, n: nat): (temps: seq<Option<real>>)
    ensures |temps| == n
    ensures forall i :: 0 <= i < n ==> temps[i] == DayMean(rs, lo + i)
  {
    seq(n, i => DayMean(rs, lo + i))
  }

  /** The daily resampling of the readings: every calendar day from the first reading's
      day to the last one's gets a row, the mean of that day's readings or null. */
  function TemperaturesToFrame(rs: seq<Reading>): (f: DailyFrame)
    ensures |f.temps| == 0 <==> |rs| == 0
    ensures |rs| > 0 ==> f.temps[0].Some? && f.temps[|f.temps| - 1].Some?
    ensures forall k :: 0 <= k < |rs| ==> f.firstDay <= rs[k].day < f.firstDay + |f.temps|
    ensures forall i :: 0 <= i < |f.temps| ==> (f.temps[i].Some? <==> RecordedOn(rs, f.firstDay + i))
  {
    if |rs| == 0 then DailyFrame(0, [])
    else
      var lo, hi := MinDay(rs), MaxDay(rs);
      var temps := DailyMeans(rs, lo, hi - lo + 1);
      assert temps[0] == DayMean(rs, lo) && temps[hi - lo] == DayMean(rs, hi);
      DailyFrame(lo, temps)
  }

  /** Short exponentially weighted mean of the daily series (adjust=False). */
  function SmoothedTemperature(f: DailyFrame, cfg: Config): (s: seq<Option<real>>)
    requires cfg.Valid()
    ensures |s| == |f.temps|
  {
    EwmMean(f.temps, Alpha(cfg.smoothingSpanDays), false)
  }

  /** Long exponentially weighted mean of the daily series (adjust=False). */
  function Baseline(f: DailyFrame, cfg: Config): (b: seq<Option<real>>)
    requires cfg.Valid()
    ensures |b| == |f.temps|
  {
    EwmMean(f.temps, Alpha(cfg.baselineSpanDays), false)
  }

  // ----- long-gap guard -----

  /** Positions of the non-null rows, in increasing order. */
  function PresentRows(temps: seq<Option<real>>): (r: seq<int>)
    ensures forall k :: 0 <= k < |r| ==> 0 <= r[k] < |temps| && temps[r[k]].Some?
    ensures forall k1, k2 :: 0 <= k1 < k2 < |r| ==> r[k1] < r[k2]
    ensures forall i :: 0 <= i < |temps| && temps[i].Some? ==> i in r
  {
    if |temps| == 0 then []
    else
      var init := PresentRows(temps[..|temps| - 1]);
      if temps[|temps| - 1].Some? then init + [|temps| - 1] else init
  }

  /** Largest difference between neighbours of an increasing sequence; null with fewer
      than two entries. */
  function MaxGap(xs: seq<int>): (g: Option<int>)
    ensures g.Some? <==> |xs| >= 2
    ensures g.Some? ==> forall k :: 1 <= k < |xs| ==> xs[k] - xs[k - 1] <= g.value
  {
    if |xs| < 2 then None
    else
      var last := xs[|xs| - 1] - xs[|xs| - 2];
      var init := MaxGap(xs[..|xs| - 1]);
      PrefixGaps(xs);
      if init.Some? && init.value >= last then init else Some(last)
  }

  /** Dropping the last entry keeps the gaps between the others. */
  lemma PrefixGaps(xs: seq<int>)
    requires |xs| >= 2
    ensures forall k :: 1 <= k < |xs| - 1 ==> xs[..|xs| - 1][k] - xs[..|xs| - 1][k - 1] == xs[k] - xs[k - 1]
  {
  }

  /** Whether two present readings are further apart than the tolerated gap. Rows are
      consecutive days, so a distance in rows is a distance in days. */
  function HasLongGap(f: DailyFrame, cfg: Config): (r: bool)
    ensures r ==> |f.temps| >= 2
  {
    if |f.temps| < 2 then false
    else
      match MaxGap(PresentRows(f.temps))
      case None => false
      case Some(g) => g > cfg.maxMissingDays
  }

  /** Rows i < j are both present and nothing was recorded in between. */
  ghost predicate ConsecutivePresent(temps: seq<Option<real>>, i: int, j: int) {
    0 <= i < j < |temps| && temps[i].Some? && temps[j].Some?
    && forall m :: i < m < j ==> temps[m].None?
  }

  /** Neighbours in PresentRows are consecutive present rows. */
  lemma NeighboursConsecutive(temps: seq<Option<real>>, k: int)
    requires 1 <= k < |PresentRows(temps)|
    ensures ConsecutivePresent(temps, PresentRows(temps)[k - 1], PresentRows(temps)[k])
  {
    var r := PresentRows(temps);
    forall m | r[k - 1] < m < r[k] ensures temps[m].None? {
      NoEntryBetween(r, k, m);
    }
  }

  /** No entry of an increasing sequence lies strictly between two neighbours. */
  lemma NoEntryBetween(r: seq<int>, k: int, m: int)
    requires forall k1, k2 :: 0 <= k1 < k2 < |r| ==> r[k1] < r[k2]
    requires 1 <= k < |r| && r[k - 1] < m < r[k]
    ensures m !in r
  {
    forall c | 0 <= c < |r| ensures r[c] != m {
      if c < k - 1 {
        assert r[c] < r[k - 1];
      } else if c > k {
        assert r[k] < r[c];
      }
    }
  }

  lemma NothingRecordedBetween(temps: seq<Option<real>>, i: int, j: int, m: int)
    ensures ConsecutivePresent(temps, i, j) && i < m < j ==> temps[m].None?
  {
  }

  /** Consecutive present rows are neighbours in PresentRows. */
  lemma ConsecutiveNeighbours(temps: seq<Option<real>>, i: int, j: int) returns (k: int)
    requires ConsecutivePresent(temps, i, j)
    ensures 1 <= k < |PresentRows(temps)| && PresentRows(temps)[k - 1] == i && PresentRows(temps)[k] == j
  {
    var r := PresentRows(temps);
    assert i in r && j in r;
    var a :| 0 <= a < |r| && r[a] == i;
    var b :| 0 <= b < |r| && r[b] == j;
    assert a < b;
    if a + 1 < |r| {
      NothingRecordedBetween(temps, i, j, r[a + 1]);
    }
    k := b;
  }

  lemma LongGapHasWitness(f: DailyFrame, cfg: Config) returns (i: int, j: int)
    requires HasLongGap(f, cfg)
    ensures ConsecutivePresent(f.temps, i, j) && j - i > cfg.maxMissingDays
  {
    var r := PresentRows(f.temps);
    var k := MaxGapAt(r);
    NeighboursConsecutive(f.temps, k);
    i, j := r[k - 1], r[k];
  }

  /** Where the largest gap sits. */
  lemma {:induction false} MaxGapAt(xs: seq<int>) returns (k: int)
    requires |xs| >= 2
    ensures 1 <= k < |xs| && xs[k] - xs[k - 1] == MaxGap(xs).value
  {
    var init := xs[..|xs| - 1];
    var m := MaxGap(init);
    PrefixGaps(xs);
    if m.Some? && m.value >= xs[|xs| - 1] - xs[|xs| - 2] {
      k := MaxGapAt(init);
    } else {
      k := |xs| - 1;
    }
  }

  lemma WitnessMakesLongGap(f: DailyFrame, cfg: Config, i: int, j: int)
    requires ConsecutivePresent(f.temps, i, j) && j - i > cfg.maxMissingDays
    ensures HasLongGap(f, cfg)
  {
    var r := PresentRows(f.temps);
    var k := ConsecutiveNeighbours(f.temps, i, j);
    var g := MaxGap(r);
    assert r[k] - r[k - 1] <= g.value;
  }

  /** The gap guard fires exactly when two consecutive present days are more than
      MAX_MISSING_DAYS apart (and never on fewer than two rows). */
  lemma HasLongGapIff(f: DailyFrame, cfg: Config)
    ensures HasLongGap(f, cfg) <==>
      |f.temps| >= 2 && exists i, j :: ConsecutivePresent(f.temps, i, j) && j - i > cfg.maxMissingDays
  {
    if HasLongGap(f, cfg) {
      var i, j := LongGapHasWitness(f, cfg);
    }
    if exists i, j :: ConsecutivePresent(f.temps, i, j) && j - i > cfg.maxMissingDays {
      var i, j :| ConsecutivePresent(f.temps, i, j) && j - i > cfg.maxMissingDays;
      WitnessMakesLongGap(f, cfg, i, j);
    }
  }

  // ----- properties of the daily frame -----

  lemma {:induction false} SumByAppend(a: seq<Reading>, b: seq<Reading>, f: Reading -> real)
    ensures SumBy(a + b, f) == SumBy(a, f) + SumBy(b, f)
  {
    if |a| == 0 {
      assert a + b == b;
    } else {
      assert (a + b)[1..] == a[1..] + b;
      SumByAppend(a[1..], b, f);
    }
  }

  /** A sum over readings does not depend on their order. */
  lemma {:induction false} SumByPermutation(rs: seq<Reading>, qs: seq<Reading>, f: Reading -> real)
    requires multiset(rs) == multiset(qs)
    ensures SumBy(rs, f) == SumBy(qs, f)
  {
    if |rs| > 0 {
      var x := rs[0];
      assert x in multiset(qs);
      var k :| 0 <= k < |qs| && qs[k] == x;
      var rest := qs[..k] + qs[k + 1..];
      MultisetRemove(qs, k);
      assert rs == [x] + rs[1..];
      assert multiset(rs[1..]) == multiset(rs) - multiset{x};
      SumByPermutation(rs[1..], rest, f);
      SumByRemove(qs, k, f);
    }
  }

  lemma MultisetRemove(qs: seq<Reading>, k: int)
    requires 0 <= k < |qs|
    ensures multiset(qs[..k] + qs[k + 1..]) == multiset(qs) - multiset{qs[k]}
  {
    SplitAt(qs, k);
  }

  lemma SumByRemove(qs: seq<Reading>, k: int, f: Reading -> real)
    requires 0 <= k < |qs|
    ensures SumBy(qs, f) == f(qs[k]) + SumBy(qs[..k] + qs[k + 1..], f)
  {
    var a, x, b := qs[..k], qs[k], qs[k + 1..];
    SplitAt(qs, k);
    SumByAppend(a + [x], b, f);
    SumByAppend(a, [x], f);
    SumBySingle(x, f);
    SumByAppend(a, b, f);
  }

  lemma SplitAt(qs: seq<Reading>, k: int)
    requires 0 <= k < |qs|
    ensures qs == (qs[..k] + [qs[k]]) + qs[k + 1..]
  {
  }

  lemma SumBySingle(x: Reading, f: Reading -> real)
    ensures SumBy([x], f) == f(x)
  {
    assert [x][1..] == [];
  }

  lemma {:induction false} DayCountSign(rs: seq<Reading>, d: int)
    ensures DayCount(rs, d) >= 0.0
    ensures DayCount(rs, d) > 0.0 <==> RecordedOn(rs, d)
  {
    if |rs| > 0 {
      DayCountSign(rs[1..], d);
      if RecordedOn(rs[1..], d) {
        var k :| 0 <= k < |rs[1..]| && rs[1..][k].day == d;
        assert rs[k + 1].day == d;
      }
      if RecordedOn(rs, d) && rs[0].day != d {
        var k :| 0 <= k < |rs| && rs[k].day == d;
        assert rs[1..][k - 1].day == d;
      }
    }
  }

  /** Readings with the same multiset of (day, temperature) give every day the same mean. */
  lemma DayMeanIgnoresOrder(rs: seq<Reading>, qs: seq<Reading>, d: int)
    requires multiset(rs) == multiset(qs)
    ensures DayMean(rs, d) == DayMean(qs, d)
  {
    SumByPermutation(rs, qs, TemperatureOn(d));
    SumByPermutation(rs, qs, OneOn(d));
  }

  lemma DayRangeIgnoresOrder(rs: seq<Reading>, qs: seq<Reading>)
    requires |rs| > 0 && multiset(rs) == multiset(qs)
    ensures |qs| > 0 && MinDay(rs) == MinDay(qs) && MaxDay(rs) == MaxDay(qs)
  {
    assert |qs| > 0 by { assert |multiset(qs)| == |multiset(rs)|; }
    var a, b := MinDay(rs), MinDay(qs);
    var ka :| 0 <= ka < |rs| && rs[ka].day == a;
    var kb :| 0 <= kb < |qs| && qs[kb].day == b;
    assert rs[ka] in multiset(qs) && qs[kb] in multiset(rs);
    var c, e := MaxDay(rs), MaxDay(qs);
    var kc :| 0 <= kc < |rs| && rs[kc].day == c;
    var ke :| 0 <= ke < |qs| && qs[ke].day == e;
    assert rs[kc] in multiset(qs) && qs[ke] in multiset(rs);
  }

  lemma DailyMeansIgnoreOrder(rs: seq<Reading>, qs: seq<Reading>, lo: int, n: nat)
    requires multiset(rs) == multiset(qs)
    ensures DailyMeans(rs, lo, n) == DailyMeans(qs, lo, n)
  {
    var t1, t2 := DailyMeans(rs, lo, n), DailyMeans(qs, lo, n);
    forall i | 0 <= i < n ensures t1[i] == t2[i] {
      DayMeanIgnoresOrder(rs, qs, lo + i);
    }
  }

  /** The daily frame does not depend on the order the readings come in. */
  lemma FrameIgnoresOrder(rs: seq<Reading>, qs: seq<Reading>)
    requires multiset(rs) == multiset(qs)
    ensures TemperaturesToFrame(rs) == TemperaturesToFrame(qs)
  {
    if |rs| > 0 {
      DayRangeIgnoresOrder(rs, qs);
      var lo, hi := MinDay(rs), MaxDay(rs);
      var n := hi - lo + 1;
      DailyMeansIgnoreOrder(rs, qs, lo, n);
      var f, g := TemperaturesToFrame(rs), TemperaturesToFrame(qs);
      assert f.firstDay == lo && g.firstDay == lo;
      assert f.temps == DailyMeans(rs, lo, n);
      assert g.temps == DailyMeans(qs, lo, n);
    } else {
      assert |qs| == 0 by { assert |multiset(qs)| == |multiset(rs)|; }
    }
  }

  lemma {:induction false} DaySumBounds(rs: seq<Reading>, d: int, lo: real, hi: real)
    requires forall k :: 0 <= k < |rs| && rs[k].day == d ==> lo <= rs[k].temperature <= hi
    ensures lo * DayCount(rs, d) <= DaySum(rs, d) <= hi * DayCount(rs, d)
  {
    if |rs| > 0 {
      DaySumBounds(rs[1..], d, lo, hi);
    }
  }

  /** A day's mean lies between the smallest and largest reading of that day. */
  lemma DayMeanWithin(rs: seq<Reading>, d: int, lo: real, hi: real)
    requires forall k :: 0 <= k < |rs| && rs[k].day == d ==> lo <= rs[k].temperature <= hi
    requires RecordedOn(rs, d)
    ensures lo <= DayMean(rs, d).value <= hi
  {
    DaySumBounds(rs, d, lo, hi);
    DayCountSign(rs, d);
    DivBounds(DaySum(rs, d), DayCount(rs, d), lo, hi);
  }

  /** Two readings taken the same day make one row holding their average. */
  lemma SameDayAveraged(d: int, a: real, b: real)
    ensures TemperaturesToFrame([Reading(d, a), Reading(d, b)]) == DailyFrame(d, [Some((a + b) / 2.0)])
  {
    var rs := [Reading(d, a), Reading(d, b)];
    assert rs[1..] == [Reading(d, b)] && rs[1..][1..] == [];
    assert SumBy(rs[1..][1..], TemperatureOn(d)) == 0.0 && SumBy(rs[1..][1..], OneOn(d)) == 0.0;
    assert SumBy(rs[1..], TemperatureOn(d)) == b && SumBy(rs[1..], OneOn(d)) == 1.0;
    assert DaySum(rs, d) == a + b;
    assert DayCount(rs, d) == 2.0;
    assert MinDay(rs) == d && MaxDay(rs) == d;
    assert DayMean(rs, d) == Some((a + b) / 2.0);
    assert TemperaturesToFrame(rs).temps == [DayMean(rs, d)];
  }

  /** A non-empty frame spans every day from the first reading's to the last one's. */
  lemma FrameSpan(rs: seq<Reading>)
    requires |rs| > 0
    ensures |TemperaturesToFrame(rs).temps| == MaxDay(rs) - MinDay(rs) + 1
  {
  }

  /** Row i of the frame is the mean of the readings of its day. */
  lemma FrameRowIsDayMean(rs: seq<Reading>, i: int)
    requires 0 <= i < |TemperaturesToFrame(rs).temps|
    ensures TemperaturesToFrame(rs).temps[i] == DayMean(rs, TemperaturesToFrame(rs).firstDay + i)
  {
  }

  /** Both exponentially weighted means stay between the lowest and highest reading. */
  lemma MeansWithinReadings(rs: seq<Reading>, cfg: Config, lo: real, hi: real)
    requires cfg.Valid()
    requires forall k :: 0 <= k < |rs| ==> lo <= rs[k].temperature <= hi
    ensures var f := TemperaturesToFrame(rs);
      PresentWithin(SmoothedTemperature(f, cfg), lo, hi) && PresentWithin(Baseline(f, cfg), lo, hi)
  {
    var f := TemperaturesToFrame(rs);
    forall i | 0 <= i < |f.temps| && f.temps[i].Some? ensures lo <= f.temps[i].value <= hi {
      FrameRowIsDayMean(rs, i);
      DayMeanWithin(rs, f.firstDay + i, lo, hi);
    }
    EwmMeanWithin(f.temps, Alpha(cfg.smoothingSpanDays), false, lo, hi);
    EwmMeanWithin(f.temps, Alpha(cfg.baselineSpanDays), false, lo, hi);
  }

  /** The means have a value on every row: the first row of a frame is never null. */
  lemma MeansPresent(rs: seq<Reading>, cfg: Config)
    requires cfg.Valid()
    ensures var f := TemperaturesToFrame(rs);
      AllPresent(SmoothedTemperature(f, cfg)) && AllPresent(Baseline(f, cfg))
  {
    var f := TemperaturesToFrame(rs);
    if |f.temps| > 0 {
      EwmAllPresent(f.temps, Alpha(cfg.smoothingSpanDays), false);
      EwmAllPresent(f.temps, Alpha(cfg.baselineSpanDays), false);
    }
  }

  /** Two readings g >= 1 days apart trip the gap guard exactly when g exceeds
      MAX_MISSING_DAYS. */
  lemma TwoReadingsGap(d: int, g: int, a: real, b: real, cfg: Config)
    requires g >= 1
    ensures HasLongGap(TemperaturesToFrame([Reading(d, a), Reading(d + g, b)]), cfg) <==> g > cfg.maxMissingDays
  {
    var rs := [Reading(d, a), Reading(d + g, b)];
    var f := TemperaturesToFrame(rs);
    assert MinDay(rs) == d && MaxDay(rs) == d + g;
    assert f.firstDay == d && |f.temps| == g + 1;
    forall m | 0 <= m < |f.temps| ensures f.temps[m].Some? <==> (m == 0 || m == g) {
      assert RecordedOn(rs, d + m) <==> (m == 0 || m == g);
    }
    HasLongGapIff(f, cfg);
    if g > cfg.maxMissingDays {
      assert ConsecutivePresent(f.temps, 0, g);
    }
  }
}
