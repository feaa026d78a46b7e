/** The exponentially weighted mean the engine takes from its dataframe library, written
    out as that library's one-pass kernel (`ewm(span=...).mean()` with the default
    `ignore_na=False`), plus the half-to-even rounding it applies to the averages. */
module Ewm {
  import opened Wrappers

  /** Smoothing factor of a span: alpha = 2 / (span + 1). */
  function Alpha(span: nat): (a: real)
    requires span >= 1
    ensures 0.0 < a <= 1.0
  {
    2.0 / (span as real + 1.0)
  }

  /** Running state of the kernel: the current mean (absent until the first
      observation) and the weight carried by the past. */
  datatype Acc = Acc(weighted: Option<real>, oldWt: real)

  /** Weight of the past after one more row: old_wt * (1 - alpha). */
  function Decay(oldWt: real, alpha: real): (d: real)
    requires oldWt >= 0.0 && 0.0 < alpha <= 1.0
    ensures 0.0 <= d <= oldWt
  {
    MulMonotone(oldWt, 1.0 - alpha, 1.0);
    MulNonNegative(oldWt, 1.0 - alpha);
    oldWt * (1.0 - alpha)
  }

  /** The mean w of the past (weight ow) blended with an observation c (weight nw);
      the kernel skips the arithmetic when the two already agree. */
  function Blended(ow: real, nw: real, w: real, c: real): real
    requires ow >= 0.0 && nw > 0.0
  {
    if w != c then (ow * w + nw * c) / (ow + nw) else w
  }

  /** One row of the kernel. A missing row decays the weight of the past; an
      observation blends with it, with weight alpha (adjust=False) or 1 (adjust=True). */
  function EwmStep(acc: Acc, cur: Option<real>, alpha: real, adjust: bool): (r: Acc)
    requires 0.0 < alpha <= 1.0 && acc.oldWt >= 0.0
    ensures r.oldWt >= 0.0
    ensures r.weighted.Some? <==> acc.weighted.Some? || cur.Some?
  {
    if acc.weighted.None? then
      (if cur.Some? then Acc(cur, acc.oldWt) else acc)
    else
      var ow := Decay(acc.oldWt, alpha);
      if cur.None? then Acc(acc.weighted, ow)
      else
        var nw := if adjust then 1.0 else alpha;
        Acc(Some(Blended(ow, nw, acc.weighted.value, cur.value)), if adjust then ow + nw else 1.0)
  }

  /** State of the kernel after the rows of `xs`, in order. */
  function EwmScan(xs: seq<Option<real>>, alpha: real, adjust: bool): (acc: Acc)
    requires |xs| > 0 && 0.0 < alpha <= 1.0
    ensures acc.oldWt >= 0.0
    decreases |xs|
  {
    if |xs| == 1 then Acc(xs[0], 1.0)
    else EwmStep(EwmScan(xs[..|xs| - 1], alpha, adjust), xs[|xs| - 1], alpha, adjust)
  }

  /** The output series: row i holds the mean of rows 0..i (absent before the first observation). */
  function EwmMean(xs: seq<Option<real>>, alpha: real, adjust: bool): (r: seq<Option<real>>)
    requires 0.0 < alpha <= 1.0
    ensures |r| == |xs|
    ensures |xs| > 0 ==> r[0] == xs[0]
  {
    seq(|xs|, i requires 0 <= i < |xs| => EwmScan(xs[..i + 1], alpha, adjust).weighted)
  }

  /** Last row of the output series. */
  function EwmLast(xs: seq<Option<real>>, alpha: real, adjust: bool): (r: Option<real>)
    requires |xs| > 0 && 0.0 < alpha <= 1.0
    ensures r == EwmMean(xs, alpha, adjust)[|xs| - 1]
  {
    assert xs[..|xs|] == xs;
    EwmScan(xs, alpha, adjust).weighted
  }

  ghost predicate AllPresent(xs: seq<Option<real>>) {
    forall i :: 0 <= i < |xs| ==> xs[i].Some?
  }

  ghost predicate PresentWithin(xs: seq<Option<real>>, lo: real, hi: real) {
    forall i :: 0 <= i < |xs| && xs[i].Some? ==> lo <= xs[i].value <= hi
  }

  lemma MulNonNegative(a: real, b: real)
    requires a >= 0.0 && b >= 0.0
    ensures a * b >= 0.0
  {
  }

  lemma MulMonotone(a: real, x: real, y: real)
    requires a >= 0.0 && x <= y
    ensures a * x <= a * y
  {
    MulNonNegative(a, y - x);
  }

  /** A weighted mean of two points of [lo, hi] stays in [lo, hi]. */
  lemma Blend(ow: real, nw: real, w: real, c: real, lo: real, hi: real)
    requires ow >= 0.0 && nw > 0.0
    requires lo <= w <= hi && lo <= c <= hi
    ensures lo <= Blended(ow, nw, w, c) <= hi
  {
    WeightedAtLeast(ow, nw, w, c, lo);
    WeightedAtMost(ow, nw, w, c, hi);
    DivBounds(ow * w + nw * c, ow + nw, lo, hi);
  }

  lemma WeightedAtLeast(ow: real, nw: real, w: real, c: real, lo: real)
    requires ow >= 0.0 && nw >= 0.0 && lo <= w && lo <= c
    ensures lo * (ow + nw) <= ow * w + nw * c
  {
    MulMonotone(ow, lo, w);
    MulMonotone(nw, lo, c);
    Distribute(ow, nw, lo);
  }

  lemma WeightedAtMost(ow: real, nw: real, w: real, c: real, hi: real)
    requires ow >= 0.0 && nw >= 0.0 && w <= hi && c <= hi
    ensures ow * w + nw * c <= hi * (ow + nw)
  {
    MulMonotone(ow, w, hi);
    MulMonotone(nw, c, hi);
    Distribute(ow, nw, hi);
  }

  lemma Distribute(a: real, b: real, x: real)
    ensures x * (a + b) == a * x + b * x
  {
  }

  lemma DivBounds(num: real, s: real, lo: real, hi: real)
    requires s > 0.0 && lo * s <= num <= hi * s
    ensures lo <= num / s <= hi
  {
    DivNonNegative(num - lo * s, s);
    DivNonNegative(hi * s - num, s);
    assert (num - lo * s) / s == num / s - lo;
    assert (hi * s - num) / s == hi - num / s;
  }

  lemma DivCancel(n: real, d: real)
    requires n > 0.0
    ensures (n * d) / n == d
  {
    var q := (n * d) / n;
    assert q * n == n * d;
    assert n * (q - d) == 0.0;
  }

  lemma DivNonNegative(a: real, s: real)
    requires a >= 0.0 && s > 0.0
    ensures a / s >= 0.0
  {
  }

  /** One step of the kernel stays in [lo, hi] when its inputs do. */
  lemma StepWithin(acc: Acc, cur: Option<real>, alpha: real, adjust: bool, lo: real, hi: real)
    requires 0.0 < alpha <= 1.0 && acc.oldWt >= 0.0
    requires acc.weighted.Some? ==> lo <= acc.weighted.value <= hi
    requires cur.Some? ==> lo <= cur.value <= hi
    ensures var r := EwmStep(acc, cur, alpha, adjust); r.weighted.Some? ==> lo <= r.weighted.value <= hi
  {
    if acc.weighted.Some? && cur.Some? && acc.weighted.value != cur.value {
      Blend(Decay(acc.oldWt, alpha), if adjust then 1.0 else alpha, acc.weighted.value, cur.value, lo, hi);
    }
  }

  /** The kernel never leaves the range of the observations it has seen. */
  lemma {:induction false} EwmScanWithin(xs: seq<Option<real>>, alpha: real, adjust: bool, lo: real, hi: real)
    requires |xs| > 0 && 0.0 < alpha <= 1.0
    requires PresentWithin(xs, lo, hi)
    ensures EwmScan(xs, alpha, adjust).weighted.Some? ==> lo <= EwmScan(xs, alpha, adjust).weighted.value <= hi
  {
    if |xs| > 1 {
      var prefix := xs[..|xs| - 1];
      assert PresentWithin(prefix, lo, hi) by {
        forall i | 0 <= i < |prefix| && prefix[i].Some? ensures lo <= prefix[i].value <= hi {
          assert prefix[i] == xs[i];
        }
      }
      EwmScanWithin(prefix, alpha, adjust, lo, hi);
      StepWithin(EwmScan(prefix, alpha, adjust), xs[|xs| - 1], alpha, adjust, lo, hi);
    }
  }

  /** Every row of the output series lies between the smallest and the largest observation. */
  lemma EwmMeanWithin(xs: seq<Option<real>>, alpha: real, adjust: bool, lo: real, hi: real)
    requires 0.0 < alpha <= 1.0
    requires PresentWithin(xs, lo, hi)
    ensures PresentWithin(EwmMean(xs, alpha, adjust), lo, hi)
  {
    var r := EwmMean(xs, alpha, adjust);
    forall i | 0 <= i < |r| && r[i].Some? ensures lo <= r[i].value <= hi {
      var prefix := xs[..i + 1];
      assert PresentWithin(prefix, lo, hi) by {
        forall k | 0 <= k < |prefix| && prefix[k].Some? ensures lo <= prefix[k].value <= hi {
          assert prefix[k] == xs[k];
        }
      }
      EwmScanWithin(prefix, alpha, adjust, lo, hi);
    }
  }

  /** A constant series is its own mean. */
  lemma EwmMeanConstant(xs: seq<Option<real>>, alpha: real, adjust: bool, c: real)
    requires 0.0 < alpha <= 1.0
    requires forall i :: 0 <= i < |xs| && xs[i].Some? ==> xs[i].value == c
    ensures forall i :: 0 <= i < |xs| && EwmMean(xs, alpha, adjust)[i].Some? ==> EwmMean(xs, alpha, adjust)[i].value == c
  {
    EwmMeanWithin(xs, alpha, adjust, c, c);
  }

  /** The mean is present exactly from the first observation on. */
  lemma {:induction false} EwmScanPresent(xs: seq<Option<real>>, alpha: real, adjust: bool)
    requires |xs| > 0 && 0.0 < alpha <= 1.0
    ensures EwmScan(xs, alpha, adjust).weighted.Some? <==> exists k :: 0 <= k < |xs| && xs[k].Some?
  {
    if |xs| > 1 {
      var prefix := xs[..|xs| - 1];
      EwmScanPresent(prefix, alpha, adjust);
      if exists k :: 0 <= k < |xs| && xs[k].Some? {
        var k :| 0 <= k < |xs| && xs[k].Some?;
        if k < |xs| - 1 { assert prefix[k].Some?; }
      } else {
        forall k | 0 <= k < |prefix| ensures prefix[k].None? { assert prefix[k] == xs[k]; }
      }
    }
  }

  /** A series whose first row has a value has a mean on every row. */
  lemma EwmAllPresent(xs: seq<Option<real>>, alpha: real, adjust: bool)
    requires |xs| > 0 && xs[0].Some? && 0.0 < alpha <= 1.0
    ensures AllPresent(EwmMean(xs, alpha, adjust))
  {
    var r := EwmMean(xs, alpha, adjust);
    forall i | 0 <= i < |r| ensures r[i].Some? {
      assert xs[..i + 1][0] == xs[0];
      EwmScanPresent(xs[..i + 1], alpha, adjust);
    }
  }

  /** With unit weight on the past and adjust=False, one observation moves the mean
      a fraction alpha of the way towards it. */
  lemma StepNoGap(acc: Acc, v: real, alpha: real)
    requires 0.0 < alpha <= 1.0 && acc.oldWt == 1.0 && acc.weighted.Some?
    ensures EwmStep(acc, Some(v), alpha, false).oldWt == 1.0
    ensures EwmStep(acc, Some(v), alpha, false).weighted.Some?
    ensures EwmStep(acc, Some(v), alpha, false).weighted.value == acc.weighted.value + alpha * (v - acc.weighted.value)
  {
    var ow := Decay(acc.oldWt, alpha);
    assert ow == 1.0 * (1.0 - alpha);
    BlendUnit(acc.weighted.value, v, alpha, ow);
  }

  lemma BlendUnit(w: real, v: real, alpha: real, ow: real)
    requires 0.0 < alpha <= 1.0 && ow == 1.0 * (1.0 - alpha)
    ensures Blended(ow, alpha, w, v) == w + alpha * (v - w)
  {
    if w == v { assert v - w == 0.0; return; }
    var d := ow + alpha;
    assert d == 1.0;
    var num := ow * w + alpha * v;
    assert num / d == num;
    assert ow * w == w - alpha * w;
    assert alpha * (v - w) == alpha * v - alpha * w;
  }

  /** On a series without missing rows and adjust=False, the kernel is the textbook
      recurrence acc := acc + alpha * (v - acc), seeded with the first value. */
  lemma {:induction false} EwmNoGapRecurrence(xs: seq<Option<real>>, alpha: real)
    requires |xs| > 0 && 0.0 < alpha <= 1.0
    requires AllPresent(xs)
    ensures EwmScan(xs, alpha, false).weighted.Some? && EwmScan(xs, alpha, false).oldWt == 1.0
    ensures |xs| > 1 ==>
      var w := EwmScan(xs[..|xs| - 1], alpha, false).weighted.value;
      EwmScan(xs, alpha, false).weighted.value == w + alpha * (xs[|xs| - 1].value - w)
  {
    if |xs| > 1 {
      var prefix := xs[..|xs| - 1];
      assert AllPresent(prefix) by {
        forall i | 0 <= i < |prefix| ensures prefix[i].Some? { assert prefix[i] == xs[i]; }
      }
      EwmNoGapRecurrence(prefix, alpha);
      StepNoGap(EwmScan(prefix, alpha, false), xs[|xs| - 1].value, alpha);
    }
  }

  /** numpy's `round`: to the nearest integer, ties to the even one. */
  function RoundHalfEven(x: real): (n: int)
    ensures x - 0.5 <= n as real <= x + 0.5
    ensures (x - 0.5 < n as real < x + 0.5) || n % 2 == 0
  {
    var f := x.Floor;
    var frac := x - f as real;
    if frac < 0.5 then f
    else if frac > 0.5 then f + 1
    else if f % 2 == 0 then f else f + 1
  }

  /** Rounding to the nearest integer keeps integer bounds, whatever the tie rule. */
  lemma RoundWithin(x: real, lo: int, hi: int)
    requires lo as real <= x <= hi as real
    ensures lo <= RoundHalfEven(x) <= hi
  {
  }
}
