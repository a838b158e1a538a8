/**
 * Strategy 2.3, adaptive: a five-tier polling schedule, and a timeout learned
 * from a bounded window of past successful propagation times.
 *
 * The source computes `mean + 3 * stdev` with a square root. Here the
 * comparison `elapsed >= mean + 3 * stdev` is decided exactly, without the
 * root: for d = elapsed - mean, it holds iff d >= 0 and d * d >= 9 * variance.
 * AdaptiveTimeoutIsClampedThreshold shows this agrees with the clamped
 * threshold for the (unique) non-negative square root of the variance.
 */
module StrategyAdaptive {

  const Name: string := "Adaptive-Learning-v2"
  const MinTimeout: real := 300.0
  const MaxTimeout: real := 600.0
  const HistorySize: nat := 20
  const BootstrapSize: nat := 3

  /** 2 s before 30 s, 4 s before 60 s, 8 s before 120 s, 10 s before 180 s, 15 s from then on. */
  function CalculateNextInterval(elapsed: real, checkCount: nat): (interval: real)
    ensures interval in {2.0, 4.0, 8.0, 10.0, 15.0}
  {
    if elapsed < 30.0 then 2.0
    else if elapsed < 60.0 then 4.0
    else if elapsed < 120.0 then 8.0
    else if elapsed < 180.0 then 10.0
    else 15.0
  }

  /** The schedule never gets denser as time passes, and ignores the check count. */
  lemma IntervalNondecreasing(earlier: real, later: real, checkCount: nat, otherCount: nat)
    requires earlier <= later
    ensures CalculateNextInterval(earlier, checkCount) <= CalculateNextInterval(later, otherCount)
  {
  }

  // ---------------------------------------------------------------------
  // Statistics of the history window

  function Sum(s: seq<real>): real {
    if s == [] then 0.0 else s[0] + Sum(s[1..])
  }

  function Mean(s: seq<real>): real
    requires |s| > 0
  {
    Sum(s) / (|s| as real)
  }

  lemma SquareNonNegative(x: real)
    ensures x * x >= 0.0
  {
    if x < 0.0 {
      assert x * x == (-x) * (-x);
    }
  }

  function SumSquaredDeviations(s: seq<real>, m: real): (r: real)
    ensures r >= 0.0
  {
    if s == [] then 0.0
    else
      SquareNonNegative(s[0] - m);
      (s[0] - m) * (s[0] - m) + SumSquaredDeviations(s[1..], m)
  }

  /** The sample variance (divisor n - 1), which needs at least two samples. */
  function SampleVariance(s: seq<real>): (v: real)
    requires |s| >= 2
    ensures v >= 0.0
  {
    SumSquaredDeviations(s, Mean(s)) / ((|s| - 1) as real)
  }

  function Clamp(x: real, lo: real, hi: real): real {
    if x > hi then (if lo > hi then lo else hi) else if x < lo then lo else x
  }

  /** `elapsed >= mean + 3 * stdev`, decided without the square root. */
  predicate BeyondMeanPlus3Sd(history: seq<real>, elapsed: real)
    requires |history| >= 2
  {
    var d := elapsed - Mean(history);
    d >= 0.0 && d * d >= 9.0 * SampleVariance(history)
  }

  /**
   * Time out at 300 s while the history holds fewer than three samples;
   * afterwards at mean + 3 * stdev of the history, clamped to [300, 600].
   * The variance is only taken once three samples exist, so it is always defined.
   */
  function ShouldTimeout(history: seq<real>, elapsed: real, checkCount: nat): (r: bool)
    ensures elapsed < MinTimeout ==> !r
    ensures elapsed >= MaxTimeout ==> r
    ensures |history| < BootstrapSize ==> (r <==> elapsed >= MinTimeout)
  {
    if |history| < BootstrapSize then elapsed >= MinTimeout
    else elapsed >= MinTimeout && (elapsed >= MaxTimeout || BeyondMeanPlus3Sd(history, elapsed))
  }

  lemma SquaresOrdered(a: real, b: real)
    requires a >= 0.0 && b >= 0.0
    ensures a >= b <==> a * a >= b * b
  {
    assert a * a - b * b == (a - b) * (a + b);
    if a >= b {
      assert (a - b) * (a + b) >= 0.0;
    } else {
      assert (b - a) * (a + b) >= 0.0;
      assert (b - a) * (b + a) > 0.0 by {
        assert (b - a) * b > 0.0;
        assert (b - a) * a >= 0.0;
      }
    }
  }

  /**
   * With at least three samples, and for the standard deviation `sd` (the
   * non-negative root of the sample variance), the timeout fires exactly
   * when elapsed reaches clamp(mean + 3 * sd, 300, 600).
   */
  lemma AdaptiveTimeoutIsClampedThreshold(history: seq<real>, elapsed: real, checkCount: nat, sd: real)
    requires |history| >= BootstrapSize
    requires sd >= 0.0 && sd * sd == SampleVariance(history)
    ensures ShouldTimeout(history, elapsed, checkCount) <==> elapsed >= Clamp(Mean(history) + 3.0 * sd, MinTimeout, MaxTimeout)
  {
    var d := elapsed - Mean(history);
    if d >= 0.0 {
      SquaresOrdered(d, 3.0 * sd);
      assert (3.0 * sd) * (3.0 * sd) == 9.0 * (sd * sd);
    }
  }

  /** Once the timeout fires it keeps firing as time goes on, whatever the check count. */
  lemma TimeoutMonotone(history: seq<real>, elapsed: real, later: real, checkCount: nat, otherCount: nat)
    requires elapsed <= later
    ensures ShouldTimeout(history, elapsed, checkCount) ==> ShouldTimeout(history, later, otherCount)
  {
    if |history| >= BootstrapSize && ShouldTimeout(history, elapsed, checkCount) && later < MaxTimeout {
      var d, d' := elapsed - Mean(history), later - Mean(history);
      if d >= 0.0 {
        SquaresOrdered(d', d);
      }
    }
  }

  /** History 40, 50, 60: mean 50, stdev 10, so 50 + 30 is clamped up to 300. */
  lemma ExampleClampedToMinimum(elapsed: real, checkCount: nat)
    ensures ShouldTimeout([40.0, 50.0, 60.0], elapsed, checkCount) <==> elapsed >= 300.0
  {
    var h := [40.0, 50.0, 60.0];
    assert Sum(h) == 150.0 by {
      assert h[1..] == [50.0, 60.0] && h[1..][1..] == [60.0];
    }
    assert SampleVariance(h) == 100.0 by {
      assert h[1..] == [50.0, 60.0] && h[1..][1..] == [60.0];
      assert SumSquaredDeviations(h, 50.0) == 200.0;
    }
    if elapsed >= 300.0 {
      var d := elapsed - 50.0;
      assert d * d >= 250.0 * 250.0 by {
        SquaresOrdered(d, 250.0);
      }
    }
  }

  /** History 0, 0, 600: mean 200, stdev about 346, so mean + 3 stdev exceeds 600 and is clamped to 600. */
  lemma ExampleClampedToMaximum(elapsed: real, checkCount: nat)
    ensures ShouldTimeout([0.0, 0.0, 600.0], elapsed, checkCount) <==> elapsed >= 600.0
  {
    var h := [0.0, 0.0, 600.0];
    assert Sum(h) == 600.0 by {
      assert h[1..] == [0.0, 600.0] && h[1..][1..] == [600.0];
    }
    assert SampleVariance(h) == 120000.0 by {
      assert h[1..] == [0.0, 600.0] && h[1..][1..] == [600.0];
      assert SumSquaredDeviations(h, 200.0) == 240000.0;
    }
    if 300.0 <= elapsed < 600.0 {
      var d := elapsed - 200.0;
      assert d * d <= 400.0 * 400.0 by {
        SquaresOrdered(400.0, d);
      }
    }
  }

  // ---------------------------------------------------------------------
  // The history window

  /** The last `n` elements of `s` (all of `s` when it is shorter). */
  function LastN(s: seq<real>, n: nat): (r: seq<real>)
    ensures |r| <= n && |r| <= |s|
  {
    if |s| <= n then s else s[|s| - n..]
  }

  /**
   * The window after a successful test that took `t`: append it, and when the
   * window is then over capacity drop the oldest entry (index 0).
   */
  function Record(history: seq<real>, t: real): (r: seq<real>)
    ensures |history| <= HistorySize ==> |r| <= HistorySize
    ensures 0 < |r| <= |history| + 1 && r[|r| - 1] == t
    ensures r[..|r| - 1] == history[|history| + 1 - |r|..]
  {
    var appended := history + [t];
    if |appended| > HistorySize then appended[1..] else appended
  }

  /**
   * Recording keeps the window equal to the last twenty successful times: if
   * the window holds the last twenty of `all`, after recording `t` it holds
   * the last twenty of `all + [t]`. In particular it never exceeds twenty and
   * evicts strictly first-in first-out.
   */
  lemma RecordKeepsLastN(all: seq<real>, t: real)
    ensures Record(LastN(all, HistorySize), t) == LastN(all + [t], HistorySize)
    ensures |Record(LastN(all, HistorySize), t)| <= HistorySize
  {
    var w := LastN(all, HistorySize);
    var a := all + [t];
    if |all| > HistorySize {
      assert (w + [t])[1..] == a[|a| - HistorySize..];
    }
  }
}
