/**
 * The simulator that stands in for S3's propagation delay: on the first
 * check of a test it draws a delay from the empirical distribution and
 * remembers when that check happened; until that much time has passed every
 * check reports "no match" without asking S3, and afterwards checks go to
 * the real comparison.
 */
module SimulatedWaiter {
  import BaseWaiter
  import opened Clock

  /** The simulator's delay table: the same values as the coverage table. */
  const DelayDistribution: seq<BaseWaiter.Bucket> := BaseWaiter.Distribution

  /** The range of seconds a first draw `r` selects. */
  function DelayRange(r: Fraction): (range: (real, real))
    ensures 0.0 <= range.0 < range.1 <= 312.0
  {
    if r < 0.50 then (0.0, 48.0)
    else if r < 0.75 then (48.0, 82.0)
    else if r < 0.85 then (82.0, 120.0)
    else if r < 0.90 then (120.0, 142.0)
    else if r < 0.95 then (142.0, 156.0)
    else if r < 0.99 then (156.0, 234.0)
    else (234.0, 312.0)
  }

  /** The table row whose value closes the range `r` selects. */
  function BucketIndex(r: Fraction): (i: nat)
    ensures i < |DelayDistribution|
  {
    if r < 0.50 then 0 else if r < 0.75 then 1 else if r < 0.85 then 2
    else if r < 0.90 then 3 else if r < 0.95 then 4 else if r < 0.99 then 5 else 6
  }

  /**
   * The sampling ranges are the intervals between consecutive table values:
   * each range ends at its row's value and starts at the previous row's value
   * (at 0 for the first row).
   */
  lemma RangesFollowTable(r: Fraction)
    ensures DelayRange(r).1 == DelayDistribution[BucketIndex(r)].seconds
    ensures DelayRange(r).0 == if BucketIndex(r) == 0 then 0.0 else DelayDistribution[BucketIndex(r) - 1].seconds
  {
  }

  /** The probability mass of each range is that of the table row's percentile band. */
  lemma BucketBands(r: Fraction)
    ensures BucketIndex(r) == 0 <==> r < 0.50
    ensures BucketIndex(r) == 1 <==> 0.50 <= r < 0.75
    ensures BucketIndex(r) == 2 <==> 0.75 <= r < 0.85
    ensures BucketIndex(r) == 3 <==> 0.85 <= r < 0.90
    ensures BucketIndex(r) == 4 <==> 0.90 <= r < 0.95
    ensures BucketIndex(r) == 5 <==> 0.95 <= r < 0.99
    ensures BucketIndex(r) == 6 <==> 0.99 <= r
  {
  }

  lemma ProductNonNegative(a: real, b: real)
    requires a >= 0.0 && b >= 0.0
    ensures a * b >= 0.0
  {
    if a > 0.0 && b > 0.0 {
      assert a * b > 0.0;
    }
  }

  /** `random.uniform(lo, hi)` with relative position `u`. */
  function Uniform(lo: real, hi: real, u: UnitInterval): (x: real)
    requires lo <= hi
    ensures lo <= x <= hi
  {
    ProductNonNegative(hi - lo, 1.0 - u);
    assert (hi - lo) * u <= (hi - lo) * 1.0 by {
      assert (hi - lo) * 1.0 - (hi - lo) * u == (hi - lo) * (1.0 - u);
    }
    ProductNonNegative(hi - lo, u);
    lo + (hi - lo) * u
  }

  /** The simulated delay for the draws `r` (the range) and `u` (the position in it). */
  function GenerateDelay(r: Fraction, u: UnitInterval): (d: real)
    ensures DelayRange(r).0 <= d <= DelayRange(r).1
    ensures 0.0 <= d <= 312.0
  {
    var range := DelayRange(r);
    Uniform(range.0, range.1, u)
  }

  /** Every delay of the selected range can be drawn: the position draw reaches the whole range. */
  lemma GenerateDelayCoversRange(r: Fraction, d: real)
    requires DelayRange(r).0 <= d <= DelayRange(r).1
    ensures exists u: UnitInterval :: GenerateDelay(r, u) == d
  {
    var range := DelayRange(r);
    var width := range.1 - range.0;
    var u: UnitInterval := (d - range.0) / width;
    assert width * u == d - range.0;
    assert GenerateDelay(r, u) == d;
  }

  /**
   * The simulator's per-test state: `Idle` when neither `_simulated_delay`
   * nor `_propagation_start` is set, `Armed` once the first check has set both.
   */
  datatype SimState = Idle | Armed(delay: real, start: real)

  /** What one simulated check does: its verdict, whether it asked S3, and the new state. */
  datatype SimCheck = SimCheck(matched: bool, forwarded: bool, state: SimState)

  /**
   * One call of the simulated check at time `now`, where `realMatch` is what
   * the base check would answer. With simulation off it is the base check.
   * Otherwise the first call draws the delay and records `now` as the start;
   * the check is forwarded once `now - start` reaches the delay.
   */
  function SimulatedCheck(enabled: bool, s: SimState, now: real, r: Fraction, u: UnitInterval, realMatch: bool): (c: SimCheck)
    ensures !enabled ==> c == SimCheck(realMatch, true, s)
    ensures enabled ==> c.state == if s.Idle? then Armed(GenerateDelay(r, u), now) else s
    ensures enabled ==> (c.forwarded <==> now - c.state.start >= c.state.delay)
    ensures c.matched <==> c.forwarded && realMatch
  {
    if !enabled then SimCheck(realMatch, true, s)
    else
      var armed := if s.Idle? then Armed(GenerateDelay(r, u), now) else s;
      var forwarded := now - armed.start >= armed.delay;
      SimCheck(forwarded && realMatch, forwarded, armed)
  }

  /** The first check of a test (from `Idle`) is forwarded only when the drawn delay is zero. */
  lemma FirstCheckForwardsOnlyOnZeroDelay(now: real, r: Fraction, u: UnitInterval, realMatch: bool)
    ensures SimulatedCheck(true, Idle, now, r, u, realMatch).forwarded <==> GenerateDelay(r, u) == 0.0
  {
  }
}
