/**
 * Strategy 2.4, hybrid: dense polling early, sparse polling late, with a
 * 600-second timeout.
 */
module StrategyHybrid {

  const Name: string := "Hybrid-Dense-Sparse"
  const TimeoutSeconds: real := 600.0

  /** 2 s before 30 s, 4 s before 60 s, 8 s before 120 s, 15 s from then on. */
  function CalculateNextInterval(elapsed: real, checkCount: nat): (interval: real)
    ensures interval in {2.0, 4.0, 8.0, 15.0}
  {
    if elapsed < 30.0 then 2.0
    else if elapsed < 60.0 then 4.0
    else if elapsed < 120.0 then 8.0
    else 15.0
  }

  /** Never before 180 seconds, always from 600 on: the bounds every strategy keeps to. */
  function ShouldTimeout(elapsed: real, checkCount: nat): (timedOut: bool)
    ensures elapsed < 180.0 ==> !timedOut
    ensures elapsed >= 600.0 ==> timedOut
  {
    elapsed >= TimeoutSeconds
  }

  /** The schedule never gets denser as time passes, and ignores the check count. */
  lemma IntervalNondecreasing(earlier: real, later: real, checkCount: nat, otherCount: nat)
    requires earlier <= later
    ensures CalculateNextInterval(earlier, checkCount) <= CalculateNextInterval(later, otherCount)
  {
  }

  /**
   * The timeout fires exactly from 600 seconds on, whatever the check count,
   * and once it fires it keeps firing as time goes on.
   */
  lemma TimeoutAt600(elapsed: real, later: real, checkCount: nat, otherCount: nat)
    requires elapsed <= later
    ensures ShouldTimeout(elapsed, checkCount) <==> elapsed >= 600.0
    ensures ShouldTimeout(elapsed, checkCount) == ShouldTimeout(elapsed, otherCount)
    ensures ShouldTimeout(elapsed, checkCount) ==> ShouldTimeout(later, otherCount)
  {
  }
}
