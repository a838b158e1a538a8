/** Strategy 2.1, the baseline: poll every 3 seconds, give up after 180 seconds. */
module StrategyBaseline {

  const Name: string := "Baseline-3s-180s"
  const PollingInterval: real := 3.0
  const TimeoutSeconds: real := 180.0

  /** The fixed interval, within the 2 to 15 seconds every strategy keeps to. */
  function CalculateNextInterval(elapsed: real, checkCount: nat): (interval: real)
    ensures 2.0 <= interval <= 15.0
  {
    PollingInterval
  }

  /** Never before 180 seconds, always from 600 on: the bounds every strategy keeps to. */
  function ShouldTimeout(elapsed: real, checkCount: nat): (timedOut: bool)
    ensures elapsed < 180.0 ==> !timedOut
    ensures elapsed >= 600.0 ==> timedOut
  {
    elapsed >= TimeoutSeconds
  }

  /** The interval is 3 seconds whatever the arguments. */
  lemma IntervalIsConstant(elapsed: real, checkCount: nat)
    ensures CalculateNextInterval(elapsed, checkCount) == 3.0
  {
  }

  /**
   * The timeout fires exactly from 180 seconds on, whatever the check count,
   * and once it fires it keeps firing as time goes on.
   */
  lemma TimeoutAt180(elapsed: real, later: real, checkCount: nat, otherCount: nat)
    requires elapsed <= later
    ensures ShouldTimeout(elapsed, checkCount) <==> elapsed >= 180.0
    ensures ShouldTimeout(elapsed, checkCount) == ShouldTimeout(elapsed, otherCount)
    ensures ShouldTimeout(elapsed, checkCount) ==> ShouldTimeout(later, otherCount)
  {
  }
}
