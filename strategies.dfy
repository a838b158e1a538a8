/**
 * The four strategies behind one interface: a tagged variant chosen when the
 * waiter is built, answering `calculate_next_interval` and `should_timeout`.
 * Only the adaptive strategy reads its history.
 */
module Strategies {
  import opened Wrappers
  import BaseWaiter
  import StrategyBaseline
  import StrategyExtended
  import StrategyHybrid
  import StrategyAdaptive

  datatype Strategy = Baseline | Extended | Hybrid | Adaptive

  function Name(s: Strategy): string {
    match s
    case Baseline => StrategyBaseline.Name
    case Extended => StrategyExtended.Name
    case Hybrid => StrategyHybrid.Name
    case Adaptive => StrategyAdaptive.Name
  }

  /** Every strategy waits between 2 and 15 seconds before a check. */
  function NextInterval(s: Strategy, elapsed: real, checkCount: nat): (interval: real)
    ensures 2.0 <= interval <= 15.0
  {
    match s
    case Baseline => StrategyBaseline.CalculateNextInterval(elapsed, checkCount)
    case Extended => StrategyExtended.CalculateNextInterval(elapsed, checkCount)
    case Hybrid => StrategyHybrid.CalculateNextInterval(elapsed, checkCount)
    case Adaptive => StrategyAdaptive.CalculateNextInterval(elapsed, checkCount)
  }

  /** Every strategy gives up at 600 seconds at the latest, and none before 180 seconds. */
  function ShouldTimeout(s: Strategy, history: seq<real>, elapsed: real, checkCount: nat): (r: bool)
    ensures elapsed >= 600.0 ==> r
    ensures elapsed < 180.0 ==> !r
  {
    match s
    case Baseline => StrategyBaseline.ShouldTimeout(elapsed, checkCount)
    case Extended => StrategyExtended.ShouldTimeout(elapsed, checkCount)
    case Hybrid => StrategyHybrid.ShouldTimeout(elapsed, checkCount)
    case Adaptive => StrategyAdaptive.ShouldTimeout(history, elapsed, checkCount)
  }

  /** The strategy's `timeout_seconds` field; the adaptive strategy has none. */
  function TimeoutSeconds(s: Strategy): Option<real> {
    match s
    case Baseline => Some(StrategyBaseline.TimeoutSeconds)
    case Extended => Some(StrategyExtended.TimeoutSeconds)
    case Hybrid => Some(StrategyHybrid.TimeoutSeconds)
    case Adaptive => None
  }

  /** The timeout the coverage analysis judges: `timeout_seconds`, else the adaptive `max_timeout`. */
  function CoverageTimeout(s: Strategy): real {
    TimeoutSeconds(s).GetOr(StrategyAdaptive.MaxTimeout)
  }

  /**
   * Baseline's 180 s covers P95 (156 <= 180 < 234), 95% with no warning; the
   * other three are judged at 600 s and cover Max, 99.9%.
   */
  lemma CoverageOfStrategies()
    ensures BaseWaiter.Coverage(CoverageTimeout(Baseline)) == Some(BaseWaiter.P95)
    ensures !BaseWaiter.CoverageWarning(BaseWaiter.Coverage(CoverageTimeout(Baseline)))
    ensures forall s :: s != Baseline ==> BaseWaiter.Coverage(CoverageTimeout(s)) == Some(BaseWaiter.Max)
  {
    BaseWaiter.CoverageExamples();
  }

  /** For every strategy, once the timeout fires it keeps firing, whatever the check count. */
  lemma TimeoutMonotone(s: Strategy, history: seq<real>, elapsed: real, later: real, checkCount: nat, otherCount: nat)
    requires elapsed <= later
    ensures ShouldTimeout(s, history, elapsed, checkCount) ==> ShouldTimeout(s, history, later, otherCount)
  {
    if s == Adaptive {
      StrategyAdaptive.TimeoutMonotone(history, elapsed, later, checkCount, otherCount);
    }
  }

  /** The hybrid and adaptive schedules differ only on [120, 180), where hybrid waits 15 s and adaptive 10 s. */
  lemma HybridAndAdaptiveSchedules(elapsed: real, checkCount: nat)
    ensures 120.0 <= elapsed < 180.0 ==>
      NextInterval(Hybrid, elapsed, checkCount) == 15.0 && NextInterval(Adaptive, elapsed, checkCount) == 10.0
    ensures !(120.0 <= elapsed < 180.0) ==>
      NextInterval(Hybrid, elapsed, checkCount) == NextInterval(Adaptive, elapsed, checkCount)
  {
  }
}
