/**
 * A waiter strategy object at work: the probe loop of one test (PUT, then
 * poll under the strategy until a match or a timeout), the simulator's
 * per-test reset, the adaptive strategy's history update, and the suite
 * that runs tests one after another. Python reaches these through an
 * inheritance chain (base waiter, simulated waiter, concrete strategy); here
 * they are one class whose strategy is a tagged variant.
 *
 * S3, the clock and the random generator are an environment `Env` per test:
 * the outcome of the PUT, the response and the duration of each check's GET
 * (by check number, from 1), and the simulator's two draws. Time is measured
 * in seconds from the PUT's acknowledgement; sleeping advances it by exactly
 * the interval, and a check takes its GET duration.
 */
module Waiters {
  import opened Wrappers
  import opened Lifecycle
  import opened BaseWaiter
  import opened SimulatedWaiter
  import opened Clock
  import Strategies
  import StrategyAdaptive

  datatype PutOutcome = PutAcknowledged(duration: Duration) | PutRaised(message: string)

  datatype Env = Env(
    put: PutOutcome,
    store: nat -> GetResponse,
    getDuration: nat -> Duration,
    bucketDraw: Fraction,
    positionDraw: UnitInterval)

  /** A strategy's `calculate_next_interval`: never under two seconds. */
  type IntervalHook = f: (real, nat) -> real | forall e, k :: f(e, k) >= 2.0
    witness (e: real, k: nat) => 2.0

  /** A strategy's `should_timeout`: never before 180 s, always from 600 s on. */
  type TimeoutHook = f: (real, nat) -> bool | forall e, k :: (e < 180.0 ==> !f(e, k)) && (e >= 600.0 ==> f(e, k))
    witness (e: real, k: nat) => e >= 600.0

  /** What stays fixed during one test's polling loop: the strategy's two hooks, the simulation switch, the expected configuration and the environment. */
  datatype Context = Context(interval: IntervalHook, timeout: TimeoutHook, enabled: bool, config: Config, env: Env)

  /** The context in which a strategy object (with its current adaptive window) runs test `testId`. */
  function ContextFor(strategy: Strategies.Strategy, historical: seq<real>, enabled: bool, name: string, testId: nat, env: Env): (p: Context)
    ensures forall e, k :: p.interval(e, k) == Strategies.NextInterval(strategy, e, k)
    ensures forall e, k :: p.timeout(e, k) == Strategies.ShouldTimeout(strategy, historical, e, k)
    ensures p.enabled == enabled && p.config == GenerateLifecycleConfig(name, testId) && p.env == env
  {
    Context((e: real, k: nat) => Strategies.NextInterval(strategy, e, k),
            (e: real, k: nat) => Strategies.ShouldTimeout(strategy, historical, e, k),
            enabled, GenerateLifecycleConfig(name, testId), env)
  }

  /** The loop's variables at the head of an iteration, and the simulator state. */
  datatype Polling = Polling(elapsed: real, checkCount: nat, apiCalls: nat, history: seq<PollingAttempt>, sim: SimState)

  // ---------------------------------------------------------------------
  // The loop as a function

  predicate TimedOut(p: Context, s: Polling) {
    p.timeout(s.elapsed, s.checkCount)
  }

  /** One iteration after the timeout test: sleep the interval, check, record the attempt. */
  function Step(p: Context, s: Polling): (next: Polling)
    ensures next.elapsed >= s.elapsed + 2.0
  {
    var interval := p.interval(s.elapsed, s.checkCount);
    var k := s.checkCount + 1;
    var getStart := s.elapsed + interval;
    var c := SimulatedCheck(p.enabled, s.sim, getStart, p.env.bucketDraw, p.env.positionDraw,
                            ResponseMatches(p.config, p.env.store(k)));
    var duration := p.env.getDuration(k);
    var e := getStart + duration;
    Polling(e, k, s.apiCalls + 1, s.history + [PollingAttempt(k, e, duration, c.matched)], c.state)
  }

  predicate LastMatched(h: seq<PollingAttempt>) {
    |h| > 0 && h[|h| - 1].matched
  }

  /** The loop from state `s` to its end: a timeout at an iteration head, or a check that matched. */
  function Run(p: Context, s: Polling): (r: Polling)
    ensures TimedOut(p, r) || LastMatched(r.history)
    ensures r.elapsed >= s.elapsed
    decreases if s.elapsed < 600.0 then (600.0 - s.elapsed).Floor + 1 else 0
  {
    if TimedOut(p, s) then s
    else
      var next := Step(p, s);
      if LastMatched(next.history) then next else Run(p, next)
  }

  /** The result of one test whose simulator starts in `sim0`, and the simulator state it leaves. */
  function SingleTest(p: Context, testId: nat, sim0: SimState): (r: (TestResult, SimState))
    ensures r.0.testId == testId
    ensures r.0.Success() ==> p.env.put.PutAcknowledged? && LastMatched(r.0.pollingHistory)
    ensures p.env.put.PutRaised? ==> r.1 == sim0
  {
    match p.env.put
    case PutRaised(message) => (PutFailed(testId, message), sim0)
    case PutAcknowledged(putDuration) =>
      var f := Run(p, Polling(0.0, 0, 1, [], sim0));
      (Completed(testId, LastMatched(f.history), putDuration, f.elapsed, f.checkCount, f.apiCalls, f.history), f.sim)
  }

  // ---------------------------------------------------------------------
  // What every loop state reached from the start satisfies

  /** The elapsed time at the head of iteration `i` (0 for the first). */
  function HeadTime(h: seq<PollingAttempt>, i: nat): real
    requires i <= |h|
  {
    if i == 0 then 0.0 else h[i - 1].elapsedAtCheck
  }

  /** When the GET of attempt `i` started. */
  function GetStart(h: seq<PollingAttempt>, i: nat): real
    requires i < |h|
  {
    h[i].elapsedAtCheck - h[i].getDuration
  }

  /** One API call per check plus the PUT; one history entry per check, numbered 1, 2, ... */
  predicate Counted(s: Polling) {
    s.apiCalls == s.checkCount + 1 && |s.history| == s.checkCount &&
    forall i :: 0 <= i < |s.history| ==> s.history[i].attempt == i + 1
  }

  /**
   * Before each check the timeout was consulted and said no; the check ran
   * after sleeping the strategy's interval and took its GET duration.
   */
  predicate Timed(p: Context, h: seq<PollingAttempt>) {
    forall i :: 0 <= i < |h| ==>
      !p.timeout(HeadTime(h, i), i) &&
      h[i].getDuration == p.env.getDuration(i + 1) &&
      h[i].elapsedAtCheck == HeadTime(h, i) + p.interval(HeadTime(h, i), i) + h[i].getDuration
  }

  /** The simulator state governing the checks of `h`: the one it had, or the one the first check armed. */
  function Gate(p: Context, sim0: SimState, h: seq<PollingAttempt>): (g: SimState)
    requires |h| > 0
    ensures g.Armed?
  {
    if sim0.Armed? then sim0 else Armed(GenerateDelay(p.env.bucketDraw, p.env.positionDraw), GetStart(h, 0))
  }

  /**
   * Each check matched exactly when S3 showed the expected rules and, with
   * simulation on, the simulated delay had passed since the simulator's start.
   */
  predicate Checked(p: Context, sim0: SimState, h: seq<PollingAttempt>) {
    forall i :: 0 <= i < |h| ==>
      h[i].matched ==
        ((!p.enabled || GetStart(h, i) - Gate(p, sim0, h).start >= Gate(p, sim0, h).delay) &&
         ResponseMatches(p.config, p.env.store(i + 1)))
  }

  function SimAfter(p: Context, sim0: SimState, h: seq<PollingAttempt>): SimState {
    if !p.enabled || |h| == 0 then sim0 else Gate(p, sim0, h)
  }

  predicate Reachable(p: Context, sim0: SimState, s: Polling) {
    Counted(s) && Timed(p, s.history) && Checked(p, sim0, s.history) &&
    s.elapsed == HeadTime(s.history, |s.history|) && s.sim == SimAfter(p, sim0, s.history)
  }

  predicate NoneMatched(h: seq<PollingAttempt>) {
    forall i :: 0 <= i < |h| ==> !h[i].matched
  }

  lemma StepPreserves(p: Context, sim0: SimState, s: Polling)
    requires Reachable(p, sim0, s) && !TimedOut(p, s)
    ensures Reachable(p, sim0, Step(p, s))
    ensures |Step(p, s).history| == |s.history| + 1 && Step(p, s).history[..|s.history|] == s.history
  {
    var h, h' := s.history, Step(p, s).history;
    assert h'[..|h|] == h;
    StepTimed(p, s);
    StepChecked(p, sim0, s);
  }

  lemma StepTimed(p: Context, s: Polling)
    requires |s.history| == s.checkCount && Timed(p, s.history) && s.elapsed == HeadTime(s.history, |s.history|)
    requires !TimedOut(p, s)
    ensures Timed(p, Step(p, s).history)
  {
    var h, h' := s.history, Step(p, s).history;
    forall i | 0 <= i < |h'|
      ensures !p.timeout(HeadTime(h', i), i)
      ensures h'[i].getDuration == p.env.getDuration(i + 1)
      ensures h'[i].elapsedAtCheck == HeadTime(h', i) + p.interval(HeadTime(h', i), i) + h'[i].getDuration
    {
      if i < |h| {
        assert h'[i] == h[i] && HeadTime(h', i) == HeadTime(h, i);
      } else {
        assert HeadTime(h', i) == s.elapsed;
      }
    }
  }

  lemma StepChecked(p: Context, sim0: SimState, s: Polling)
    requires |s.history| == s.checkCount && Checked(p, sim0, s.history) && s.sim == SimAfter(p, sim0, s.history)
    ensures Checked(p, sim0, Step(p, s).history) && Step(p, s).sim == SimAfter(p, sim0, Step(p, s).history)
  {
    var h, h' := s.history, Step(p, s).history;
    var getStart := s.elapsed + p.interval(s.elapsed, s.checkCount);
    assert GetStart(h', |h|) == getStart;
    if |h| > 0 {
      assert GetStart(h', 0) == GetStart(h, 0);
      assert Gate(p, sim0, h') == Gate(p, sim0, h);
    }
    forall i | 0 <= i < |h|
      ensures h'[i] == h[i] && GetStart(h', i) == GetStart(h, i)
    {
    }
  }

  /**
   * From any reachable head state the loop ends in a reachable state that
   * only extends the history, after at least one more check unless it timed
   * out at once.
   */
  lemma {:induction false} RunReachable(p: Context, sim0: SimState, s: Polling)
    requires Reachable(p, sim0, s)
    ensures Reachable(p, sim0, Run(p, s))
    ensures |s.history| <= |Run(p, s).history| && Run(p, s).history[..|s.history|] == s.history
    ensures !TimedOut(p, s) ==> |s.history| < |Run(p, s).history|
    decreases if s.elapsed < 600.0 then (600.0 - s.elapsed).Floor + 1 else 0
  {
    if !TimedOut(p, s) {
      var n := Step(p, s);
      RunStep(p, s);
      StepPreserves(p, sim0, s);
      if !LastMatched(n.history) {
        RunReachable(p, sim0, n);
        var f := Run(p, n);
        assert f.history[..|s.history|] == f.history[..|n.history|][..|s.history|];
      }
    }
  }

  /**
   * From a head state where nothing has matched yet, every check of the run
   * but the last fails to match, and the run is a success (last check
   * matched) or else a timeout at the final head with no match at all.
   */
  lemma {:induction false} RunMatchShape(p: Context, s: Polling)
    requires NoneMatched(s.history)
    ensures forall i :: 0 <= i < |Run(p, s).history| - 1 ==> !Run(p, s).history[i].matched
    ensures !LastMatched(Run(p, s).history) ==> TimedOut(p, Run(p, s)) && NoneMatched(Run(p, s).history)
    decreases if s.elapsed < 600.0 then (600.0 - s.elapsed).Floor + 1 else 0
  {
    if !TimedOut(p, s) {
      var n := Step(p, s);
      RunStep(p, s);
      assert n.history == s.history + [n.history[|s.history|]];
      if !LastMatched(n.history) {
        assert NoneMatched(n.history);
        RunMatchShape(p, n);
      }
    }
  }

  /** Both halves of the loop's outcome, from any reachable head state where nothing has matched yet. */
  lemma RunEnds(p: Context, sim0: SimState, s: Polling)
    requires Reachable(p, sim0, s) && NoneMatched(s.history)
    ensures Reachable(p, sim0, Run(p, s))
    ensures |s.history| <= |Run(p, s).history| && Run(p, s).history[..|s.history|] == s.history
    ensures forall i :: 0 <= i < |Run(p, s).history| - 1 ==> !Run(p, s).history[i].matched
    ensures !LastMatched(Run(p, s).history) ==> TimedOut(p, Run(p, s)) && NoneMatched(Run(p, s).history)
    ensures !TimedOut(p, s) ==> |s.history| < |Run(p, s).history|
  {
    RunReachable(p, sim0, s);
    RunMatchShape(p, s);
  }

  /** An iteration that neither times out nor matches leaves the loop's outcome unchanged. */
  lemma RunStep(p: Context, s: Polling)
    requires !TimedOut(p, s)
    ensures Run(p, s) == if LastMatched(Step(p, s).history) then Step(p, s) else Run(p, Step(p, s))
  {
  }

  // ---------------------------------------------------------------------
  // Properties of one test's result

  /**
   * A PUT that raises gives an unsuccessful result with a "PUT failed" error
   * and no check at all: the simulator is not even consulted.
   */
  lemma TestResultPutFailed(p: Context, testId: nat, sim0: SimState)
    requires p.env.put.PutRaised?
    ensures var (r, sim) := SingleTest(p, testId, sim0);
      r == PutFailed(testId, p.env.put.message) && !r.Success() &&
      r.Error() == Some("PUT failed: " + p.env.put.message) && sim == sim0
  {
  }

  /**
   * After an acknowledged PUT the result counts one API call per check plus
   * the PUT, holds one history entry per check numbered 1..check_count, has
   * no match before its last entry, and is a success exactly when the last
   * check matched; otherwise the timeout fired at the final head, with the
   * checks done so far. No strategy times out before 180 s, so there is
   * always at least one check.
   */
  lemma TestResultCounters(p: Context, testId: nat, sim0: SimState)
    requires p.env.put.PutAcknowledged?
    ensures var r := SingleTest(p, testId, sim0).0;
      r.Completed? && r.testId == testId &&
      r.apiCalls == r.checkCount + 1 &&
      |r.pollingHistory| == r.checkCount && r.checkCount >= 1 &&
      (forall i :: 0 <= i < r.checkCount ==> r.pollingHistory[i].attempt == i + 1) &&
      (forall i :: 0 <= i < r.checkCount - 1 ==> !r.pollingHistory[i].matched) &&
      (r.success <==> r.pollingHistory[r.checkCount - 1].matched) &&
      (!r.success ==> p.timeout(r.propagationTime, r.checkCount))
  {
    var f := Run(p, Polling(0.0, 0, 1, [], sim0));
    RunCounted(p, sim0);
    var r := SingleTest(p, testId, sim0).0;
    assert r == Completed(testId, LastMatched(f.history), p.env.put.duration, f.elapsed, f.checkCount, f.apiCalls, f.history);
  }

  /** The counters and the match shape of the loop's end state, from the loop's start. */
  lemma RunCounted(p: Context, sim0: SimState)
    ensures var f := Run(p, Polling(0.0, 0, 1, [], sim0));
      Counted(f) && |f.history| >= 1 &&
      (forall i :: 0 <= i < |f.history| - 1 ==> !f.history[i].matched) &&
      (!LastMatched(f.history) ==> TimedOut(p, f))
  {
    var s0 := Polling(0.0, 0, 1, [], sim0);
    assert !TimedOut(p, s0);
    RunReachable(p, sim0, s0);
    RunMatchShape(p, s0);
  }

  /** A test that does not succeed reports a timeout. */
  lemma TestResultTimeoutError(p: Context, testId: nat, sim0: SimState)
    requires p.env.put.PutAcknowledged?
    ensures var r := SingleTest(p, testId, sim0).0;
      !r.success ==> r.Error() == Some("Timeout")
  {
  }

  /**
   * The timeout is consulted before every check: each check ran at an
   * iteration head where the strategy did not time out, after sleeping the
   * strategy's interval for that head; and the checks come later and later.
   */
  lemma TestResultTimeline(p: Context, testId: nat, sim0: SimState)
    requires p.env.put.PutAcknowledged?
    ensures var r := SingleTest(p, testId, sim0).0;
      var h := r.pollingHistory;
      |h| == r.checkCount &&
      (forall i :: 0 <= i < |h| ==>
        !p.timeout(HeadTime(h, i), i) &&
        h[i].elapsedAtCheck >= HeadTime(h, i) + p.interval(HeadTime(h, i), i)) &&
      (r.checkCount > 0 ==> r.propagationTime == h[|h| - 1].elapsedAtCheck)
  {
    var f := Run(p, Polling(0.0, 0, 1, [], sim0));
    RunTimed(p, sim0);
    TimedChecksFollowIntervals(p, f.history);
    var r := SingleTest(p, testId, sim0).0;
    assert r.pollingHistory == f.history && r.checkCount == f.checkCount && r.propagationTime == f.elapsed;
  }

  /** The timing facts of the loop's end state, from the loop's start. */
  lemma RunTimed(p: Context, sim0: SimState)
    ensures var f := Run(p, Polling(0.0, 0, 1, [], sim0));
      Timed(p, f.history) && |f.history| == f.checkCount && f.elapsed == HeadTime(f.history, |f.history|)
  {
    RunReachable(p, sim0, Polling(0.0, 0, 1, [], sim0));
  }

  /** Each check of a timed history ran no earlier than its head time plus the interval slept. */
  lemma TimedChecksFollowIntervals(p: Context, h: seq<PollingAttempt>)
    requires Timed(p, h)
    ensures forall i :: 0 <= i < |h| ==>
      !p.timeout(HeadTime(h, i), i) && h[i].elapsedAtCheck >= HeadTime(h, i) + p.interval(HeadTime(h, i), i)
  {
    forall i | 0 <= i < |h|
      ensures h[i].elapsedAtCheck >= HeadTime(h, i) + p.interval(HeadTime(h, i), i)
    {
      assert h[i].getDuration == p.env.getDuration(i + 1) >= 0.0;
    }
  }

  /**
   * A success is backed by S3: the last check's GET returned the expected
   * rules. With simulation off every attempt's verdict is exactly the base
   * check of that GET.
   */
  lemma TestResultMatchesStore(p: Context, testId: nat, sim0: SimState)
    requires p.env.put.PutAcknowledged?
    ensures var r := SingleTest(p, testId, sim0).0;
      (r.success ==> ResponseMatches(p.config, p.env.store(r.checkCount))) &&
      (!p.enabled ==> forall i :: 0 <= i < |r.pollingHistory| ==>
        r.pollingHistory[i].matched == ResponseMatches(p.config, p.env.store(i + 1)))
  {
    RunEnds(p, sim0, Polling(0.0, 0, 1, [], sim0));
  }

  /**
   * Simulation from a fresh state: the delay is drawn from this test's draws
   * and timed from the first check, which happens one interval after the PUT.
   * The test leaves the simulator armed with exactly that delay and start,
   * whatever an earlier test left; no check before the delay has passed
   * matches, so a success takes at least the first interval plus the delay.
   */
  lemma TestResultSimulation(p: Context, testId: nat)
    requires p.env.put.PutAcknowledged? && p.enabled
    ensures var (r, sim) := SingleTest(p, testId, Idle);
      var delay := GenerateDelay(p.env.bucketDraw, p.env.positionDraw);
      var first := p.interval(0.0, 0);
      (r.checkCount == 0 ==> sim == Idle) &&
      (r.checkCount > 0 ==> sim == Armed(delay, first)) &&
      (forall i :: 0 <= i < |r.pollingHistory| && r.pollingHistory[i].matched ==>
        GetStart(r.pollingHistory, i) >= first + delay) &&
      (r.success ==> r.propagationTime >= first + delay)
  {
    var s0 := Polling(0.0, 0, 1, [], Idle);
    RunEnds(p, Idle, s0);
    var f := Run(p, s0);
    if |f.history| > 0 {
      assert HeadTime(f.history, 0) == 0.0;
      assert GetStart(f.history, 0) == p.interval(0.0, 0);
      if LastMatched(f.history) {
        assert GetStart(f.history, |f.history| - 1) <= f.history[|f.history| - 1].elapsedAtCheck;
      }
    }
  }

  // ---------------------------------------------------------------------
  // A suite of tests

  /** The window after a test: the adaptive strategy records each success. */
  function HistoryAfter(strategy: Strategies.Strategy, history: seq<real>, r: TestResult): seq<real> {
    if strategy == Strategies.Adaptive && r.Success() then StrategyAdaptive.Record(history, r.propagationTime) else history
  }

  /**
   * The results of tests `from`.. of a suite, each run from a reset simulator,
   * the final window, and the simulator state the last test leaves behind
   * (`sim` itself when no test is left).
   */
  function Suite(strategy: Strategies.Strategy, name: string, enabled: bool, history: seq<real>, sim: SimState,
                 envs: seq<Env>, from: nat): (out: (seq<TestResult>, seq<real>, SimState))
    requires from <= |envs|
    ensures |out.0| == |envs| - from
    ensures forall i :: 0 <= i < |out.0| ==> out.0[i].testId == from + i
    decreases |envs| - from
  {
    if from == |envs| then ([], history, sim)
    else
      var p := ContextFor(strategy, history, enabled, name, from, envs[from]);
      var t := SingleTest(p, from, Idle);
      var rest := Suite(strategy, name, enabled, HistoryAfter(strategy, history, t.0), t.1, envs, from + 1);
      ([t.0] + rest.0, rest.1, rest.2)
  }

  /**
   * A suite with simulation on leaves the simulator as its last test left it:
   * idle, or armed with that test's drawn delay and started at its first check.
   */
  lemma {:induction false} SuiteLeavesLastTestArmed(strategy: Strategies.Strategy, name: string, history: seq<real>, sim: SimState,
                                                    envs: seq<Env>, from: nat)
    requires from < |envs| && envs[|envs| - 1].put.PutAcknowledged?
    ensures var last := envs[|envs| - 1];
      var out := Suite(strategy, name, true, history, sim, envs, from);
      out.2 == Idle || out.2 == Armed(GenerateDelay(last.bucketDraw, last.positionDraw), Strategies.NextInterval(strategy, 0.0, 0))
    decreases |envs| - from
  {
    var p := ContextFor(strategy, history, true, name, from, envs[from]);
    var t := SingleTest(p, from, Idle);
    if from == |envs| - 1 {
      TestResultSimulation(p, from);
    } else {
      SuiteLeavesLastTestArmed(strategy, name, HistoryAfter(strategy, history, t.0), t.1, envs, from + 1);
    }
  }

  lemma WindowStep(strategy: Strategies.Strategy, all: seq<real>, r: TestResult)
    ensures HistoryAfter(strategy, StrategyAdaptive.LastN(all, StrategyAdaptive.HistorySize), r) ==
      StrategyAdaptive.LastN(all + (if strategy == Strategies.Adaptive then PropagationTimes([r]) else []), StrategyAdaptive.HistorySize)
  {
    assert PropagationTimes([r]) == (if r.Success() then [r.propagationTime] else []) + PropagationTimes([]);
    if strategy == Strategies.Adaptive && r.Success() {
      StrategyAdaptive.RecordKeepsLastN(all, r.propagationTime);
    } else {
      assert all + (if strategy == Strategies.Adaptive then PropagationTimes([r]) else []) == all;
    }
  }

  /** Over a whole suite the adaptive window ends up as the last twenty successful times, oldest first. */
  lemma {:induction false} SuiteWindow(strategy: Strategies.Strategy, name: string, enabled: bool, all: seq<real>, sim: SimState,
                                       envs: seq<Env>, from: nat)
    requires from <= |envs|
    ensures var out := Suite(strategy, name, enabled, StrategyAdaptive.LastN(all, StrategyAdaptive.HistorySize), sim, envs, from);
      out.1 == StrategyAdaptive.LastN(all + (if strategy == Strategies.Adaptive then PropagationTimes(out.0) else []), StrategyAdaptive.HistorySize)
    decreases |envs| - from
  {
    var w := StrategyAdaptive.LastN(all, StrategyAdaptive.HistorySize);
    if from == |envs| {
      assert all + (if strategy == Strategies.Adaptive then PropagationTimes([]) else []) == all;
    } else {
      var r, s := SuiteUnfold(strategy, name, enabled, w, sim, envs, from);
      var all' := all + (if strategy == Strategies.Adaptive then PropagationTimes([r]) else []);
      WindowStep(strategy, all, r);
      SuiteWindow(strategy, name, enabled, all', s, envs, from + 1);
      var rest := Suite(strategy, name, enabled, HistoryAfter(strategy, w, r), s, envs, from + 1);
      WindowCons(strategy, all, r, rest.0);
    }
  }

  /** The first step of a suite: its first test, followed by the rest of the suite from the updated window. */
  lemma SuiteUnfold(strategy: Strategies.Strategy, name: string, enabled: bool, history: seq<real>, sim: SimState,
                    envs: seq<Env>, from: nat) returns (r: TestResult, s: SimState)
    requires from < |envs|
    ensures (r, s) == SingleTest(ContextFor(strategy, history, enabled, name, from, envs[from]), from, Idle)
    ensures Suite(strategy, name, enabled, history, sim, envs, from) ==
      var rest := Suite(strategy, name, enabled, HistoryAfter(strategy, history, r), s, envs, from + 1);
      ([r] + rest.0, rest.1, rest.2)
  {
    r, s := SingleTest(ContextFor(strategy, history, enabled, name, from, envs[from]), from, Idle).0,
            SingleTest(ContextFor(strategy, history, enabled, name, from, envs[from]), from, Idle).1;
  }

  /** A suite's results so far, followed by the rest of the suite, are preserved by running the next test. */
  lemma SuiteStep(strategy: Strategies.Strategy, name: string, enabled: bool, history: seq<real>, sim: SimState,
                  envs: seq<Env>, from: nat, done: seq<TestResult>, out: (seq<TestResult>, seq<real>, SimState),
                  r: TestResult, s: SimState)
    requires from < |envs|
    requires var rest := Suite(strategy, name, enabled, history, sim, envs, from);
      out.0 == done + rest.0 && out.1 == rest.1 && out.2 == rest.2
    requires (r, s) == SingleTest(ContextFor(strategy, history, enabled, name, from, envs[from]), from, Idle)
    ensures var rest := Suite(strategy, name, enabled, HistoryAfter(strategy, history, r), s, envs, from + 1);
      out.0 == (done + [r]) + rest.0 && out.1 == rest.1 && out.2 == rest.2
  {
    var r', s' := SuiteUnfold(strategy, name, enabled, history, sim, envs, from);
    var rest := Suite(strategy, name, enabled, HistoryAfter(strategy, history, r), s, envs, from + 1);
    ConcatAssociative(done, [r], rest.0);
  }

  lemma WindowCons(strategy: Strategies.Strategy, all: seq<real>, r: TestResult, rest: seq<TestResult>)
    ensures var extra := (if strategy == Strategies.Adaptive then PropagationTimes([r]) else []);
      all + (if strategy == Strategies.Adaptive then PropagationTimes([r] + rest) else []) ==
      (all + extra) + (if strategy == Strategies.Adaptive then PropagationTimes(rest) else [])
  {
    PropagationTimesAppend([r], rest);
    ConcatAssociative(all, PropagationTimes([r]), PropagationTimes(rest));
  }

  lemma ConcatAssociative<T>(a: seq<T>, b: seq<T>, c: seq<T>)
    ensures a + (b + c) == (a + b) + c
  {
  }

  // ---------------------------------------------------------------------
  // The strategy object

  class Waiter {
    const strategy: Strategies.Strategy
    const name: string
    const enableSimulation: bool
    /** The adaptive strategy's window of recent successful propagation times. */
    var historicalTimes: seq<real>
    /** Every successful propagation time the adaptive strategy has recorded, oldest first. */
    ghost var successTimes: seq<real>
    /** `_simulated_delay` and `_propagation_start`. */
    var sim: SimState
    var results: seq<TestResult>

    ghost predicate Valid()
      reads this
    {
      name == Strategies.Name(strategy) &&
      historicalTimes == StrategyAdaptive.LastN(successTimes, StrategyAdaptive.HistorySize) &&
      (strategy != Strategies.Adaptive ==> successTimes == [])
    }

    constructor (strategy: Strategies.Strategy, enableSimulation: bool)
      ensures Valid()
      ensures this.strategy == strategy && this.enableSimulation == enableSimulation
      ensures historicalTimes == [] && successTimes == [] && sim == Idle && results == []
    {
      this.strategy := strategy;
      this.name := Strategies.Name(strategy);
      this.enableSimulation := enableSimulation;
      historicalTimes := [];
      successTimes := [];
      sim := Idle;
      results := [];
    }

    /**
     * The simulated check at time `now`: with simulation off, the base check;
     * otherwise arm the simulator on the first call, and ask S3 only once the
     * delay has passed since the first call.
     */
    method CheckConfigurationMatch(expected: Config, now: real, response: GetResponse, r: Fraction, u: UnitInterval)
      returns (matched: bool)
      modifies this`sim
      ensures var c := SimulatedCheck(enableSimulation, old(sim), now, r, u, ResponseMatches(expected, response));
        matched == c.matched && sim == c.state
    {
      if !enableSimulation {
        matched := BaseWaiter.CheckConfigurationMatch(expected, response);
        return;
      }
      if sim.Idle? {
        sim := Armed(GenerateDelay(r, u), now);
      }
      var elapsed := now - sim.start;
      if elapsed >= sim.delay {
        matched := BaseWaiter.CheckConfigurationMatch(expected, response);
      } else {
        matched := false;
      }
    }

    /** The probe of the base waiter: PUT, then poll until a match or a timeout. */
    method Probe(testId: nat, env: Env) returns (result: TestResult)
      modifies this`sim
      ensures (result, sim) ==
        SingleTest(ContextFor(strategy, historicalTimes, enableSimulation, name, testId, env), testId, old(sim))
    {
      var config := GenerateLifecycleConfig(name, testId);
      var window := historicalTimes;
      ghost var p := ContextFor(strategy, window, enableSimulation, name, testId, env);
      if env.put.PutRaised? {
        return PutFailed(testId, env.put.message);
      }
      var putDuration := env.put.duration;
      var elapsed := 0.0;
      var checkCount := 0;
      var apiCalls := 1;
      var pollingHistory := [];
      ghost var final := Run(p, Polling(elapsed, checkCount, apiCalls, pollingHistory, sim));
      while true
        invariant Run(p, Polling(elapsed, checkCount, apiCalls, pollingHistory, sim)) == final
        invariant final == Run(p, Polling(0.0, 0, 1, [], old(sim)))
        invariant !LastMatched(pollingHistory)
        decreases if elapsed < 600.0 then (600.0 - elapsed).Floor + 1 else 0
      {
        if Strategies.ShouldTimeout(strategy, window, elapsed, checkCount) {
          return Completed(testId, false, putDuration, elapsed, checkCount, apiCalls, pollingHistory);
        }
        ghost var head := Polling(elapsed, checkCount, apiCalls, pollingHistory, sim);
        var matched;
        elapsed, checkCount, apiCalls, pollingHistory, matched :=
          PollOnce(p, config, env, elapsed, checkCount, apiCalls, pollingHistory);
        RunStep(p, head);
        if matched {
          return Completed(testId, true, putDuration, elapsed, checkCount, apiCalls, pollingHistory);
        }
      }
    }

    /** One pass of the probe loop after the timeout test: sleep the interval, check, record the attempt. */
    method PollOnce(ghost p: Context, config: Config, env: Env, elapsed: real, checkCount: nat, apiCalls: nat,
                    history: seq<PollingAttempt>)
      returns (elapsed': real, checkCount': nat, apiCalls': nat, history': seq<PollingAttempt>, matched: bool)
      requires p.enabled == enableSimulation && p.config == config && p.env == env
      requires forall e, k :: p.interval(e, k) == Strategies.NextInterval(strategy, e, k)
      modifies this`sim
      ensures Polling(elapsed', checkCount', apiCalls', history', sim) == Step(p, Polling(elapsed, checkCount, apiCalls, history, old(sim)))
      ensures matched == LastMatched(history')
    {
      var interval := Strategies.NextInterval(strategy, elapsed, checkCount);
      checkCount' := checkCount + 1;
      apiCalls' := apiCalls + 1;
      var getStart := elapsed + interval;
      matched := CheckConfigurationMatch(config, getStart, env.store(checkCount'), env.bucketDraw, env.positionDraw);
      var getDuration := env.getDuration(checkCount');
      elapsed' := getStart + getDuration;
      history' := history + [PollingAttempt(checkCount', elapsed', getDuration, matched)];
    }

    /**
     * One test as the concrete strategy runs it: clear the simulator state,
     * probe, and for the adaptive strategy record a success in the window.
     */
    method RunSingleTest(testId: nat, env: Env) returns (result: TestResult)
      requires Valid()
      modifies this`sim, this`historicalTimes, this`successTimes
      ensures Valid()
      ensures (result, sim) ==
        SingleTest(ContextFor(strategy, old(historicalTimes), enableSimulation, name, testId, env), testId, Idle)
      ensures historicalTimes == HistoryAfter(strategy, old(historicalTimes), result)
      ensures successTimes == old(successTimes) + (if strategy == Strategies.Adaptive && result.Success() then [result.propagationTime] else [])
    {
      sim := Idle;
      result := Probe(testId, env);
      if strategy == Strategies.Adaptive && result.Success() {
        StrategyAdaptive.RecordKeepsLastN(successTimes, result.propagationTime);
        historicalTimes := historicalTimes + [result.propagationTime];
        if |historicalTimes| > StrategyAdaptive.HistorySize {
          historicalTimes := historicalTimes[1..];
        }
        successTimes := successTimes + [result.propagationTime];
      }
    }

    /** Run one test per environment, numbered from 0, appending each result. */
    method RunTestSuite(envs: seq<Env>) returns (all: seq<TestResult>)
      requires Valid()
      modifies this`sim, this`historicalTimes, this`successTimes, this`results
      ensures Valid()
      ensures var out := Suite(strategy, name, enableSimulation, old(historicalTimes), old(sim), envs, 0);
        results == old(results) + out.0 && historicalTimes == out.1 && sim == out.2
      ensures all == results
    {
      ghost var out := Suite(strategy, name, enableSimulation, historicalTimes, sim, envs, 0);
      ghost var done: seq<TestResult> := [];
      var i := 0;
      while i < |envs|
        invariant 0 <= i <= |envs| && Valid()
        invariant results == old(results) + done
        invariant var rest := Suite(strategy, name, enableSimulation, historicalTimes, sim, envs, i);
          out.0 == done + rest.0 && out.1 == rest.1 && out.2 == rest.2
      {
        ghost var window := historicalTimes;
        ghost var sim0 := sim;
        var result := RunSingleTest(i, envs[i]);
        SuiteStep(strategy, name, enableSimulation, window, sim0, envs, i, done, out, result, sim);
        ConcatAssociative(old(results), done, [result]);
        results := results + [result];
        done := done + [result];
        i := i + 1;
      }
      assert done + [] == done;
      all := results;
    }
  }
}
