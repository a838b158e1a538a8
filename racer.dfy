/**
 * The control-plane racer of the concurrent test: a poller started at the
 * race's time zero looks for a fresh rule ID with exponential backoff and
 * full jitter, while a writer puts the configuration carrying it; the
 * propagation delay is the detection time minus time zero.
 *
 * S3 and the random generator are the environment `RacerEnv`: the response
 * and the duration of GET number `a` (the attempt number, from 1), and the
 * jitter draw after attempt `a`. Every GET takes at least `minGet` seconds,
 * a positive amount: the poller's sleep can be zero, so without it the loop
 * could spin forever in zero time.
 */
module Racer {
  import opened Wrappers
  import opened Lifecycle
  import opened Clock
  import ConsistencyScript

  const BaseSleep: real := 0.5
  const MaxSleep: real := 10.0
  const PollTimeout: real := 600.0
  /** The expiration the racer's configurations carry. */
  const RacerDays: int := 30

  // ---------------------------------------------------------------------
  // Backoff

  function Pow2(n: nat): (p: nat)
    ensures p >= 1
  {
    if n == 0 then 1 else 2 * Pow2(n - 1)
  }

  lemma {:induction false} Pow2Monotone(m: nat, n: nat)
    requires m <= n
    ensures Pow2(m) <= Pow2(n)
    decreases n - m
  {
    if m < n {
      Pow2Monotone(m, n - 1);
    }
  }

  /** The upper end of the jittered sleep after attempt `attempt`: `min(max_sleep, base_sleep * 2 ** attempt)`. */
  function BackoffCap(attempt: nat): (cap: real)
    ensures 0.0 < cap <= MaxSleep
    ensures cap <= BaseSleep * Pow2(attempt) as real
    ensures cap == MaxSleep || cap == BaseSleep * Pow2(attempt) as real
  {
    if MaxSleep <= BaseSleep * Pow2(attempt) as real then MaxSleep else BaseSleep * Pow2(attempt) as real
  }

  /** The caps double from one second at the first attempt and stay at ten seconds from the fifth on. */
  lemma BackoffSchedule(attempt: nat)
    ensures BackoffCap(1) == 1.0 && BackoffCap(2) == 2.0 && BackoffCap(3) == 4.0 && BackoffCap(4) == 8.0
    ensures attempt >= 5 ==> BackoffCap(attempt) == MaxSleep
  {
    assert Pow2(1) == 2 && Pow2(2) == 4 && Pow2(3) == 8 && Pow2(4) == 16 && Pow2(5) == 32;
    if attempt >= 5 {
      Pow2Monotone(5, attempt);
    }
  }

  lemma ScaleWithin(u: UnitInterval, cap: real)
    requires cap > 0.0
    ensures 0.0 <= u * cap <= cap
  {
    assert (1.0 - u) * cap >= 0.0;
  }

  /** `random.uniform(0, cap)` with relative position `u`. */
  function Backoff(attempt: nat, u: UnitInterval): (sleep: real)
    ensures 0.0 <= sleep <= BackoffCap(attempt)
  {
    ScaleWithin(u, BackoffCap(attempt));
    u * BackoffCap(attempt)
  }

  // ---------------------------------------------------------------------
  // Detection

  /** `any(r["ID"] == expected_rule_id for r in rules)`. */
  function AnyRuleHasId(rules: seq<Rule>, id: string): (found: bool)
    ensures found <==> exists i :: 0 <= i < |rules| && rules[i].id == id
  {
    if rules == [] then false
    else if rules[0].id == id then true
    else
      var found := AnyRuleHasId(rules[1..], id);
      assert found ==> exists i :: 0 <= i < |rules| && rules[i].id == id by {
        if found {
          var k :| 0 <= k < |rules[1..]| && rules[1..][k].id == id;
          assert rules[k + 1].id == id;
        }
      }
      found
  }

  /** Detection looks at rule IDs only: other rules around the one sought, and the fields of every rule, do not matter. */
  lemma DetectionByIdOnly(before: seq<Rule>, after: seq<Rule>, r: Rule, id: string)
    requires r.id == id
    ensures AnyRuleHasId(before + [r] + after, id)
  {
    assert (before + [r] + after)[|before|].id == id;
  }

  /** The configuration the writer puts is detected by its own rule ID and by no other. */
  lemma WrittenConfigDetected(ruleId: string, other: string)
    requires other != ruleId
    ensures AnyRuleHasId(ConsistencyScript.LifecycleConfig(RacerDays, ruleId).rules, ruleId)
    ensures !AnyRuleHasId(ConsistencyScript.LifecycleConfig(RacerDays, ruleId).rules, other)
  {
    assert ConsistencyScript.LifecycleConfig(RacerDays, ruleId).rules[0].id == ruleId;
  }

  /** A GET that reveals the rule sought. */
  predicate Detects(response: GetResponse, id: string) {
    response.Returned? && AnyRuleHasId(response.config.rules, id)
  }

  /** A GET after which the poller sleeps and tries again: a `ClientError`, or rules without the ID sought. */
  predicate Missed(response: GetResponse, id: string) {
    response.ClientError? || (response.Returned? && !AnyRuleHasId(response.config.rules, id))
  }

  // ---------------------------------------------------------------------
  // The poller

  datatype RacerEnv = RacerEnv(
    store: nat -> GetResponse,
    getDuration: nat -> Duration,
    jitter: nat -> UnitInterval,
    minGet: real)

  ghost predicate WellTimed(env: RacerEnv) {
    env.minGet > 0.0 && forall a :: env.getDuration(a) >= env.minGet
  }

  /** What `smart_poll_until_match` returns, or the exception it lets out. */
  datatype RacerOutcome =
    | RacerResult(found: bool, attempts: nat, detectedAt: Option<real>)
    | RacerFailed(message: string)

  function RacerMeasure(env: RacerEnv, timeout: real, elapsed: real): int
    requires env.minGet > 0.0
  {
    if elapsed < timeout then ((timeout - elapsed) / env.minGet).Floor + 1 else 0
  }

  lemma MeasureDecreases(env: RacerEnv, timeout: real, elapsed: real, next: real)
    requires env.minGet > 0.0 && elapsed < timeout && next >= elapsed + env.minGet
    ensures RacerMeasure(env, timeout, next) < RacerMeasure(env, timeout, elapsed)
  {
    var e := env.minGet;
    var x := (timeout - elapsed) / e;
    assert x * e == timeout - elapsed;
    assert x > 0.0;
    if next < timeout {
      var y := (timeout - next) / e;
      assert y * e == timeout - next;
      assert (x - y) * e == next - elapsed;
      assert x - y >= 1.0;
      assert y.Floor + 1 <= x.Floor;
    }
  }

  /** The poll from the head where `elapsed` seconds have passed since time zero `t0` and `attempt` GETs were issued. */
  function RacerFrom(env: RacerEnv, id: string, t0: real, timeout: real, elapsed: real, attempt: nat): (r: (RacerOutcome, nat))
    requires WellTimed(env)
    ensures r.1 >= attempt
    ensures r.0.RacerResult? ==> r.0.attempts == r.1 && (r.0.found <==> r.0.detectedAt.Some?)
    decreases RacerMeasure(env, timeout, elapsed)
  {
    if !(elapsed < timeout) then (RacerResult(false, attempt, None), attempt)
    else
      var a := attempt + 1;
      var after := elapsed + env.getDuration(a);
      if Detects(env.store(a), id) then (RacerResult(true, a, Some(t0 + after)), a)
      else if env.store(a).OtherFailure? then (RacerFailed(env.store(a).message), a)
      else
        var next := after + Backoff(a, env.jitter(a));
        MeasureDecreases(env, timeout, elapsed, next);
        RacerFrom(env, id, t0, timeout, next, a)
  }

  function RacerPoll(env: RacerEnv, id: string, t0: real, timeout: real): (RacerOutcome, nat)
    requires WellTimed(env)
  {
    RacerFrom(env, id, t0, timeout, 0.0, 0)
  }

  /** Every GET among the first `n` missed. */
  predicate AllMissed(env: RacerEnv, id: string, n: nat) {
    forall a :: 1 <= a <= n ==> Missed(env.store(a), id)
  }

  /**
   * From any head of the loop: `attempts` is the number of GETs issued,
   * failed ones included; all GETs but the last missed; the outcome is a
   * detection by the last GET, at a time after time zero, or an exception
   * other than `ClientError` from the last GET, or, once the time is up, no
   * detection with every GET missed.
   */
  lemma {:induction false} RacerFromOutcome(env: RacerEnv, id: string, t0: real, timeout: real, elapsed: real, attempt: nat)
    requires WellTimed(env) && elapsed >= 0.0 && AllMissed(env, id, attempt)
    ensures var (out, n) := RacerFrom(env, id, t0, timeout, elapsed, attempt);
      attempt <= n && (n >= 1 ==> AllMissed(env, id, n - 1)) &&
      (out.RacerResult? ==> out.attempts == n && (out.found <==> out.detectedAt.Some?)) &&
      (out.RacerResult? && out.found ==> n >= 1 && Detects(env.store(n), id) && out.detectedAt.value >= t0 + env.minGet) &&
      (out.RacerResult? && !out.found ==> AllMissed(env, id, n)) &&
      (out.RacerFailed? ==> n >= 1 && env.store(n) == OtherFailure(out.message))
    decreases RacerMeasure(env, timeout, elapsed)
  {
    if elapsed < timeout {
      var a := attempt + 1;
      var after := elapsed + env.getDuration(a);
      if Missed(env.store(a), id) {
        var next := after + Backoff(a, env.jitter(a));
        MeasureDecreases(env, timeout, elapsed, next);
        RacerFromOutcome(env, id, t0, timeout, next, a);
      }
    }
  }

  /**
   * The poller's clock, in seconds from time zero, at the loop's head after
   * `k` attempts that all missed: each attempt adds the time of its GET and
   * its jittered sleep.
   */
  function Head(env: RacerEnv, k: nat): (t: real)
    ensures t >= 0.0
  {
    if k == 0 then 0.0 else Head(env, k - 1) + env.getDuration(k) + Backoff(k, env.jitter(k))
  }

  /** Every one of the first `n` attempts started before the timeout. */
  predicate StartedBefore(env: RacerEnv, timeout: real, n: nat) {
    forall a :: 0 <= a < n ==> Head(env, a) < timeout
  }

  /**
   * The times of a poll that made `n` attempts: every attempt started
   * before the timeout; a detection is stamped at the end of the detecting
   * GET; no detection is reported only once the head after the last attempt
   * is at or past the timeout.
   */
  predicate Timed(env: RacerEnv, t0: real, timeout: real, out: RacerOutcome, n: nat) {
    StartedBefore(env, timeout, n) &&
    (out.RacerResult? && out.found ==> n >= 1 && out.detectedAt == Some(t0 + Head(env, n - 1) + env.getDuration(n))) &&
    (out.RacerResult? && !out.found ==> Head(env, n) >= timeout)
  }

  /** When the poll's times are taken, from any head on the timeline, they are as `Timed` says. */
  lemma {:induction false} RacerFromTimeline(env: RacerEnv, id: string, t0: real, timeout: real, elapsed: real, attempt: nat)
    requires WellTimed(env) && elapsed == Head(env, attempt) && StartedBefore(env, timeout, attempt)
    ensures var (out, n) := RacerFrom(env, id, t0, timeout, elapsed, attempt); Timed(env, t0, timeout, out, n)
    decreases RacerMeasure(env, timeout, elapsed)
  {
    if elapsed < timeout {
      var a := attempt + 1;
      if Missed(env.store(a), id) {
        var next := RacerFromMissed(env, id, t0, timeout, elapsed, attempt);
        StartedBeforeExtend(env, timeout, attempt);
        RacerFromTimeline(env, id, t0, timeout, next, a);
      } else {
        LastAttemptTimeline(env, id, t0, timeout, elapsed, attempt);
      }
    }
  }

  /** An attempt that missed hands over to the loop's next head, one GET and one sleep later. */
  lemma RacerFromMissed(env: RacerEnv, id: string, t0: real, timeout: real, elapsed: real, attempt: nat) returns (next: real)
    requires WellTimed(env) && elapsed == Head(env, attempt)
    requires elapsed < timeout && Missed(env.store(attempt + 1), id)
    ensures next == Head(env, attempt + 1)
    ensures RacerMeasure(env, timeout, next) < RacerMeasure(env, timeout, elapsed)
    ensures RacerFrom(env, id, t0, timeout, elapsed, attempt) == RacerFrom(env, id, t0, timeout, next, attempt + 1)
  {
    var a := attempt + 1;
    next := elapsed + env.getDuration(a) + Backoff(a, env.jitter(a));
    MeasureDecreases(env, timeout, elapsed, next);
  }

  lemma StartedBeforeExtend(env: RacerEnv, timeout: real, n: nat)
    requires StartedBefore(env, timeout, n) && Head(env, n) < timeout
    ensures StartedBefore(env, timeout, n + 1)
  {
  }

  /** The timeline of a poll whose next attempt, started before the timeout, ends it. */
  lemma LastAttemptTimeline(env: RacerEnv, id: string, t0: real, timeout: real, elapsed: real, attempt: nat)
    requires WellTimed(env) && elapsed == Head(env, attempt) && StartedBefore(env, timeout, attempt)
    requires elapsed < timeout && !Missed(env.store(attempt + 1), id)
    ensures var (out, n) := RacerFrom(env, id, t0, timeout, elapsed, attempt);
      n == attempt + 1 && Timed(env, t0, timeout, out, n)
  {
    assert StartedBefore(env, timeout, attempt + 1);
  }

  /**
   * The racer's poll from time zero: it makes attempts for as long as the
   * time is not up, each started before the timeout, and stops without a
   * detection only when the head after its last attempt is at or past the
   * timeout; a detection is stamped at the end of the detecting GET, so the
   * propagation delay is the time of the attempts before it, their sleeps
   * included, plus that GET's own.
   */
  lemma RacerPollTimeline(env: RacerEnv, id: string, t0: real, timeout: real)
    requires WellTimed(env)
    ensures var (out, n) := RacerPoll(env, id, t0, timeout);
      StartedBefore(env, timeout, n) &&
      (out.RacerResult? && !out.found ==> out.attempts == n && Head(env, n) >= timeout) &&
      (out.RacerResult? && out.found ==>
        n >= 1 && out.attempts == n && AllMissed(env, id, n - 1) && Detects(env.store(n), id) &&
        out.detectedAt == Some(t0 + Head(env, n - 1) + env.getDuration(n)) &&
        PropagationDelay(out, t0) == Some(Head(env, n - 1) + env.getDuration(n)))
  {
    RacerFromOutcome(env, id, t0, timeout, 0.0, 0);
    RacerFromTimeline(env, id, t0, timeout, 0.0, 0);
  }

  /**
   * What a poll that issued `n` GETs reports: each started before the
   * timeout and all but the last missed; a result counts the `n` GETs; not
   * found is reported only once the head after the last attempt is at or
   * past the timeout, with every GET missed; a detection is the last GET
   * showing the ID, stamped at its end; any other exception comes from the
   * last GET.
   */
  predicate RacerReports(env: RacerEnv, id: string, t0: real, timeout: real, outcome: RacerOutcome, n: nat) {
    StartedBefore(env, timeout, n) && (n >= 1 ==> AllMissed(env, id, n - 1)) &&
    (outcome.RacerResult? ==> outcome.attempts == n) &&
    (outcome.RacerResult? && !outcome.found ==>
      outcome.detectedAt.None? && AllMissed(env, id, n) && Head(env, n) >= timeout) &&
    (outcome.RacerResult? && outcome.found ==>
      n >= 1 && Detects(env.store(n), id) && outcome.detectedAt == Some(t0 + Head(env, n - 1) + env.getDuration(n))) &&
    (outcome.RacerFailed? ==> n >= 1 && env.store(n) == OtherFailure(outcome.message))
  }

  /** The racer's poll from time zero reports what `RacerReports` says about its own GETs. */
  lemma RacerPollReports(env: RacerEnv, id: string, t0: real, timeout: real)
    requires WellTimed(env)
    ensures var (out, n) := RacerPoll(env, id, t0, timeout); RacerReports(env, id, t0, timeout, out, n)
  {
    RacerFromOutcome(env, id, t0, timeout, 0.0, 0);
    RacerPollTimeline(env, id, t0, timeout);
  }

  /** `smart_poll_until_match`: poll with jittered exponential backoff until the rule ID shows or the time is up. */
  method SmartPollUntilMatch(env: RacerEnv, expectedRuleId: string, t0: real, timeout: real) returns (outcome: RacerOutcome)
    requires WellTimed(env)
    ensures outcome == RacerPoll(env, expectedRuleId, t0, timeout).0
    ensures RacerReports(env, expectedRuleId, t0, timeout, outcome, RacerPoll(env, expectedRuleId, t0, timeout).1)
  {
    var attempt := 0;
    var elapsed := 0.0;
    while elapsed < timeout
      invariant elapsed >= 0.0
      invariant RacerFrom(env, expectedRuleId, t0, timeout, elapsed, attempt) == RacerPoll(env, expectedRuleId, t0, timeout)
      decreases RacerMeasure(env, timeout, elapsed)
    {
      ghost var head := elapsed;
      attempt := attempt + 1;
      var response := env.store(attempt);
      elapsed := elapsed + env.getDuration(attempt);
      match response {
        case Returned(config) =>
          if AnyRuleHasId(config.rules, expectedRuleId) {
            RacerPollReports(env, expectedRuleId, t0, timeout);
            return RacerResult(true, attempt, Some(t0 + elapsed));
          }
        case ClientError(_) =>
        case OtherFailure(message) =>
          RacerPollReports(env, expectedRuleId, t0, timeout);
          return RacerFailed(message);
      }
      var sleepTime := Backoff(attempt, env.jitter(attempt));
      elapsed := elapsed + sleepTime;
      MeasureDecreases(env, timeout, head, elapsed);
    }
    RacerPollReports(env, expectedRuleId, t0, timeout);
    return RacerResult(false, attempt, None);
  }

  // ---------------------------------------------------------------------
  // The racer's statistics row

  /** `detected_at - t0` when the rule was found, nothing otherwise. */
  function PropagationDelay(out: RacerOutcome, t0: real): (delay: Option<real>)
    requires out.RacerResult?
    ensures delay.Some? <==> out.found && out.detectedAt.Some?
  {
    if out.found && out.detectedAt.Some? then Some(out.detectedAt.value - t0) else None
  }

  /** A detected propagation took at least one GET's time: the delay is positive. */
  lemma DelayIsPositive(env: RacerEnv, id: string, t0: real, timeout: real)
    requires WellTimed(env)
    ensures var out := RacerPoll(env, id, t0, timeout).0;
      out.RacerResult? ==>
        (PropagationDelay(out, t0).Some? <==> out.found) &&
        (out.found ==> PropagationDelay(out, t0).value >= env.minGet > 0.0)
  {
    RacerFromOutcome(env, id, t0, timeout, 0.0, 0);
  }

  /** One row of the racer's results. */
  datatype RacerRow = RacerRow(iteration: nat, found: bool, delaySec: Option<real>, apiCalls: nat)

  function RowOf(i: nat, out: RacerOutcome, t0: real): (row: RacerRow)
    requires out.RacerResult?
    ensures row.apiCalls == out.attempts && row.found == out.found
    ensures row.delaySec == PropagationDelay(out, t0)
  {
    RacerRow(i, out.found, PropagationDelay(out, t0), out.attempts)
  }

  /** The API calls a row reports are the GETs its poll issued, and its delay is present exactly when the rule was found. */
  lemma RowCountsGets(env: RacerEnv, id: string, t0: real, timeout: real, i: nat)
    requires WellTimed(env)
    ensures var (out, n) := RacerPoll(env, id, t0, timeout);
      out.RacerResult? ==>
        RowOf(i, out, t0).apiCalls == n && (RowOf(i, out, t0).delaySec.Some? <==> RowOf(i, out, t0).found)
  {
    RacerFromOutcome(env, id, t0, timeout, 0.0, 0);
  }
}
