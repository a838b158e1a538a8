/**
 * The stand-alone control-plane consistency test: it writes a lifecycle
 * configuration, polls until a GET shows exactly that configuration (one
 * second apart for the first thirty seconds, three seconds apart after),
 * records the first configuration it read and whether that was the new or
 * the previous one, and repeats with a fresh configuration.
 *
 * S3 is the per-iteration environment `PollEnv`: the response and the
 * duration of each GET the poller issues, numbered from 1 (a GET that fails
 * counts as well). The clock is measured in seconds from the poller's start.
 */
module ConsistencyScript {
  import opened Wrappers
  import opened Lifecycle
  import opened Clock
  import BaseWaiter

  const EarlyDenseSeconds: real := 30.0
  const EarlyInterval: real := 1.0
  const LateIntervalSeconds: real := 3.0
  const TimeoutSeconds: real := 600.0

  // ---------------------------------------------------------------------
  // Configurations

  /** The configuration the script writes: one enabled rule for the whole bucket. */
  function LifecycleConfig(days: int, ruleId: string): (c: Config)
    ensures |c.rules| == 1
    ensures c.rules[0].id == ruleId && c.rules[0].status == Enabled
    ensures c.rules[0].prefix == "" && c.rules[0].expirationDays == days
  {
    Config([Rule(ruleId, Enabled, "", days)])
  }

  /**
   * Comparison of the key-sorted JSON renderings: two configurations are
   * equal when every rule agrees in every field, whatever the key order of
   * the dictionaries. This is stricter than the waiters' check, which only
   * compares IDs and statuses.
   */
  function EqualLifecycle(a: Config, b: Config): (r: bool)
    ensures r ==> BaseWaiter.RulesMatch(a.rules, b.rules)
    ensures r ==> |a.rules| == |b.rules| && forall i :: 0 <= i < |a.rules| ==> a.rules[i].expirationDays == b.rules[i].expirationDays
  {
    a == b
  }

  lemma EqualLifecycleIsEquivalence(a: Config, b: Config, c: Config)
    ensures EqualLifecycle(a, a)
    ensures EqualLifecycle(a, b) == EqualLifecycle(b, a)
    ensures EqualLifecycle(a, b) && EqualLifecycle(b, c) ==> EqualLifecycle(a, c)
  {
  }

  /** A configuration with the same rule ID and status but other days matches for the waiters, not for the script. */
  lemma StricterThanWaiterCheck(ruleId: string)
    ensures BaseWaiter.RulesMatch(LifecycleConfig(30, ruleId).rules, LifecycleConfig(31, ruleId).rules)
    ensures !EqualLifecycle(LifecycleConfig(30, ruleId), LifecycleConfig(31, ruleId))
  {
    var a, b := LifecycleConfig(30, ruleId), LifecycleConfig(31, ruleId);
    assert a.rules[0].expirationDays != b.rules[0].expirationDays;
  }

  /** The expiration of iteration `i`'s configuration. */
  function IterationDays(i: nat): (days: int)
    ensures 30 <= days <= 36
    ensures days == 30 + i % 7
  {
    30 + i % 7
  }

  /** Configurations with different rule IDs are never equal. */
  lemma DistinctIdsDistinctConfigs(i: nat, j: nat, idI: string, idJ: string)
    requires idI != idJ
    ensures !EqualLifecycle(LifecycleConfig(IterationDays(i), idI), LifecycleConfig(IterationDays(j), idJ))
  {
    assert LifecycleConfig(IterationDays(i), idI).rules[0].id != LifecycleConfig(IterationDays(j), idJ).rules[0].id;
  }

  // ---------------------------------------------------------------------
  // The poller

  /** What S3 does for the GETs of one poll: the response and the duration of GET number `g`, from 1. */
  datatype PollEnv = PollEnv(store: nat -> GetResponse, getDuration: nat -> Duration)

  /** The error codes that may show briefly right after a PUT and are retried. */
  predicate Tolerated(code: string)
    ensures Tolerated(code) <==> code in {NoSuchLifecycleConfiguration, "NoSuchBucket", "AccessDenied"}
  {
    code == NoSuchLifecycleConfiguration || code == "NoSuchBucket" || code == "AccessDenied"
  }

  /** What `poll_until_match` returns, or the exception it lets out. */
  datatype PollOutcome =
    | PollResult(matched: bool, elapsed: real, polls: nat, firstRead: Option<Config>, firstReadElapsed: Option<real>)
    | PollRaised(code: string)
    | PollFailed(message: string)

  /** The loop's variables at the head of an iteration, and the number of GETs issued so far. */
  datatype PollState = PollState(elapsed: real, gets: nat, polls: nat, firstRead: Option<Config>, firstReadElapsed: Option<real>)

  /** The sleep after a GET that ended `age` seconds into the poll. */
  function Cadence(age: real): (sleep: real)
    ensures sleep == EarlyInterval || sleep == LateIntervalSeconds
    ensures sleep >= 1.0
  {
    if age < EarlyDenseSeconds then EarlyInterval else LateIntervalSeconds
  }

  function PollMeasure(timeout: real, s: PollState): int {
    if s.elapsed <= timeout then (timeout - s.elapsed).Floor + 1 else 0
  }

  /** The poll from head state `s` to its end, with the number of GETs it issued in all. */
  function PollFrom(env: PollEnv, expected: Config, timeout: real, s: PollState): (out: (PollOutcome, nat))
    ensures out.1 >= s.gets
    ensures out.0.PollResult? ==> s.polls <= out.0.polls <= s.polls + (out.1 - s.gets)
    decreases PollMeasure(timeout, s)
  {
    if s.elapsed > timeout then
      (PollResult(false, s.elapsed, s.polls, s.firstRead, s.firstReadElapsed), s.gets)
    else
      var g := s.gets + 1;
      var age := s.elapsed + env.getDuration(g);
      match env.store(g)
      case Returned(current) =>
        var first := if s.firstRead.None? then Some(current) else s.firstRead;
        var firstAge := if s.firstRead.None? then Some(age) else s.firstReadElapsed;
        if EqualLifecycle(current, expected) then
          (PollResult(true, age, s.polls + 1, first, firstAge), g)
        else
          PollFrom(env, expected, timeout, PollState(age + Cadence(age), g, s.polls + 1, first, firstAge))
      case ClientError(code) =>
        if Tolerated(code) then
          PollFrom(env, expected, timeout, PollState(age + Cadence(age), g, s.polls, s.firstRead, s.firstReadElapsed))
        else
          (PollRaised(code), g)
      case OtherFailure(message) =>
        (PollFailed(message), g)
  }

  function Poll(env: PollEnv, expected: Config, timeout: real): (PollOutcome, nat) {
    PollFrom(env, expected, timeout, PollState(0.0, 0, 0, None, None))
  }

  // ---------------------------------------------------------------------
  // The poll's timeline

  /**
   * When GET `g` (from 1) starts, in seconds from the poller's start: the
   * first at once, each later one one second after the previous GET ended
   * while that ended within the first thirty seconds, three seconds after
   * it later on. Every head of the loop the poll reaches is such a start,
   * whatever the responses were.
   */
  function GetStart(env: PollEnv, g: nat): (t: real)
    ensures t >= 0.0
  {
    if g <= 1 then 0.0
    else
      var ended := GetStart(env, g - 1) + env.getDuration(g - 1);
      ended + (if ended < EarlyDenseSeconds then EarlyInterval else LateIntervalSeconds)
  }

  /** When GET `g` ends: the age at which its response is observed. */
  function GetEnd(env: PollEnv, g: nat): (t: real)
    ensures t >= GetStart(env, g)
  {
    GetStart(env, g) + env.getDuration(g)
  }

  /** The GETs start at least a second apart: GET `g` starts no earlier than `g - 1` seconds in. */
  lemma {:induction false} StartsASecondApart(env: PollEnv, g: nat)
    requires g >= 1
    ensures GetStart(env, g) >= (g - 1) as real
  {
    if g > 1 {
      StartsASecondApart(env, g - 1);
    }
  }

  /** Every one of the first `n` GETs started at or before the timeout. */
  predicate StartedInTime(env: PollEnv, timeout: real, n: nat) {
    forall g :: 1 <= g <= n ==> GetStart(env, g) <= timeout
  }

  /** The end of the earliest of the first `n` GETs that returned a configuration. */
  function FirstReturnedEnd(env: PollEnv, n: nat): (t: Option<real>)
    ensures t.Some? <==> ReturnedCount(env.store, n) > 0
  {
    if n == 0 then None
    else if FirstReturnedEnd(env, n - 1).Some? then FirstReturnedEnd(env, n - 1)
    else if env.store(n).Returned? then Some(GetEnd(env, n))
    else None
  }

  /** The number of GETs among the first `n` that returned a configuration. */
  function ReturnedCount(store: nat -> GetResponse, n: nat): (count: nat)
    ensures count <= n
  {
    if n == 0 then 0 else ReturnedCount(store, n - 1) + (if store(n).Returned? then 1 else 0)
  }

  /** The configuration returned by the earliest of the first `n` GETs that returned one. */
  function FirstReturned(store: nat -> GetResponse, n: nat): (first: Option<Config>)
    ensures first.Some? <==> ReturnedCount(store, n) > 0
  {
    if n == 0 then None
    else if FirstReturned(store, n - 1).Some? then FirstReturned(store, n - 1)
    else if store(n).Returned? then Some(store(n).config)
    else None
  }

  /** Every GET among the first `n` was retried: a tolerated error, or a configuration other than the expected one. */
  predicate AllRetried(store: nat -> GetResponse, expected: Config, n: nat) {
    forall g :: 1 <= g <= n ==> Retried(store(g), expected)
  }

  /** A response after which the poller goes on polling. */
  predicate Retried(response: GetResponse, expected: Config) {
    match response
    case Returned(c) => !EqualLifecycle(c, expected)
    case ClientError(code) => Tolerated(code)
    case OtherFailure(_) => false
  }

  /** The head state after a GET that was retried. */
  function NextHead(env: PollEnv, s: PollState): PollState {
    var g := s.gets + 1;
    var age := s.elapsed + env.getDuration(g);
    match env.store(g)
    case Returned(current) =>
      PollState(age + Cadence(age), g, s.polls + 1,
                if s.firstRead.None? then Some(current) else s.firstRead,
                if s.firstRead.None? then Some(age) else s.firstReadElapsed)
    case _ =>
      PollState(age + Cadence(age), g, s.polls, s.firstRead, s.firstReadElapsed)
  }

  lemma NextHeadKeepsInvariant(env: PollEnv, expected: Config, s: PollState)
    requires PollInvariant(env, expected, s) && Retried(env.store(s.gets + 1), expected)
    ensures PollInvariant(env, expected, NextHead(env, s))
    ensures NextHead(env, s).elapsed >= s.elapsed + 1.0
  {
  }

  /** A GET that is retried hands over to the loop's next iteration. */
  lemma PollFromRetried(env: PollEnv, expected: Config, timeout: real, s: PollState)
    requires s.elapsed <= timeout && Retried(env.store(s.gets + 1), expected)
    ensures PollFrom(env, expected, timeout, s) == PollFrom(env, expected, timeout, NextHead(env, s))
  {
  }

  predicate PollInvariant(env: PollEnv, expected: Config, s: PollState) {
    s.polls == ReturnedCount(env.store, s.gets) &&
    s.firstRead == FirstReturned(env.store, s.gets) &&
    (s.firstRead.Some? <==> s.firstReadElapsed.Some?) &&
    AllRetried(env.store, expected, s.gets)
  }

  /**
   * What the poll reports, from any head state its loop reaches: the GETs
   * before the last were all retried; a match is the last GET returning the
   * expected configuration; a report of no match comes only once the
   * elapsed time exceeds the timeout (strictly); an error code outside the
   * tolerated three escapes as the exception, and so does any failure that
   * is not a `ClientError`. `polls` counts the GETs that returned, and the
   * first read is the earliest configuration returned, never overwritten.
   */
  lemma {:induction false} PollFromOutcome(env: PollEnv, expected: Config, timeout: real, s: PollState)
    requires PollInvariant(env, expected, s)
    ensures var (out, n) := PollFrom(env, expected, timeout, s);
      s.gets <= n && (n >= 1 ==> AllRetried(env.store, expected, n - 1)) &&
      (out.PollResult? && !out.matched ==> AllRetried(env.store, expected, n)) &&
      (out.PollResult? && out.matched ==>
        n >= 1 && env.store(n).Returned? && EqualLifecycle(env.store(n).config, expected)) &&
      (out.PollResult? && !out.matched ==> out.elapsed > timeout) &&
      (out.PollRaised? ==> n >= 1 && env.store(n) == ClientError(out.code) && !Tolerated(out.code)) &&
      (out.PollFailed? ==> n >= 1 && env.store(n) == OtherFailure(out.message)) &&
      (out.PollResult? ==>
        out.polls == ReturnedCount(env.store, n) &&
        out.firstRead == FirstReturned(env.store, n) &&
        (out.firstRead.Some? <==> out.firstReadElapsed.Some?))
    decreases PollMeasure(timeout, s)
  {
    if s.elapsed <= timeout && Retried(env.store(s.gets + 1), expected) {
      NextHeadKeepsInvariant(env, expected, s);
      PollFromRetried(env, expected, timeout, s);
      PollFromOutcome(env, expected, timeout, NextHead(env, s));
    }
  }

  /** A head state on the timeline: the next GET's start, the first read's age, and GETs that all started in time. */
  predicate OnTimeline(env: PollEnv, timeout: real, s: PollState) {
    s.elapsed == GetStart(env, s.gets + 1) &&
    s.firstReadElapsed == FirstReturnedEnd(env, s.gets) &&
    StartedInTime(env, timeout, s.gets)
  }

  lemma NextHeadKeepsTimeline(env: PollEnv, expected: Config, timeout: real, s: PollState)
    requires PollInvariant(env, expected, s) && OnTimeline(env, timeout, s)
    requires s.elapsed <= timeout && Retried(env.store(s.gets + 1), expected)
    ensures OnTimeline(env, timeout, NextHead(env, s))
  {
    var g := s.gets + 1;
    assert GetStart(env, g + 1) == NextHead(env, s).elapsed;
    assert FirstReturnedEnd(env, g) == NextHead(env, s).firstReadElapsed;
  }

  /**
   * The times of a poll that issued `n` GETs: every GET started at or
   * before the timeout; a match reports the end of its last GET; a report
   * of no match comes at the start the next GET would have had, the first
   * past the timeout; and the first read's age is the end of the earliest
   * GET that returned a configuration.
   */
  predicate PollTimed(env: PollEnv, timeout: real, out: PollOutcome, n: nat) {
    StartedInTime(env, timeout, n) &&
    (out.PollResult? && out.matched ==> out.elapsed == GetEnd(env, n)) &&
    (out.PollResult? && !out.matched ==> out.elapsed == GetStart(env, n + 1) > timeout) &&
    (out.PollResult? ==> out.firstReadElapsed == FirstReturnedEnd(env, n))
  }

  /** When the poll's times are taken, from any head state on the timeline, they are as `PollTimed` says. */
  lemma {:induction false} PollFromTimeline(env: PollEnv, expected: Config, timeout: real, s: PollState)
    requires PollInvariant(env, expected, s) && OnTimeline(env, timeout, s)
    ensures var (out, n) := PollFrom(env, expected, timeout, s); PollTimed(env, timeout, out, n)
    decreases PollMeasure(timeout, s)
  {
    if s.elapsed <= timeout {
      if Retried(env.store(s.gets + 1), expected) {
        NextHeadKeepsInvariant(env, expected, s);
        NextHeadKeepsTimeline(env, expected, timeout, s);
        PollFromRetried(env, expected, timeout, s);
        PollFromTimeline(env, expected, timeout, NextHead(env, s));
      } else {
        LastGetTimeline(env, expected, timeout, s);
      }
    }
  }

  /** The timeline of a poll whose next GET, started in time, ends it. */
  lemma LastGetTimeline(env: PollEnv, expected: Config, timeout: real, s: PollState)
    requires PollInvariant(env, expected, s) && OnTimeline(env, timeout, s)
    requires s.elapsed <= timeout && !Retried(env.store(s.gets + 1), expected)
    ensures var (out, n) := PollFrom(env, expected, timeout, s);
      n == s.gets + 1 && PollTimed(env, timeout, out, n) && (out.PollResult? ==> out.matched)
  {
    var g := s.gets + 1;
    assert StartedInTime(env, timeout, g);
    if env.store(g).Returned? {
      assert s.firstRead.None? <==> FirstReturnedEnd(env, s.gets).None?;
      assert FirstReturnedEnd(env, g) == if s.firstRead.None? then Some(GetEnd(env, g)) else s.firstReadElapsed;
    }
  }

  /** The first GET to return a configuration sets the first read; later ones leave it alone. */
  lemma FirstReadIsKept(store: nat -> GetResponse, n: nat, m: nat)
    requires n <= m && FirstReturned(store, n).Some?
    ensures FirstReturned(store, m) == FirstReturned(store, n)
    decreases m - n
  {
  }

  /** A match found by the poll is the expected configuration as a whole, not only its rule IDs. */
  lemma PollOutcomeOfPoll(env: PollEnv, expected: Config, timeout: real)
    ensures var (out, n) := Poll(env, expected, timeout);
      (out.PollResult? && out.matched ==> env.store(n) == Returned(expected)) &&
      (out.PollResult? ==> out.polls <= n && (out.polls == 0 <==> out.firstRead.None?))
  {
    PollFromOutcome(env, expected, timeout, PollState(0.0, 0, 0, None, None));
  }

  /**
   * The poll's timeline from its start. Each GET after the first starts one
   * second after the previous one ended if that was within the first thirty
   * seconds, three seconds after it otherwise; every GET issued started at
   * or before the timeout, so there are at most `timeout + 1` of them; a
   * match reports the end of the matching GET; no match is reported at the
   * start the next GET would have had, the first one past the timeout; and
   * the first read's age is the end of the first GET that returned a
   * configuration.
   */
  lemma PollTimeline(env: PollEnv, expected: Config, timeout: real)
    ensures var (out, n) := Poll(env, expected, timeout);
      (forall g :: 1 <= g < n ==>
        GetStart(env, g + 1) == GetEnd(env, g) + (if GetEnd(env, g) < 30.0 then 1.0 else 3.0)) &&
      (forall g :: 1 <= g < n ==> GetStart(env, g + 1) == GetEnd(env, g) + Cadence(GetEnd(env, g))) &&
      StartedInTime(env, timeout, n) && (n >= 1 ==> (n - 1) as real <= timeout) &&
      (out.PollResult? && out.matched ==> out.elapsed == GetEnd(env, n)) &&
      (out.PollResult? && !out.matched ==> out.elapsed == GetStart(env, n + 1) > timeout) &&
      (out.PollResult? ==> out.firstReadElapsed == FirstReturnedEnd(env, n))
  {
    var s := PollState(0.0, 0, 0, None, None);
    PollFromTimeline(env, expected, timeout, s);
    var n := Poll(env, expected, timeout).1;
    if n >= 1 {
      StartsASecondApart(env, n);
    }
  }

  /**
   * What a poll that issued `n` GETs reports: each GET started at or before
   * the timeout and all but the last were retried; a match is the last GET
   * showing the whole expected configuration and is reported at its end; no
   * match is reported only at the start the next GET would have had, past
   * the timeout, after every GET was retried; an exception comes from the
   * last GET; `polls` counts the GETs that returned and the first read is
   * the earliest of them, with its end.
   */
  predicate Reports(env: PollEnv, expected: Config, timeout: real, outcome: PollOutcome, n: nat) {
    StartedInTime(env, timeout, n) && (n >= 1 ==> AllRetried(env.store, expected, n - 1)) &&
    (outcome.PollResult? && outcome.matched ==>
      n >= 1 && env.store(n) == Returned(expected) && outcome.elapsed == GetEnd(env, n)) &&
    (outcome.PollResult? && !outcome.matched ==>
      AllRetried(env.store, expected, n) && outcome.elapsed == GetStart(env, n + 1) > timeout) &&
    (outcome.PollRaised? ==> n >= 1 && env.store(n) == ClientError(outcome.code) && !Tolerated(outcome.code)) &&
    (outcome.PollFailed? ==> n >= 1 && env.store(n) == OtherFailure(outcome.message)) &&
    (outcome.PollResult? ==>
      outcome.polls == ReturnedCount(env.store, n) && outcome.firstRead == FirstReturned(env.store, n) &&
      outcome.firstReadElapsed == FirstReturnedEnd(env, n))
  }

  /** The poll from its start reports what `Reports` says about its own GETs. */
  lemma PollReports(env: PollEnv, expected: Config, timeout: real)
    ensures var (out, n) := Poll(env, expected, timeout); Reports(env, expected, timeout, out, n)
  {
    PollFromOutcome(env, expected, timeout, PollState(0.0, 0, 0, None, None));
    PollTimeline(env, expected, timeout);
    PollOutcomeOfPoll(env, expected, timeout);
  }

  /** `poll_until_match`: poll until a GET shows the expected configuration or the timeout is exceeded. */
  method PollUntilMatch(env: PollEnv, expected: Config, timeout: real) returns (outcome: PollOutcome)
    ensures outcome == Poll(env, expected, timeout).0
    ensures Reports(env, expected, timeout, outcome, Poll(env, expected, timeout).1)
  {
    var elapsed := 0.0;
    var polls := 0;
    var firstSnapshot: Option<Config> := None;
    var firstSnapshotAge: Option<real> := None;
    var gets := 0;  // numbers the GETs, for the environment
    while true
      invariant PollFrom(env, expected, timeout, PollState(elapsed, gets, polls, firstSnapshot, firstSnapshotAge)) ==
        Poll(env, expected, timeout)
      decreases PollMeasure(timeout, PollState(elapsed, gets, polls, firstSnapshot, firstSnapshotAge))
    {
      if elapsed > timeout {
        PollReports(env, expected, timeout);
        return PollResult(false, elapsed, polls, firstSnapshot, firstSnapshotAge);
      }
      ghost var head := PollState(elapsed, gets, polls, firstSnapshot, firstSnapshotAge);
      gets := gets + 1;
      var response := env.store(gets);
      var observedAge := elapsed + env.getDuration(gets);
      match response {
        case Returned(current) =>
          polls := polls + 1;
          if firstSnapshot.None? {
            firstSnapshot := Some(current);
            firstSnapshotAge := Some(observedAge);
          }
          if EqualLifecycle(current, expected) {
            PollReports(env, expected, timeout);
            return PollResult(true, observedAge, polls, firstSnapshot, firstSnapshotAge);
          }
        case ClientError(code) =>
          if !Tolerated(code) {
            PollReports(env, expected, timeout);
            return PollRaised(code);
          }
        case OtherFailure(message) =>
          PollReports(env, expected, timeout);
          return PollFailed(message);
      }
      var currentAge := observedAge;
      if currentAge < EarlyDenseSeconds {
        elapsed := currentAge + EarlyInterval;
      } else {
        elapsed := currentAge + LateIntervalSeconds;
      }
      assert PollFrom(env, expected, timeout, head) ==
        PollFrom(env, expected, timeout, PollState(elapsed, gets, polls, firstSnapshot, firstSnapshotAge));
    }
  }

  // ---------------------------------------------------------------------
  // The control-plane test

  /**
   * One iteration's input: the fresh rule ID, the exception `put_lifecycle`
   * raises (`None` when S3 acknowledges the PUT), and what S3 does during
   * the poll.
   */
  datatype Iteration = Iteration(ruleId: string, putFailure: Option<string>, env: PollEnv)

  /** One row of the control-plane results. */
  datatype Row = Row(
    iteration: nat,
    matched: bool,
    propagationSec: real,
    polls: nat,
    timeoutUsed: real,
    firstReadSec: Option<real>,
    firstReadRule: Option<string>,
    firstReadMatched: bool,
    firstReadStale: bool)

  /** The configuration written in iteration `i`. */
  function IterationConfig(i: nat, ruleId: string): Config {
    LifecycleConfig(IterationDays(i), ruleId)
  }

  /** The row for iteration `i`, given its configuration, the previous one (if any) and the poll's result. */
  function IterationRow(i: nat, cfg: Config, prev: Option<Config>, out: PollOutcome): (row: Row)
    requires out.PollResult?
    ensures row.firstReadMatched <==> out.firstRead == Some(cfg)
    ensures row.firstReadStale <==> prev.Some? && out.firstRead == prev
    ensures row.firstReadRule.Some? <==> out.firstRead.Some? && |out.firstRead.value.rules| > 0
    ensures row.iteration == i && row.matched == out.matched && row.polls == out.polls
    ensures row.propagationSec == out.elapsed && row.firstReadSec == out.firstReadElapsed
    ensures row.timeoutUsed == TimeoutSeconds
  {
    var firstRule :=
      if out.firstRead.Some? && |out.firstRead.value.rules| > 0 then Some(out.firstRead.value.rules[0].id) else None;
    Row(i, out.matched, out.elapsed, out.polls, TimeoutSeconds, out.firstReadElapsed, firstRule,
        out.firstRead.Some? && EqualLifecycle(out.firstRead.value, cfg),
        out.firstRead.Some? && prev.Some? && EqualLifecycle(out.firstRead.value, prev.value))
  }

  /** With fresh rule IDs a first read cannot be both the new configuration and the previous one. */
  lemma NeverStaleAndMatched(i: nat, ruleId: string, prevId: string, out: PollOutcome)
    requires out.PollResult? && i > 0 && ruleId != prevId
    ensures var row := IterationRow(i, IterationConfig(i, ruleId), Some(IterationConfig(i - 1, prevId)), out);
      !(row.firstReadMatched && row.firstReadStale)
  {
    DistinctIdsDistinctConfigs(i, i - 1, ruleId, prevId);
  }

  /** The previous iteration's configuration, none before the first iteration. */
  function Previous(iters: seq<Iteration>, i: nat): Option<Config>
    requires i <= |iters|
  {
    if i == 0 then None else Some(IterationConfig(i - 1, iters[i - 1].ruleId))
  }

  /**
   * The times a completed iteration records: the propagation time is the
   * end of the matching GET, or, without a match, the first GET start past
   * the 600-second timeout; the first read's time is the end of the first
   * GET that returned a configuration.
   */
  lemma IterationRowTimes(iters: seq<Iteration>, i: nat)
    requires i < |iters| && Completes(iters, i)
    ensures var (out, n) := Poll(iters[i].env, IterationConfig(i, iters[i].ruleId), TimeoutSeconds);
      var row := IterationRow(i, IterationConfig(i, iters[i].ruleId), Previous(iters, i), PollOf(iters, i));
      (row.matched ==> row.propagationSec == GetEnd(iters[i].env, n)) &&
      (!row.matched ==> row.propagationSec == GetStart(iters[i].env, n + 1) > 600.0) &&
      row.firstReadSec == FirstReturnedEnd(iters[i].env, n) && row.timeoutUsed == 600.0
  {
    PollTimeline(iters[i].env, IterationConfig(i, iters[i].ruleId), TimeoutSeconds);
  }

  /** The first iteration is never stale: there is no previous configuration. */
  lemma FirstIterationNeverStale(iters: seq<Iteration>, out: PollOutcome)
    requires |iters| > 0 && out.PollResult?
    ensures !IterationRow(0, IterationConfig(0, iters[0].ruleId), Previous(iters, 0), out).firstReadStale
  {
  }

  /** The outcome of the whole test: all rows, or the exception a PUT or a poll let out. */
  datatype ControlPlaneOutcome =
    | Rows(rows: seq<Row>)
    | PutRaised(iteration: nat, message: string)
    | Raised(iteration: nat, failure: PollOutcome)

  /** What the poll of iteration `i` ends with. */
  function PollOf(iters: seq<Iteration>, i: nat): PollOutcome
    requires i < |iters|
  {
    Poll(iters[i].env, IterationConfig(i, iters[i].ruleId), TimeoutSeconds).0
  }

  /** Iteration `i` runs to its row: its PUT is acknowledged and its poll returns. */
  predicate Completes(iters: seq<Iteration>, i: nat)
    requires i < |iters|
  {
    iters[i].putFailure.None? && PollOf(iters, i).PollResult?
  }

  /** The rows of the first `n` iterations, each of which completed. */
  predicate RowsUpTo(iters: seq<Iteration>, rows: seq<Row>, n: nat)
    requires n <= |iters| && |rows| == n
  {
    forall j :: 0 <= j < n ==>
      Completes(iters, j) &&
      rows[j] == IterationRow(j, IterationConfig(j, iters[j].ruleId), Previous(iters, j), PollOf(iters, j))
  }

  lemma RowsUpToExtend(iters: seq<Iteration>, rows: seq<Row>, n: nat, row: Row)
    requires n < |iters| && |rows| == n && RowsUpTo(iters, rows, n)
    requires Completes(iters, n)
    requires row == IterationRow(n, IterationConfig(n, iters[n].ruleId), Previous(iters, n), PollOf(iters, n))
    ensures RowsUpTo(iters, rows + [row], n + 1)
  {
    var rows' := rows + [row];
    forall j | 0 <= j < n + 1
      ensures Completes(iters, j)
      ensures rows'[j] == IterationRow(j, IterationConfig(j, iters[j].ruleId), Previous(iters, j), PollOf(iters, j))
    {
      if j < n {
        assert rows'[j] == rows[j];
      }
    }
  }

  /** The first `n` iterations all complete. */
  predicate CompletedBefore(iters: seq<Iteration>, n: nat)
    requires n <= |iters|
  {
    forall j :: 0 <= j < n ==> Completes(iters, j)
  }

  /**
   * `test_control_plane` from iteration `i` on, with `rows` the rows of the
   * iterations before it: write, poll and record, until an exception of a
   * PUT or of a poll ends the test.
   */
  function ControlPlaneFrom(iters: seq<Iteration>, i: nat, rows: seq<Row>): ControlPlaneOutcome
    requires i <= |iters|
    decreases |iters| - i
  {
    if i == |iters| then Rows(rows)
    else if iters[i].putFailure.Some? then PutRaised(i, iters[i].putFailure.value)
    else
      var out := PollOf(iters, i);
      if !out.PollResult? then Raised(i, out)
      else ControlPlaneFrom(iters, i + 1, rows + [IterationRow(i, IterationConfig(i, iters[i].ruleId), Previous(iters, i), out)])
  }

  /** What the test ends with, from iteration `i` on, when the iterations before it completed with `rows`. */
  lemma {:induction false} ControlPlaneFromOutcome(iters: seq<Iteration>, i: nat, rows: seq<Row>)
    requires i <= |iters| && |rows| == i && RowsUpTo(iters, rows, i)
    ensures var outcome := ControlPlaneFrom(iters, i, rows);
      (outcome.Rows? <==> CompletedBefore(iters, |iters|)) &&
      (outcome.Rows? ==> |outcome.rows| == |iters| && RowsUpTo(iters, outcome.rows, |iters|)) &&
      (outcome.PutRaised? ==>
        outcome.iteration < |iters| && iters[outcome.iteration].putFailure == Some(outcome.message) &&
        CompletedBefore(iters, outcome.iteration)) &&
      (outcome.Raised? ==>
        outcome.iteration < |iters| && iters[outcome.iteration].putFailure.None? &&
        outcome.failure == PollOf(iters, outcome.iteration) && !outcome.failure.PollResult? &&
        CompletedBefore(iters, outcome.iteration))
    decreases |iters| - i
  {
    assert CompletedBefore(iters, i);
    if i < |iters| {
      if !Completes(iters, i) {
        assert !CompletedBefore(iters, |iters|);
      } else {
        var row := IterationRow(i, IterationConfig(i, iters[i].ruleId), Previous(iters, i), PollOf(iters, i));
        RowsUpToExtend(iters, rows, i, row);
        ControlPlaneFromOutcome(iters, i + 1, rows + [row]);
      }
    }
  }

  /**
   * The whole test: one row per iteration when every PUT is acknowledged and
   * every poll returns; otherwise the exception of the first PUT or poll that
   * raised, after iterations that all completed.
   */
  lemma ControlPlaneEnds(iters: seq<Iteration>)
    ensures var outcome := ControlPlaneFrom(iters, 0, []);
      (outcome.Rows? <==> CompletedBefore(iters, |iters|)) &&
      (outcome.Rows? ==> |outcome.rows| == |iters| && RowsUpTo(iters, outcome.rows, |iters|)) &&
      (outcome.PutRaised? ==>
        outcome.iteration < |iters| && iters[outcome.iteration].putFailure == Some(outcome.message) &&
        CompletedBefore(iters, outcome.iteration)) &&
      (outcome.Raised? ==>
        outcome.iteration < |iters| && iters[outcome.iteration].putFailure.None? &&
        outcome.failure == PollOf(iters, outcome.iteration) && !outcome.failure.PollResult? &&
        CompletedBefore(iters, outcome.iteration))
  {
    ControlPlaneFromOutcome(iters, 0, []);
  }

  /**
   * One iteration of `test_control_plane`: write the configuration, poll for
   * it and append its row, or stop with the exception of the PUT or the poll.
   */
  method ControlPlaneIteration(iters: seq<Iteration>, i: nat, prevCfg: Option<Config>, rows: seq<Row>)
    returns (stop: Option<ControlPlaneOutcome>, rows': seq<Row>)
    requires i < |iters| && prevCfg == Previous(iters, i)
    ensures ControlPlaneFrom(iters, i, rows) == if stop.Some? then stop.value else ControlPlaneFrom(iters, i + 1, rows')
  {
    rows' := rows;
    if iters[i].putFailure.Some? {
      return Some(PutRaised(i, iters[i].putFailure.value)), rows';
    }
    var cfg := IterationConfig(i, iters[i].ruleId);
    var result := PollUntilMatch(iters[i].env, cfg, TimeoutSeconds);
    assert result == PollOf(iters, i);
    if !result.PollResult? {
      return Some(Raised(i, result)), rows';
    }
    rows' := rows + [IterationRow(i, cfg, prevCfg, result)];
    stop := None;
  }

  /**
   * `test_control_plane`: for each iteration write a fresh configuration,
   * poll for it, and record the row; an exception of the PUT or of the poll
   * ends the test.
   */
  method ControlPlane(iters: seq<Iteration>) returns (outcome: ControlPlaneOutcome)
    ensures outcome == ControlPlaneFrom(iters, 0, [])
  {
    var rows: seq<Row> := [];
    var prevCfg: Option<Config> := None;
    var i := 0;
    while i < |iters|
      invariant 0 <= i <= |iters| && prevCfg == Previous(iters, i)
      invariant ControlPlaneFrom(iters, i, rows) == ControlPlaneFrom(iters, 0, [])
    {
      var stop;
      stop, rows := ControlPlaneIteration(iters, i, prevCfg, rows);
      if stop.Some? {
        return stop.value;
      }
      prevCfg := Some(IterationConfig(i, iters[i].ruleId));
      i := i + 1;
    }
    return Rows(rows);
  }
}
