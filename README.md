# S3 lifecycle-propagation waiters, in Dafny

This project models the polling logic behind a set of experiments that
measure how long a change to an S3 bucket's lifecycle configuration takes
to become visible. It covers three pollers:

* **The waiter framework** (`waiter_strategies/`). A strategy object PUTs a
  fresh lifecycle configuration, then polls with GET until the rule IDs and
  statuses match or its timeout fires. There are four strategies:
  * Baseline: every 3 s, gives up at 180 s.
  * Extended: every 3 s, gives up at 600 s.
  * Hybrid: a 2/4/8/15 s schedule, gives up at 600 s.
  * Adaptive: a 2/4/8/10/15 s schedule. Its timeout is learned from the
    last twenty successful propagation times (`mean + 3·stdev` clamped to
    [300, 600], and 300 s while fewer than three samples exist).

  A delay simulator can stand in for S3's latency. On a test's first check
  it draws a delay from an empirical table, and it answers "no match" until
  that delay has passed since the first check. A suite runs tests one after
  another and collects their results. Around this sit the success/failure
  partition, the coverage estimate of a timeout against the table, and the
  name of the results file.
* **The control-plane script** (`test_s3_consistency.py`). Each iteration
  writes a configuration with a fresh rule ID. `poll_until_match` then polls
  every second for 30 s and every 3 s after that, until a GET shows exactly
  that configuration. It retries three "not visible yet" error codes and
  lets every other error out. The script records the first configuration
  it read and whether that was the new one or the previous one.
* **The control-plane racer** (`test_s3_consistency_concurrent.py`). A
  poller looks for a rule ID with exponential backoff and full jitter while
  a writer puts the configuration carrying it. The propagation delay is the
  detection time minus the race's time zero.

S3, the clock and the random generator are parameters of each run:

* the outcome of each PUT: acknowledged, or the exception it raises;
* the response and the duration of every GET, numbered from 1;
* the random draws.

Time is a real number of seconds. A sleep advances it by exactly its
argument. The bookkeeping between calls takes no time.

Each loop of the source is a method whose `ensures` ties its result to a
recursive function or a quantified predicate. The lemmas about that
function state what the source promises:

* counters and history;
* the success and timeout conditions;
* the error classification;
* the first read;
* the simulator's gating;
* the adaptive window.

The waiter is a class. Its `sim` field stands for the simulator's
`_simulated_delay`/`_propagation_start`, `historicalTimes` is the adaptive
window and `results` holds the suite's results. The four strategies share
one class and are told apart by a tagged variant, where the source uses a
chain of subclasses.

Modules:

* `Lifecycle`: rules, configurations, GET outcomes, and the decimal rendering of test numbers.
* `Clock`: the duration and random-draw types.
* `BaseWaiter`: the generated configuration, the base check, results, the partition, coverage and the file name.
* `SimulatedWaiter`: the delay draw and the simulator's check.
* `StrategyBaseline`, `StrategyExtended`, `StrategyHybrid`, `StrategyAdaptive`: one module per strategy.
* `Strategies`: the four strategies behind one interface.
* `Waiters`: the probe loop, the suite and the `Waiter` class.
* `ConsistencyScript`: the control-plane script.
* `Racer`: the control-plane racer.

The simulated delay is timed from the first check
(`simulated_waiter.py:67-73`), not from the PUT's acknowledgement. Take
the baseline strategy, a drawn delay of 48 s and GETs that take no time.
The first check runs at 3 s, so the first check that can match runs at
3 + 48 = 51 s: the 17th check, with a propagation time of 51 s.

## Model

| member | source | states |
|---|---|---|
| Lifecycle.NatToString | waiter_strategies/base_waiter.py:73 | `str(test_id)`: a non-empty run of decimal digits with no leading zero |
| Lifecycle.NatToStringRoundTrip | waiter_strategies/base_waiter.py:73 | reading the rendering back as a decimal number gives the test number again |
| Lifecycle.NatToStringInjective | waiter_strategies/base_waiter.py:73 | distinct test numbers render differently |
| BaseWaiter.GenerateLifecycleConfig | waiter_strategies/base_waiter.py:70-79 | exactly one rule, Enabled, expiring after 7 days (its ID `name-rule-id` and prefix `name-id/` by construction) |
| BaseWaiter.GeneratedConfigsDistinguishable | waiter_strategies/base_waiter.py:70-79 | two tests of one strategy get different rule IDs, so the base check never takes one test's configuration for another's |
| BaseWaiter.IdsAndStatuses | waiter_strategies/base_waiter.py:103-107 | the per-rule (ID, Status) projection, position by position |
| BaseWaiter.RulesMatch | waiter_strategies/base_waiter.py:99-109 | a rule list matches itself, and lists of different lengths never match |
| BaseWaiter.ResponseMatches | waiter_strategies/base_waiter.py:91-115 | a GET that returns exactly the expected configuration matches; a GET that fails never does |
| BaseWaiter.RulesMatchIsProjectionEquality | waiter_strategies/base_waiter.py:99-109 | the rule lists match iff the counts are equal and every positional pair agrees on ID and Status (iff the projections are equal) |
| BaseWaiter.MatchIgnoresFilterAndExpiration | waiter_strategies/base_waiter.py:103-107 | rewriting any rule's Filter prefix or Expiration days never changes the verdict |
| BaseWaiter.CheckConfigurationMatch | waiter_strategies/base_waiter.py:91-115 | the loop's verdict is the rule comparison of the returned rules; NoSuchLifecycleConfiguration and every other error give False and never escape |
| BaseWaiter.Successful | waiter_strategies/base_waiter.py:241 | every kept result is a success |
| BaseWaiter.Failed | waiter_strategies/base_waiter.py:242 | every kept result is not a success |
| BaseWaiter.PartitionIsExact | waiter_strategies/base_waiter.py:241-242 | the two lists together hold every result exactly as often as it occurs (multiset equality, so the lengths add up) |
| BaseWaiter.PropagationTimes | waiter_strategies/base_waiter.py:254 | one time per successful result, in order, each that result's propagation time |
| BaseWaiter.PropagationTimesAppend | waiter_strategies/base_waiter.py:254 | the times of two result lists put together are the times of each, in order |
| BaseWaiter.DistributionIncreasing | waiter_strategies/base_waiter.py:297-305 | the table is strictly increasing in seconds, the order the coverage loop sorts it into |
| BaseWaiter.LastCovered | waiter_strategies/base_waiter.py:321-338 | the last table row whose seconds are at most the timeout; none when every row exceeds it |
| BaseWaiter.Coverage | waiter_strategies/base_waiter.py:321-338 | a covered percentile is a table row not above the timeout; nothing is covered only below the first row's 48 s |
| BaseWaiter.CoverageIsLargestBucketWithin | waiter_strategies/base_waiter.py:321-350 | the covered percentile is the row with the largest seconds not above the timeout; there is none ("Below P50") iff the timeout is under 48 |
| BaseWaiter.CoverageBetween | waiter_strategies/base_waiter.py:321-338 | a timeout between two consecutive table values covers the lower one |
| BaseWaiter.CoverageExamples | waiter_strategies/base_waiter.py:321-350 | 150 → P90/90.0, 180 → P95/95.0 with no warning, 600 → Max/99.9, 47 → no bucket and a warning |
| BaseWaiter.CoverageAnalysis | waiter_strategies/base_waiter.py:318-350 | the sorted-table loop returns the covered percentile, its estimated success rate, and warns iff the rate is under 95 or nothing is covered |
| BaseWaiter.ToLower | waiter_strategies/base_waiter.py:356 | an upper-case ASCII letter becomes its lower-case letter (code + 32); every other character is kept |
| BaseWaiter.FileStem | waiter_strategies/base_waiter.py:356 | the stem has no upper-case letter, space or parenthesis and is never longer than the name |
| BaseWaiter.FileStemIsReplaceChain | waiter_strategies/base_waiter.py:356 | the stem is the source's expression: lower-case the name, replace each space by '_', then delete every '(' and every ')', each step defined on its own |
| BaseWaiter.ResultsFilename | waiter_strategies/base_waiter.py:356 | the file name is that chain applied to the strategy name, followed by `_results.json` |
| BaseWaiter.FileStemIdempotent | waiter_strategies/base_waiter.py:356 | deriving the stem twice gives the stem |
| BaseWaiter.FileStemKeepsCleanNames | waiter_strategies/base_waiter.py:356 | a name without upper-case letters, spaces and parentheses is its own stem |
| BaseWaiter.FileStemLength | waiter_strategies/base_waiter.py:356 | the stem drops exactly the parentheses: its length is the name's minus their count |
| SimulatedWaiter.DelayRange | waiter_strategies/simulated_waiter.py:36-56 | the selected range lies in [0, 312] and is non-empty |
| SimulatedWaiter.BucketIndex | waiter_strategies/simulated_waiter.py:36-56 | the draw selects a row of the delay table |
| SimulatedWaiter.RangesFollowTable | waiter_strategies/simulated_waiter.py:20-56 | each sampling range runs from the previous table value (0 for the first) to its own row's value |
| SimulatedWaiter.BucketBands | waiter_strategies/simulated_waiter.py:36-56 | r < 0.50 ↦ P50, [0.50,0.75) ↦ P75, [0.75,0.85) ↦ P85, [0.85,0.90) ↦ P90, [0.90,0.95) ↦ P95, [0.95,0.99) ↦ P99, otherwise Max, in both directions |
| SimulatedWaiter.Uniform | waiter_strategies/simulated_waiter.py:38 | `random.uniform(lo, hi)` lies in [lo, hi] |
| SimulatedWaiter.GenerateDelay | waiter_strategies/simulated_waiter.py:30-56 | the delay lies in the range the first draw selects, hence in [0, 312] |
| SimulatedWaiter.GenerateDelayCoversRange | waiter_strategies/simulated_waiter.py:36-56 | every delay of the selected range is drawn by some position draw |
| SimulatedWaiter.SimulatedCheck | waiter_strategies/simulated_waiter.py:58-79 | with simulation off: the base check, state untouched. Otherwise: the first call arms delay and start, later calls keep both, S3 is asked iff now − start ≥ delay, and the verdict is the base check's only then |
| SimulatedWaiter.FirstCheckForwardsOnlyOnZeroDelay | waiter_strategies/simulated_waiter.py:67-79 | the arming check itself reaches S3 only when the drawn delay is 0 |
| StrategyBaseline.IntervalIsConstant | waiter_strategies/strategy_baseline.py:25-29 | the interval is 3 whatever the arguments |
| StrategyBaseline.CalculateNextInterval | waiter_strategies/strategy_baseline.py:28-29 | the interval lies in the [2, 15] range every strategy keeps to (exactly 3: `IntervalIsConstant`) |
| StrategyBaseline.ShouldTimeout | waiter_strategies/strategy_baseline.py:31-32 | never before 180 s, always from 600 s (exactly from 180 s: `TimeoutAt180`) |
| StrategyBaseline.TimeoutAt180 | waiter_strategies/strategy_baseline.py:26-32 | times out iff elapsed ≥ 180, ignoring the check count; once true it stays true |
| StrategyExtended.IntervalIsConstant | waiter_strategies/strategy_extended.py:32-36 | the interval is 3 whatever the arguments |
| StrategyExtended.CalculateNextInterval | waiter_strategies/strategy_extended.py:35-36 | the interval lies in the [2, 15] range every strategy keeps to (exactly 3: `IntervalIsConstant`) |
| StrategyExtended.ShouldTimeout | waiter_strategies/strategy_extended.py:38-39 | never before 180 s, always from 600 s (exactly from 600 s: `TimeoutAt600`) |
| StrategyExtended.TimeoutAt600 | waiter_strategies/strategy_extended.py:33-39 | times out iff elapsed ≥ 600, ignoring the check count; once true it stays true |
| StrategyHybrid.CalculateNextInterval | waiter_strategies/strategy_hybrid.py:35-43 | the interval is one of 2, 4, 8, 15 |
| StrategyHybrid.IntervalNondecreasing | waiter_strategies/strategy_hybrid.py:35-43 | the interval never decreases as elapsed grows and ignores the check count |
| StrategyHybrid.ShouldTimeout | waiter_strategies/strategy_hybrid.py:45-46 | never before 180 s, always from 600 s (exactly from 600 s: `TimeoutAt600`) |
| StrategyHybrid.TimeoutAt600 | waiter_strategies/strategy_hybrid.py:33-46 | times out iff elapsed ≥ 600, ignoring the check count; once true it stays true |
| StrategyAdaptive.CalculateNextInterval | waiter_strategies/strategy_adaptive.py:47-61 | the interval is one of 2, 4, 8, 10, 15 |
| StrategyAdaptive.IntervalNondecreasing | waiter_strategies/strategy_adaptive.py:52-61 | the interval never decreases as elapsed grows and ignores the check count |
| StrategyAdaptive.SampleVariance | waiter_strategies/strategy_adaptive.py:71-72 | the sample variance (divisor n − 1) of at least two samples is non-negative |
| StrategyAdaptive.ShouldTimeout | waiter_strategies/strategy_adaptive.py:63-81 | never before 300, always from 600 on, and with fewer than three samples exactly from 300 on |
| StrategyAdaptive.AdaptiveTimeoutIsClampedThreshold | waiter_strategies/strategy_adaptive.py:68-81 | with three or more samples and `sd` the standard deviation, times out iff elapsed ≥ clamp(mean + 3·sd, 300, 600) |
| StrategyAdaptive.TimeoutMonotone | waiter_strategies/strategy_adaptive.py:63-81 | once the timeout fires it keeps firing as elapsed grows, whatever the check count |
| StrategyAdaptive.ExampleClampedToMinimum | waiter_strategies/strategy_adaptive.py:76-79 | history 40, 50, 60 (mean 50, stdev 10) times out exactly from 300 |
| StrategyAdaptive.ExampleClampedToMaximum | waiter_strategies/strategy_adaptive.py:76-79 | history 0, 0, 600 (mean + 3·stdev above 600) times out exactly from 600 |
| StrategyAdaptive.LastN | waiter_strategies/strategy_adaptive.py:45 | the window of the last n values is never longer than n or than the sequence |
| StrategyAdaptive.Record | waiter_strategies/strategy_adaptive.py:83-91 | the new time is the last entry, the entries before it are the newest of the old window, and a window of at most twenty stays at most twenty |
| StrategyAdaptive.RecordKeepsLastN | waiter_strategies/strategy_adaptive.py:83-91 | appending a success to the last twenty times, then dropping index 0 on overflow, gives the last twenty of the extended sequence: at most 20 entries, evicted first in, first out |
| Strategies.NextInterval | waiter_strategies/strategy_hybrid.py:35-43 | every strategy's interval lies in [2, 15] |
| Strategies.ShouldTimeout | waiter_strategies/strategy_adaptive.py:63-81 | no strategy times out before 180, and every one does from 600 on |
| Strategies.CoverageOfStrategies | waiter_strategies/base_waiter.py:307-311 | the baseline's 180 s covers P95 (95%, no warning); the others are judged at 600 s and cover Max |
| Strategies.TimeoutMonotone | waiter_strategies/strategy_extended.py:38-39 | for every strategy a fired timeout keeps firing as elapsed grows, whatever the check count |
| Strategies.HybridAndAdaptiveSchedules | waiter_strategies/strategy_hybrid.py:35-43 | the hybrid and adaptive schedules agree except on [120, 180), where hybrid waits 15 and adaptive 10 |
| Waiters.ContextFor | waiter_strategies/base_waiter.py:156-183 | the loop consults the strategy's own interval and timeout (the adaptive one with its current window), the configuration of this test and this test's environment |
| Waiters.Step | waiter_strategies/base_waiter.py:174-193 | one iteration moves the clock forward by at least the 2-second minimum interval |
| Waiters.Run | waiter_strategies/base_waiter.py:156-207 | the loop stops only at an iteration head where the timeout fires or after a check that matched, and time never goes back |
| Waiters.SingleTest | waiter_strategies/base_waiter.py:117-207 | the result carries its test ID; a success had its PUT acknowledged and its last check matched; a raising PUT leaves the simulator untouched |
| Waiters.RunEnds | waiter_strategies/base_waiter.py:156-207 | the loop ends in a state that extends the history, keeps the counters' invariant, has no match before the last entry, and is a match or else a timeout at the last head with no match at all |
| Waiters.RunReachable | waiter_strategies/base_waiter.py:156-193 | the loop only appends to the history, keeps one API call per check plus the PUT, attempts numbered in order, every check timed and gated as the loop does it, and makes at least one check unless it times out at once |
| Waiters.RunMatchShape | waiter_strategies/base_waiter.py:183-207 | no check but the last matched, and a run whose last check did not match ended on a timeout with no match at all |
| Waiters.TestResultPutFailed | waiter_strategies/base_waiter.py:132-146 | a PUT that raises gives an unsuccessful result with error "PUT failed: …", no check, simulator untouched |
| Waiters.TestResultCounters | waiter_strategies/base_waiter.py:149-207 | api_calls = check_count + 1; the history has check_count entries numbered 1..check_count; no entry but the last matched; success iff the last check matched; a failure had its timeout fire; at least one check |
| Waiters.TestResultTimeoutError | waiter_strategies/base_waiter.py:160-172 | a test that does not succeed reports the error "Timeout" |
| Waiters.TestResultTimeline | waiter_strategies/base_waiter.py:156-196 | before each check the timeout was consulted and said no; each check ran after that head's interval; the propagation time is the last check's elapsed time |
| Waiters.TestResultMatchesStore | waiter_strategies/base_waiter.py:178-207 | a success means the last GET showed the expected rules; with simulation off each attempt's verdict is the base check of its GET |
| Waiters.TestResultSimulation | waiter_strategies/simulated_waiter.py:58-89 | from a reset simulator the test leaves it armed with this test's delay, started at the first check; no check before that delay matches, so a success takes at least first interval + delay |
| Waiters.Suite | waiter_strategies/base_waiter.py:224-227 | one result per test, test IDs numbered in order from the first |
| Waiters.SuiteLeavesLastTestArmed | waiter_strategies/simulated_waiter.py:67-89 | with simulation on, a suite leaves the simulator as its last test left it: idle, or armed with that test's delay and started at its first check; nothing resets it after the suite |
| Waiters.WindowStep | waiter_strategies/strategy_adaptive.py:83-91 | after each test the window is the last twenty successful times so far (unchanged for the fixed strategies) |
| Waiters.SuiteWindow | waiter_strategies/strategy_adaptive.py:83-91 | after a whole suite the adaptive window is the last twenty successful propagation times, oldest first |
| Waiters.Waiter.constructor | waiter_strategies/strategy_adaptive.py:40-45 | the new strategy object has no results, an empty window and no simulator state |
| Waiters.Waiter.CheckConfigurationMatch | waiter_strategies/simulated_waiter.py:58-79 | the verdict and the new simulator fields are those of the simulated check |
| Waiters.Waiter.Probe | waiter_strategies/base_waiter.py:117-207 | the PUT-then-poll loop returns the result, and leaves the simulator state, of the loop's specification function from the simulator's current state |
| Waiters.Waiter.PollOnce | waiter_strategies/base_waiter.py:174-193 | one pass after the timeout test (sleep the interval, check, count, record the attempt) is exactly one step of the loop's specification function |
| Waiters.Waiter.RunSingleTest | waiter_strategies/simulated_waiter.py:81-89 | resets the simulator, probes, and records a success in the adaptive window, keeping it the last twenty successes |
| Waiters.Waiter.RunTestSuite | waiter_strategies/base_waiter.py:209-235 | appends the results of tests 0, 1, … in order, returns all results, and leaves the window and the simulator state the suite's specification function computes |
| ConsistencyScript.LifecycleConfig | test_s3_consistency.py:24-32 | exactly one Enabled rule with the given ID and days and an empty prefix |
| ConsistencyScript.EqualLifecycle | test_s3_consistency.py:69-71 | equality implies the waiters' match and equal expiration days |
| ConsistencyScript.EqualLifecycleIsEquivalence | test_s3_consistency.py:69-71 | the comparison is reflexive, symmetric and transitive |
| ConsistencyScript.StricterThanWaiterCheck | test_s3_consistency.py:69-71 | configurations with the same ID and status but other days match for the waiters, not for the script |
| ConsistencyScript.IterationDays | test_s3_consistency.py:179 | the days are 30 + i % 7, in [30, 36] |
| ConsistencyScript.DistinctIdsDistinctConfigs | test_s3_consistency.py:173-181 | configurations with different rule IDs are never equal |
| ConsistencyScript.Tolerated | test_s3_consistency.py:155-160 | exactly NoSuchLifecycleConfiguration, NoSuchBucket and AccessDenied are retried |
| ConsistencyScript.ReturnedCount | test_s3_consistency.py:139-140 | the GETs that returned number at most the GETs issued |
| ConsistencyScript.FirstReturned | test_s3_consistency.py:143-145 | a first read exists iff some GET returned |
| ConsistencyScript.PollFrom | test_s3_consistency.py:127-167 | from any head the GETs issued only grow, and `polls` grows by at most the GETs issued |
| ConsistencyScript.PollFromOutcome | test_s3_consistency.py:127-167 | which responses were seen: a match is the last GET returning the expected configuration; no match only once elapsed > timeout (strict) with every GET retried; an untolerated code or a non-ClientError escapes; polls counts returned GETs only; the first read is the earliest returned |
| ConsistencyScript.StartsASecondApart | test_s3_consistency.py:162-167 | GET number g starts at least g − 1 seconds into the poll, since every sleep is at least one second |
| ConsistencyScript.PollFromTimeline | test_s3_consistency.py:127-167 | when things happen, from any head on the timeline: every GET started at or before the timeout; a match is reported at the end of its GET; no match is reported at the start the next GET would have had, the first past the timeout; the first read's age is the end of the first GET that returned |
| ConsistencyScript.PollTimeline | test_s3_consistency.py:127-167 | from the poll's start: each GET starts 1 s after the previous one ended if that was under 30 s, 3 s after it otherwise; every GET started by the timeout, so at most timeout + 1 of them; the reported elapsed and first-read times are as above |
| ConsistencyScript.PollReports | test_s3_consistency.py:120-167 | the poll's responses and its times together, as one predicate on its outcome and the GETs it issued |
| ConsistencyScript.FirstReadIsKept | test_s3_consistency.py:143-145 | once set, the first read is never overwritten |
| ConsistencyScript.PollOutcomeOfPoll | test_s3_consistency.py:120-167 | a reported match is the whole expected configuration; polls never exceed the GETs, and no poll means no first read |
| ConsistencyScript.PollUntilMatch | test_s3_consistency.py:120-167 | the loop returns the poll's specified outcome and, with n the GETs it issued: every GET started at or before the timeout and all but the last were retried; a match is the last GET showing the whole expected configuration, reported at its end; no match is reported past the timeout (strict), at the start the next GET would have had; an exception is the last GET's untolerated code or non-ClientError failure; polls counts returned GETs; the first read is the earliest one, with its end |
| ConsistencyScript.IterationRow | test_s3_consistency.py:184-202 | first_read_matched iff the first read is this configuration; first_read_stale iff there is a previous configuration and the first read is it; a first rule ID iff the first read has a rule |
| ConsistencyScript.NeverStaleAndMatched | test_s3_consistency.py:189-190 | with fresh rule IDs a first read is never both matched and stale |
| ConsistencyScript.IterationRowTimes | test_s3_consistency.py:184-202 | a completed iteration's row records the end of the matching GET as its propagation time, or the first GET start past 600 s without a match, and the end of the first returning GET as its first-read time |
| ConsistencyScript.FirstIterationNeverStale | test_s3_consistency.py:171-190 | the first iteration has no previous configuration, so it is never stale |
| ConsistencyScript.ControlPlaneFromOutcome | test_s3_consistency.py:169-203 | from an iteration whose predecessors completed: rows iff every iteration completes (PUT acknowledged, poll returned), one per iteration, each built from its configuration, the previous one and its poll; otherwise the exception of the first PUT or poll that raised |
| ConsistencyScript.ControlPlaneEnds | test_s3_consistency.py:169-203 | the same for the whole test: one row per iteration iff every PUT is acknowledged and every poll returns, else the first exception, PUT or poll, after iterations that all completed |
| ConsistencyScript.ControlPlaneIteration | test_s3_consistency.py:173-203 | one iteration: a raising `put_lifecycle` or poll stops the test with its exception, otherwise the row is appended, as one step of the test's specification function |
| ConsistencyScript.ControlPlane | test_s3_consistency.py:169-203 | the loop returns exactly the outcome of the test's specification function from the first iteration |
| Racer.BackoffCap | verification/test/test_s3_consistency_concurrent/test_s3_consistency_concurrent.py:142-144 | the jitter bound is min(10, 0.5·2^attempt), positive and at most 10 |
| Racer.BackoffSchedule | verification/test/test_s3_consistency_concurrent/test_s3_consistency_concurrent.py:142-144 | the bound is 1, 2, 4, 8 for attempts 1–4 and 10 from attempt 5 on |
| Racer.Backoff | verification/test/test_s3_consistency_concurrent/test_s3_consistency_concurrent.py:144 | the sleep lies in [0, bound] |
| Racer.AnyRuleHasId | verification/test/test_s3_consistency_concurrent/test_s3_consistency_concurrent.py:133 | found iff some rule carries the ID |
| Racer.DetectionByIdOnly | verification/test/test_s3_consistency_concurrent/test_s3_consistency_concurrent.py:132-138 | a rule with the ID is found whatever surrounds it and whatever its other fields |
| Racer.WrittenConfigDetected | verification/test/test_s3_consistency_concurrent/test_s3_consistency_concurrent.py:154-155 | the written configuration is detected by its own rule ID and by no other |
| Racer.RacerFrom | verification/test/test_s3_consistency_concurrent/test_s3_consistency_concurrent.py:116-147 | the attempt count never decreases; a result's attempts are the GETs issued, and it has a detection time iff the ID was found |
| Racer.RacerFromOutcome | verification/test/test_s3_consistency_concurrent/test_s3_consistency_concurrent.py:121-147 | which responses were seen: attempts counts every GET issued; every GET but the last missed (ClientErrors swallowed); found iff the last GET shows the ID, with a detection time after time zero; a non-ClientError escapes; otherwise not found, no detection time |
| Racer.RacerFromTimeline | verification/test/test_s3_consistency_concurrent/test_s3_consistency_concurrent.py:121-147 | when things happen, from any head on the timeline: every attempt started before the timeout; a detection is stamped at the end of the detecting GET; not found is reported only once the head after the last attempt is at or past the timeout |
| Racer.RacerPollTimeline | verification/test/test_s3_consistency_concurrent/test_s3_consistency_concurrent.py:116-147 | from time zero: every attempt started before the timeout; not found only once the head after the last attempt (its GETs and jittered sleeps summed) reaches the timeout; a detection is the last GET, stamped at its end, so the delay is the time of the attempts before it, sleeps included, plus that GET's |
| Racer.RacerPollReports | verification/test/test_s3_consistency_concurrent/test_s3_consistency_concurrent.py:116-147 | the poll's responses and its times together, as one predicate on its outcome and the GETs it issued |
| Racer.SmartPollUntilMatch | verification/test/test_s3_consistency_concurrent/test_s3_consistency_concurrent.py:116-147 | the loop returns the poll's specified outcome and, with n the GETs it issued: each started before the timeout and all but the last missed (ClientErrors swallowed); attempts is n; not found only once the time is up, with every GET missed and no detection time; a detection is the last GET showing the ID, stamped at its end; any other exception comes from the last GET |
| Racer.PropagationDelay | verification/test/test_s3_consistency_concurrent/test_s3_consistency_concurrent.py:173-176 | a delay exists iff the rule was found; its value, the detecting GET's end minus time zero, is stated by `Racer.RacerPollTimeline` |
| Racer.DelayIsPositive | verification/test/test_s3_consistency_concurrent/test_s3_consistency_concurrent.py:157-176 | a detected delay is at least one GET's duration, so positive |
| Racer.RowOf | verification/test/test_s3_consistency_concurrent/test_s3_consistency_concurrent.py:178-183 | the row reports the attempts as API calls, the found flag and the delay |
| Racer.RowCountsGets | verification/test/test_s3_consistency_concurrent/test_s3_consistency_concurrent.py:173-183 | a row's API calls are the GETs its poll issued, and its delay is present iff the rule was found |

## Left out

- S3 itself (boto3 clients, bucket creation and deletion, object reads and writes): the outcome of every lifecycle PUT and GET is a parameter, as described above.
- The data-plane tests of both scripts, the orchestration of the racer (two threads, the writer's 0.1 s head start, the PUT), the 100-iteration driver loop of the racer, and the statistics, CSV files and reports after each loop: concurrency and I/O.
- The analysis script under `verification/analysis/` and every `main`: report text, plots and command lines.
- Printing, JSON writing and the `timestamp` field of a result: output only. The file name is computed (`BaseWaiter.ResultsFilename`) but not written to.
- The statistics `analyze_results` prints (numpy percentiles, min, max, mean, standard deviation, averages of PUT durations and API calls). They are floating-point summaries; the partition and the propagation times they start from are modelled. The success rate divides by the number of results, which raises when there are none; that division is not modelled.
- `round(…, 3)` in the script's rows: the rows keep the exact values.
- The `time.sleep(2)` between suite tests and the script's `time.sleep(10)` between iterations: they change no result, because each test measures its own time from zero.
- The bookkeeping between calls is taken to use no time. The waiters' `elapsed_at_check` and `propagation_time` are both the end of the last GET. The script's `observed_age` and `current_age` are the same instant.
- The racer's poller starts its clock at the race's time zero. The time between `t0` and the poller's first GET is not modelled.
- Racer.RacerFromOutcome: assumes every GET takes at least some positive time `minGet`. A jittered sleep can be zero, so without this bound the loop need not end in the model.
- Racer.DelayIsPositive: states a delay of at least `minGet`, under the same assumption, in place of the source's non-negative delay "given a monotone clock".
- StrategyAdaptive.ShouldTimeout: decides `elapsed >= mean + 3·stdev` exactly, by squaring, without floating-point rounding. `AdaptiveTimeoutIsClampedThreshold` relates it to the threshold for the true square root.
- `str.lower()` is modelled on ASCII letters only.
- Strategy names and rule IDs are strings. The script's `uuid4` rule IDs are inputs, distinct where a lemma needs it.
- A rule without an `ID` key (a `KeyError` in the racer) cannot be written in the model: every rule has an ID.
- The script's `get_lifecycle` keeps only the `Rules` of a response, so a configuration is its list of rules.
- Waiters.Waiter.RunTestSuite: states the final window and simulator state by the suite's function. That the window holds the last twenty successes is `Waiters.SuiteWindow`, and the ghost record of all successes is kept by `Valid()` rather than restated.
- Waiters.TestResultCounters: the source allows a strategy that times out at elapsed 0 and so makes no check. Every modelled strategy waits at least 180 s, so the model proves at least one check instead.
