/**
 * The strategy-independent logic of the waiter framework: the lifecycle
 * configuration each test applies, the rule comparison behind the base
 * "does S3 show it yet" check, the shape of a test result, the
 * success/failure partition of a suite, the coverage estimate of a timeout
 * against the empirical delay distribution, and the results file name.
 * The probe loop itself is in module Waiters.
 */
module BaseWaiter {
  import opened Wrappers
  import opened Lifecycle

  // ---------------------------------------------------------------------
  // Lifecycle configuration of one test

  const ExpirationDays: int := 7

  /** The configuration a test applies: one enabled rule named after the strategy and the test. */
  function GenerateLifecycleConfig(strategyName: string, testId: nat): (c: Config)
    ensures |c.rules| == 1
    ensures c.rules[0].status == Enabled && c.rules[0].expirationDays == ExpirationDays
  {
    var n := NatToString(testId);
    Config([Rule(strategyName + "-rule-" + n, Enabled, strategyName + "-" + n + "/", ExpirationDays)])
  }

  lemma PrefixCancels(p: string, a: string, b: string)
    requires p + a == p + b
    ensures a == b
  {
    assert a == (p + a)[|p|..];
    assert b == (p + b)[|p|..];
  }

  /**
   * Two tests of one strategy apply configurations that the base check tells
   * apart: a configuration still showing an earlier test's rule never counts
   * as a match for a later test.
   */
  lemma GeneratedConfigsDistinguishable(strategyName: string, i: nat, j: nat)
    requires i != j
    ensures GenerateLifecycleConfig(strategyName, i).rules[0].id != GenerateLifecycleConfig(strategyName, j).rules[0].id
    ensures !RulesMatch(GenerateLifecycleConfig(strategyName, i).rules, GenerateLifecycleConfig(strategyName, j).rules)
  {
    NatToStringInjective(i, j);
    var p := strategyName + "-rule-";
    if p + NatToString(i) == p + NatToString(j) {
      PrefixCancels(p, NatToString(i), NatToString(j));
    }
  }

  // ---------------------------------------------------------------------
  // The base check: positional comparison of rule IDs and Statuses

  /** The fields the base check compares, rule by rule. */
  function IdsAndStatuses(rules: seq<Rule>): (keys: seq<(string, string)>)
    ensures |keys| == |rules|
    ensures forall i :: 0 <= i < |rules| ==> keys[i] == (rules[i].id, rules[i].status)
  {
    if rules == [] then [] else [(rules[0].id, rules[0].status)] + IdsAndStatuses(rules[1..])
  }

  /** Same number of rules, and each positional pair agrees on ID and Status. */
  predicate RulesMatch(current: seq<Rule>, expected: seq<Rule>)
    ensures current == expected ==> RulesMatch(current, expected)
    ensures |current| != |expected| ==> !RulesMatch(current, expected)
  {
    |current| == |expected| &&
    forall i :: 0 <= i < |current| ==> current[i].id == expected[i].id && current[i].status == expected[i].status
  }

  /** The outcome of the base check for a given GET response: every error reads as "no match". */
  predicate ResponseMatches(expected: Config, response: GetResponse)
    ensures response == Returned(expected) ==> ResponseMatches(expected, response)
    ensures !response.Returned? ==> !ResponseMatches(expected, response)
  {
    response.Returned? && RulesMatch(response.config.rules, expected.rules)
  }

  /**
   * The rule comparison looks at nothing but the ID/Status projection: two
   * rule lists match exactly when their projections are equal, so Filter and
   * Expiration are ignored.
   */
  lemma RulesMatchIsProjectionEquality(current: seq<Rule>, expected: seq<Rule>)
    ensures RulesMatch(current, expected) <==> IdsAndStatuses(current) == IdsAndStatuses(expected)
  {
    if IdsAndStatuses(current) == IdsAndStatuses(expected) {
      assert |current| == |expected|;
      forall i | 0 <= i < |current|
        ensures current[i].id == expected[i].id && current[i].status == expected[i].status
      {
        assert IdsAndStatuses(current)[i] == IdsAndStatuses(expected)[i];
      }
    }
  }

  /** Rewriting a rule's Filter or Expiration never changes the base check's verdict. */
  lemma MatchIgnoresFilterAndExpiration(current: seq<Rule>, expected: seq<Rule>, i: nat, prefix: string, days: int)
    requires i < |current|
    ensures RulesMatch(current[i := current[i].(prefix := prefix, expirationDays := days)], expected)
        == RulesMatch(current, expected)
  {
    var edited := current[i := current[i].(prefix := prefix, expirationDays := days)];
    assert IdsAndStatuses(edited) == IdsAndStatuses(current);
    RulesMatchIsProjectionEquality(edited, expected);
    RulesMatchIsProjectionEquality(current, expected);
  }

  /**
   * The base check on one GET response. A missing configuration
   * (NoSuchLifecycleConfiguration) and every other exception are swallowed
   * and read as "no match"; the check never raises.
   */
  method CheckConfigurationMatch(expected: Config, response: GetResponse) returns (matched: bool)
    ensures matched <==> ResponseMatches(expected, response)
    ensures response.ClientError? || response.OtherFailure? ==> !matched
  {
    match response
    case ClientError(_) =>
      matched := false;
    case OtherFailure(_) =>
      matched := false;
    case Returned(cfg) =>
      var current := cfg.rules;
      var expectedRules := expected.rules;
      if |current| != |expectedRules| {
        return false;
      }
      var i := 0;
      while i < |current|
        invariant 0 <= i <= |current|
        invariant forall j :: 0 <= j < i ==> current[j].id == expectedRules[j].id && current[j].status == expectedRules[j].status
      {
        if current[i].id != expectedRules[i].id {
          return false;
        }
        if current[i].status != expectedRules[i].status {
          return false;
        }
        i := i + 1;
      }
      matched := true;
  }

  // ---------------------------------------------------------------------
  // Test results

  /** One entry of a result's polling history. */
  datatype PollingAttempt = PollingAttempt(attempt: nat, elapsedAtCheck: real, getDuration: real, matched: bool)

  /**
   * The result of one test. A failed PUT carries only its error text; every
   * other result carries the timings and counters of the polling phase.
   */
  datatype TestResult =
    | PutFailed(testId: nat, putError: string)
    | Completed(testId: nat, success: bool, putDuration: real, propagationTime: real,
                checkCount: nat, apiCalls: nat, pollingHistory: seq<PollingAttempt>)
  {
    predicate Success() {
      Completed? && success
    }

    /** The result's `error` field, absent on a success. */
    function Error(): Option<string> {
      match this
      case PutFailed(_, e) => Some("PUT failed: " + e)
      case Completed(_, s, _, _, _, _, _) => if s then None else Some("Timeout")
    }
  }

  // ---------------------------------------------------------------------
  // Partition of a suite's results

  function Successful(results: seq<TestResult>): (s: seq<TestResult>)
    ensures forall i :: 0 <= i < |s| ==> s[i].Success()
  {
    if results == [] then []
    else (if results[0].Success() then [results[0]] else []) + Successful(results[1..])
  }

  function Failed(results: seq<TestResult>): (f: seq<TestResult>)
    ensures forall i :: 0 <= i < |f| ==> !f[i].Success()
  {
    if results == [] then []
    else (if results[0].Success() then [] else [results[0]]) + Failed(results[1..])
  }

  /**
   * Every result lands in exactly one of the two lists: together they hold
   * the suite's results, each as often as it occurs.
   */
  lemma {:induction false} PartitionIsExact(results: seq<TestResult>)
    ensures |Successful(results)| + |Failed(results)| == |results|
    ensures multiset(Successful(results)) + multiset(Failed(results)) == multiset(results)
  {
    if results != [] {
      PartitionIsExact(results[1..]);
      assert results == [results[0]] + results[1..];
    }
  }

  /** The propagation times of the successful results, in order. */
  function PropagationTimes(results: seq<TestResult>): (times: seq<real>)
    ensures |times| == |Successful(results)|
    ensures forall i :: 0 <= i < |times| ==> times[i] == Successful(results)[i].propagationTime
  {
    if results == [] then []
    else (if results[0].Success() then [results[0].propagationTime] else []) + PropagationTimes(results[1..])
  }

  lemma {:induction false} PropagationTimesAppend(a: seq<TestResult>, b: seq<TestResult>)
    ensures PropagationTimes(a + b) == PropagationTimes(a) + PropagationTimes(b)
  {
    if a != [] {
      assert (a + b)[1..] == a[1..] + b;
      PropagationTimesAppend(a[1..], b);
    } else {
      assert a + b == b;
    }
  }

  /** A successful result always has a propagation time: it is never a failed PUT. */
  lemma SuccessfulHavePropagationTimes(results: seq<TestResult>, i: nat)
    requires i < |Successful(results)|
    ensures Successful(results)[i].Completed?
  {
  }

  // ---------------------------------------------------------------------
  // Coverage of a timeout against the empirical distribution

  /** The percentile labels of the empirical distribution. */
  datatype Percentile = P50 | P75 | P85 | P90 | P95 | P99 | Max

  function Label(p: Percentile): string {
    match p
    case P50 => "P50"
    case P75 => "P75"
    case P85 => "P85"
    case P90 => "P90"
    case P95 => "P95"
    case P99 => "P99"
    case Max => "Max"
  }

  /** The expected production success rate reported for a covered percentile. */
  function EstimatedSuccessRate(p: Percentile): real {
    match p
    case P50 => 50.0
    case P75 => 75.0
    case P85 => 85.0
    case P90 => 90.0
    case P95 => 95.0
    case P99 => 99.0
    case Max => 99.9
  }

  datatype Bucket = Bucket(percentile: Percentile, seconds: real)

  /** The empirical propagation-delay distribution, in increasing order of seconds. */
  const Distribution: seq<Bucket> := [
    Bucket(P50, 48.0), Bucket(P75, 82.0), Bucket(P85, 120.0), Bucket(P90, 142.0),
    Bucket(P95, 156.0), Bucket(P99, 234.0), Bucket(Max, 312.0)]

  /** The table is already in the order the coverage loop sorts it into. */
  lemma DistributionIncreasing()
    ensures forall i, j :: 0 <= i < j < |Distribution| ==> Distribution[i].seconds < Distribution[j].seconds
  {
  }

  /** The last bucket of `table` whose seconds are at most `timeout`. */
  function LastCovered(table: seq<Bucket>, timeout: real): (r: Option<nat>)
    ensures r.Some? ==> r.value < |table| && table[r.value].seconds <= timeout
    ensures r.Some? ==> forall j :: r.value < j < |table| ==> table[j].seconds > timeout
    ensures r.None? ==> forall j :: 0 <= j < |table| ==> table[j].seconds > timeout
  {
    if table == [] then None
    else if table[|table| - 1].seconds <= timeout then Some(|table| - 1)
    else LastCovered(table[..|table| - 1], timeout)
  }

  /** The percentile a timeout covers, if any. */
  function Coverage(timeout: real): (c: Option<Percentile>)
    ensures c.Some? ==> exists i :: 0 <= i < |Distribution| && Distribution[i].percentile == c.value && Distribution[i].seconds <= timeout
    ensures c.None? ==> timeout < Distribution[0].seconds
  {
    match LastCovered(Distribution, timeout)
    case None => None
    case Some(i) => Some(Distribution[i].percentile)
  }

  /**
   * The covered percentile is the bucket with the largest seconds value not
   * above the timeout; there is none exactly when the timeout is below P50's
   * 48 seconds.
   */
  lemma CoverageIsLargestBucketWithin(timeout: real)
    ensures Coverage(timeout).None? <==> timeout < 48.0
    ensures Coverage(timeout).Some? ==>
      exists i :: 0 <= i < |Distribution| && Distribution[i].percentile == Coverage(timeout).value &&
        Distribution[i].seconds <= timeout &&
        (forall j :: 0 <= j < |Distribution| && Distribution[j].seconds <= timeout ==>
          Distribution[j].seconds <= Distribution[i].seconds)
  {
    DistributionIncreasing();
    var r := LastCovered(Distribution, timeout);
    if r.Some? {
      var i := r.value;
      assert Distribution[i].percentile == Coverage(timeout).value;
    } else {
      assert Distribution[0].seconds > timeout;
    }
  }

  /** A timeout between two consecutive table values covers the lower one. */
  lemma CoverageBetween(timeout: real, k: nat)
    requires k < |Distribution| && Distribution[k].seconds <= timeout
    requires k + 1 < |Distribution| ==> timeout < Distribution[k + 1].seconds
    ensures Coverage(timeout) == Some(Distribution[k].percentile)
  {
    CoverageIsLargestBucketWithin(timeout);
    DistributionIncreasing();
  }

  lemma CoverageExamples()
    ensures Coverage(150.0) == Some(P90) && EstimatedSuccessRate(P90) == 90.0
    ensures Coverage(180.0) == Some(P95) && EstimatedSuccessRate(P95) == 95.0 && !CoverageWarning(Coverage(180.0))
    ensures Coverage(600.0) == Some(Max) && EstimatedSuccessRate(Max) == 99.9
    ensures Coverage(47.0) == None && CoverageWarning(Coverage(47.0))
  {
    CoverageBetween(150.0, 3);
    CoverageBetween(180.0, 4);
    CoverageBetween(600.0, 6);
    CoverageIsLargestBucketWithin(47.0);
  }

  /** A warning is shown when the estimate is below 95% or the timeout covers no bucket. */
  predicate CoverageWarning(coverage: Option<Percentile>) {
    coverage.None? || EstimatedSuccessRate(coverage.value) < 95.0
  }

  /**
   * The coverage analysis: walk the table in increasing order of seconds,
   * remembering the last bucket the timeout reaches.
   */
  method CoverageAnalysis(timeout: real) returns (coverage: Option<Percentile>, rate: Option<real>, warn: bool)
    ensures coverage == Coverage(timeout)
    ensures rate == if coverage.Some? then Some(EstimatedSuccessRate(coverage.value)) else None
    ensures warn == CoverageWarning(coverage)
  {
    coverage, rate := None, None;
    var i := 0;
    while i < |Distribution|
      invariant 0 <= i <= |Distribution|
      invariant coverage == match LastCovered(Distribution[..i], timeout)
                            case None => None
                            case Some(k) => Some(Distribution[k].percentile)
      invariant rate == if coverage.Some? then Some(EstimatedSuccessRate(coverage.value)) else None
    {
      assert Distribution[..i + 1][..i] == Distribution[..i];
      if timeout >= Distribution[i].seconds {
        coverage := Some(Distribution[i].percentile);
        rate := Some(EstimatedSuccessRate(Distribution[i].percentile));
      }
      i := i + 1;
    }
    assert Distribution[..i] == Distribution;
    if coverage.Some? {
      warn := rate.value < 95.0;
    } else {
      warn := true;
    }
  }

  // ---------------------------------------------------------------------
  // Results file name

  predicate IsUpper(c: char) {
    'A' <= c <= 'Z'
  }

  /** `str.lower()` on one ASCII character: an upper-case letter becomes its lower-case letter, the rest stay. */
  function ToLower(c: char): (l: char)
    ensures !IsUpper(l)
    ensures IsUpper(c) ==> 'a' <= l <= 'z' && l as int == c as int + 32
    ensures !IsUpper(c) ==> l == c
  {
    if IsUpper(c) then (c as int + 32) as char else c
  }

  /** The file-name stem: lower case, spaces to underscores, parentheses dropped. */
  function FileStem(name: string): (stem: string)
    ensures forall i :: 0 <= i < |stem| ==> !IsUpper(stem[i]) && stem[i] != ' ' && stem[i] != '(' && stem[i] != ')'
    ensures |stem| <= |name|
  {
    if name == [] then []
    else
      var head :=
        if name[0] == ' ' then "_"
        else if name[0] == '(' || name[0] == ')' then ""
        else [ToLower(name[0])];
      head + FileStem(name[1..])
  }

  /** The results file: the source's lower/replace chain on the strategy name, then `_results.json`. */
  function ResultsFilename(strategyName: string): (file: string)
    ensures file == RemoveChar(RemoveChar(ReplaceChar(LowerAll(strategyName), ' ', '_'), '('), ')') + "_results.json"
  {
    FileStemIsReplaceChain(strategyName);
    FileStem(strategyName) + "_results.json"
  }

  // The three steps of the file-name expression, each defined on its own.

  /** `s.lower()`. */
  function LowerAll(s: string): string {
    seq(|s|, i requires 0 <= i < |s| => ToLower(s[i]))
  }

  /** `s.replace(from, to)` for single characters. */
  function ReplaceChar(s: string, from: char, to: char): string {
    seq(|s|, i requires 0 <= i < |s| => if s[i] == from then to else s[i])
  }

  /** `s.replace(c, '')`: the characters of `s` other than `c`, in order. */
  function RemoveChar(s: string, c: char): string {
    if s == [] then [] else (if s[0] == c then [] else [s[0]]) + RemoveChar(s[1..], c)
  }

  lemma {:induction false} RemoveCharAppend(a: string, b: string, c: char)
    ensures RemoveChar(a + b, c) == RemoveChar(a, c) + RemoveChar(b, c)
  {
    if a == [] {
      assert a + b == b;
    } else {
      assert (a + b)[0] == a[0] && (a + b)[1..] == a[1..] + b;
      RemoveCharAppend(a[1..], b, c);
    }
  }

  /**
   * The stem is the source's expression: lower-case the name, replace each
   * space by '_', then delete every '(' and every ')'.
   */
  lemma {:induction false} FileStemIsReplaceChain(name: string)
    ensures FileStem(name) == RemoveChar(RemoveChar(ReplaceChar(LowerAll(name), ' ', '_'), '('), ')')
  {
    if name != [] {
      var c := name[0];
      var tail := ReplaceChar(LowerAll(name[1..]), ' ', '_');
      var r0 := if c == ' ' then '_' else ToLower(c);
      assert ReplaceChar(LowerAll(name), ' ', '_') == [r0] + tail;
      FileStemIsReplaceChain(name[1..]);
      RemoveCharAppend([r0], tail, '(');
      RemoveCharAppend(RemoveChar([r0], '('), RemoveChar(tail, '('), ')');
    }
  }

  /** A name already in file-name form is its own stem. */
  lemma FileStemIdempotent(name: string)
    ensures FileStem(FileStem(name)) == FileStem(name)
  {
    FileStemKeepsCleanNames(FileStem(name));
  }

  predicate CleanName(name: string) {
    forall i :: 0 <= i < |name| ==> !IsUpper(name[i]) && name[i] != ' ' && name[i] != '(' && name[i] != ')'
  }

  /** A name with no upper-case letter, space or parenthesis is its own stem. */
  lemma {:induction false} FileStemKeepsCleanNames(name: string)
    requires CleanName(name)
    ensures FileStem(name) == name
  {
    if name != [] {
      FileStemKeepsCleanNames(name[1..]);
      assert name == [name[0]] + name[1..];
    }
  }

  function CountParens(s: string): nat {
    if s == [] then 0 else (if s[0] == '(' || s[0] == ')' then 1 else 0) + CountParens(s[1..])
  }

  /** The stem loses exactly the parentheses: every other character maps to one character. */
  lemma {:induction false} FileStemLength(name: string)
    ensures |FileStem(name)| == |name| - CountParens(name)
  {
    if name != [] {
      FileStemLength(name[1..]);
    }
  }
}
