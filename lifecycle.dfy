/**
 * The S3 bucket lifecycle configuration as the experiments see it: an ordered
 * list of rules, the possible outcomes of a GetBucketLifecycleConfiguration
 * call, and the decimal rendering of iteration numbers used in rule IDs.
 */
module Lifecycle {

  /** One lifecycle rule: its ID, its Status, the Filter prefix and the Expiration in days. */
  datatype Rule = Rule(id: string, status: string, prefix: string, expirationDays: int)

  /** A lifecycle configuration is its ordered list of rules. */
  datatype Config = Config(rules: seq<Rule>)

  /**
   * What a GET of the lifecycle configuration yields: the configuration, a
   * botocore `ClientError` carrying an S3 error code, or any other exception
   * (a connection failure, say), which is not a `ClientError`.
   */
  datatype GetResponse =
    | Returned(config: Config)
    | ClientError(code: string)
    | OtherFailure(message: string)

  const Enabled: string := "Enabled"
  const NoSuchLifecycleConfiguration: string := "NoSuchLifecycleConfiguration"

  predicate IsDigit(c: char) {
    '0' <= c <= '9'
  }

  predicate AllDigits(s: string) {
    forall i :: 0 <= i < |s| ==> IsDigit(s[i])
  }

  function DigitChar(d: nat): (c: char)
    requires d < 10
    ensures IsDigit(c) && c as int - '0' as int == d
  {
    ('0' as int + d) as char
  }

  /** Python's `str(n)` for a non-negative integer: decimal, no leading zero. */
  function NatToString(n: nat): (s: string)
    ensures |s| >= 1 && AllDigits(s)
    ensures |s| > 1 ==> s[0] != '0'
  {
    if n < 10 then [DigitChar(n)] else NatToString(n / 10) + [DigitChar(n % 10)]
  }

  /** The value of a string of decimal digits, read left to right. */
  function DigitsValue(s: string): nat
    requires AllDigits(s)
  {
    if s == [] then 0 else DigitsValue(s[..|s| - 1]) * 10 + (s[|s| - 1] as int - '0' as int)
  }

  /** Reading back the decimal rendering gives the number again. */
  lemma {:induction false} NatToStringRoundTrip(n: nat)
    ensures DigitsValue(NatToString(n)) == n
  {
    if n >= 10 {
      NatToStringRoundTrip(n / 10);
      var s := NatToString(n);
      assert s[..|s| - 1] == NatToString(n / 10);
    }
  }

  /** Distinct numbers have distinct decimal renderings. */
  lemma NatToStringInjective(a: nat, b: nat)
    requires a != b
    ensures NatToString(a) != NatToString(b)
  {
    NatToStringRoundTrip(a);
    NatToStringRoundTrip(b);
  }
}
