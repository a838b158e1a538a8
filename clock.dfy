/**
 * Time and randomness as the model sees them: the clock is a real number of
 * seconds, calls to S3 take a non-negative time, and each random draw is a
 * real in the interval the Python function documents.
 */
module Clock {
  /** How long a call took, in seconds. */
  type Duration = r: real | r >= 0.0

  /** A draw of `random.random()`. */
  type Fraction = r: real | 0.0 <= r < 1.0

  /** The relative position of a `random.uniform(a, b)` draw within `[a, b]`. */
  type UnitInterval = r: real | 0.0 <= r <= 1.0
}
