/** Go's time arithmetic, in nanoseconds since the zero time. */
module Clock {
  /** math.MaxInt64 nanoseconds, about 292 years. */
  const MAX_DURATION: int := 0x7FFF_FFFF_FFFF_FFFF

  /** A time.Duration: int64 nanoseconds. */
  type Duration = d: int | -MAX_DURATION - 1 <= d <= MAX_DURATION

  /** The zero time.Time. */
  const ZERO_TIME: int := 0

  /** time.Time.Sub saturates at the ends of the Duration range. */
  function Sub(t: int, u: int): int {
    var d := t - u;
    if d > MAX_DURATION then MAX_DURATION else if d < -MAX_DURATION - 1 then -MAX_DURATION - 1 else d
  }

  /** A clock reading: any time more than a maximal Duration after the zero time. */
  predicate IsReading(t: int) { t > MAX_DURATION }
}
