/** Points in time and durations, in nanoseconds. */
module Times {

  const SEC := 1_000_000_000
  const MINUTE := 60 * SEC
  const HOUR := 60 * MINUTE

  /** time.Time.Unix: whole seconds, rounded down. */
  function Unix(t: int): int {
    t / SEC
  }

  /** What an RFC 3339 string without a fraction keeps: the start of the second. */
  function FloorSec(t: int): int {
    t - t % SEC
  }
}
