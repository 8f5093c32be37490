/** Instants and durations are whole nanoseconds, as in Go's time package. */
module Time {

  const SECOND: int := 1_000_000_000
  const MINUTE: int := 60 * SECOND
  const DAY: int := 24 * 60 * MINUTE
}
