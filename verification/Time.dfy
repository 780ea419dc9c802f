/** Instants and durations are counted in nanoseconds. */
module Time {
  const SECOND: int := 1_000_000_000
  const MINUTE: int := 60 * SECOND
}
