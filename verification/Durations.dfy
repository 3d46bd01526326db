/** Times are nanoseconds since the Unix epoch; a difference of two is a signed 64-bit duration. */
module Durations {
  const SECOND: int := 1_000_000_000
  const MINUTE: int := 60_000_000_000
  const DAY: int := 86_400_000_000_000

  const MIN_DURATION: int := -0x8000_0000_0000_0000
  const MAX_DURATION: int := 0x7fff_ffff_ffff_ffff

  /** The time from earlier to now; the difference saturates. */
  function Since(now: int, earlier: int): int {
    if now - earlier < MIN_DURATION then MIN_DURATION else if now - earlier > MAX_DURATION then MAX_DURATION else now - earlier
  }
}
