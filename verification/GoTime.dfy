/** Machine integers, instants and durations as the Go runtime represents them.

    An instant is a whole number of nanoseconds counted from Go's zero instant, so
    `IsZero` is comparison with 0 and `.UTC()` is the identity. A duration is an int64. */
module GoTime {
  const MAX_INT64: int := 0x7FFF_FFFF_FFFF_FFFF
  const MIN_INT64: int := -0x8000_0000_0000_0000
  const TWO_64: int := 0x1_0000_0000_0000_0000

  type Time = int
  const ZERO_TIME: Time := 0

  const MILLISECOND: int := 1_000_000
  const SECOND: int := 1_000_000_000
  const MINUTE: int := 60 * SECOND

  predicate InInt64(x: int) {
    MIN_INT64 <= x <= MAX_INT64
  }

  /** Two's-complement wrap-around to 64 bits. */
  function Wrap64(x: int): (r: int)
    ensures InInt64(r) && (r - x) % TWO_64 == 0
    ensures InInt64(x) ==> r == x
  {
    (x - MIN_INT64) % TWO_64 + MIN_INT64
  }

  /** `t.Sub(u)`: the difference, saturating at the ends of the duration range. */
  function Sub(t: Time, u: Time): (d: int)
    ensures InInt64(d) && (InInt64(t - u) ==> d == t - u)
  {
    if t - u < MIN_INT64 then MIN_INT64 else if t - u > MAX_INT64 then MAX_INT64 else t - u
  }

  /** Whole milliseconds, rounded down, as `UnixMilli` rounds. The Unix epoch is a whole
      number of milliseconds after the zero instant, so both count the same buckets. */
  function Milli(t: Time): (m: int)
    ensures m * MILLISECOND <= t < (m + 1) * MILLISECOND
  {
    t / MILLISECOND
  }

  /** The whole milliseconds between the zero instant and 1 January 1970. */
  const UNIX_EPOCH_MILLI: int := 62_135_596_800_000

  function UnixMilli(t: Time): (m: int)
    ensures m * MILLISECOND <= t - 62_135_596_800 * SECOND < (m + 1) * MILLISECOND
  {
    Milli(t) - UNIX_EPOCH_MILLI
  }

  function Abs(x: int): nat {
    if x < 0 then -x else x
  }

  function Max(a: int, b: int): int {
    if a < b then b else a
  }

  function Min(a: int, b: int): int {
    if a < b then a else b
  }
}
