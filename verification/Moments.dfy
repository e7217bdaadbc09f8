/** Instants and local times as Python's `datetime` holds them. */
module Moments {
  import opened Text
  import opened Calendar

  /** Times are in microseconds since 0001-01-01T00:00. */
  const MICROS := 1_000_000
  const MINUTE := 60_000_000
  const DAY := 86_400_000_000

  /** The end of day MAX_DAY. */
  const LIMIT := 315_537_897_600_000_000

  predicate InRange(t: int) {
    0 <= t < LIMIT
  }

  /** What a `datetime` can hold. */
  type Moment = t: int | 0 <= t < LIMIT

  function Clip(t: int): Option<Moment> {
    if InRange(t) then Some(t) else None
  }

  /** Days since the first, and microseconds within the day. */
  function DayIndex(t: Moment): (day: nat)
    ensures day <= MAX_DAY && day * DAY <= t < (day + 1) * DAY
  {
    (t as int) / 86_400_000_000
  }
}
