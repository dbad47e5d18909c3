/** Instants and durations are whole microseconds since the Unix epoch, the
    resolution of the clocks the program reads. */
module Time {
  const SECOND: int := 1_000_000
  const MINUTE: int := 60_000_000
  const HOUR: int := 3_600_000_000
  const DAY: int := 86_400_000_000

  // Asia/Shanghai is UTC+8 all year round.
  const SHANGHAI: int := 28_800_000_000

  function Min(a: int, b: int): int { if a <= b then a else b }

  function Max(a: int, b: int): int { if a >= b then a else b }

  /** The whole second that contains t: what the database keeps of an instant. */
  function WholeSecond(t: int): int { t / SECOND }

  /** The minute row that t is booked in. */
  function MinuteOf(t: int): int { t / MINUTE }

  function LocalDate(t: int): int { (t + SHANGHAI) / DAY }

  function LocalHour(t: int): int { (t + SHANGHAI) % DAY / HOUR }
}

module Wrappers {
  datatype Option<+T> = None | Some(value: T)
}
