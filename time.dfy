/** Instants are integer milliseconds since the epoch. Calendar logic is
    reduced to day arithmetic: a UTC day is `ts / DayMs`, and the server's
    local time is UTC shifted by a fixed offset. */
module Time {

  const DayMs: int := 86400000

  /** The UTC calendar day of an instant: `toISOString().split('T')[0]`.
      Ordering these days is ordering the `YYYY-MM-DD` strings. */
  function UtcDay(ts: int): (d: int)
    ensures d * DayMs <= ts < (d + 1) * DayMs
  {
    ts / DayMs
  }

  /** The last millisecond of the local day holding `t`, where local time is
      `offset` milliseconds ahead of UTC: `setHours(23, 59, 59, 999)`. */
  function EndOfLocalDay(t: int, offset: int): (e: int)
    ensures t <= e < t + DayMs
    ensures (e + offset) / DayMs == (t + offset) / DayMs
    ensures (e + 1 + offset) % DayMs == 0
  {
    (t + offset) / DayMs * DayMs + DayMs - 1 - offset
  }

  /** An inclusive range filter, `{ gte: lo, lte: hi }`. */
  predicate Within(ts: int, lo: int, hi: int) {
    lo <= ts <= hi
  }

  /** The local calendar day of an instant, `offset` milliseconds ahead of UTC. */
  function LocalDay(t: int, offset: int): int {
    (t + offset) / DayMs
  }

  /** An instant is at or before the end of `t`'s local day exactly when its
      local day is not later than `t`'s. */
  lemma EndOfLocalDayBound(t: int, offset: int, d: int)
    ensures d <= EndOfLocalDay(t, offset) <==> LocalDay(d, offset) <= LocalDay(t, offset)
  {
  }
}
