/**
 * The parts of Go's time package the client touches: a time.Time seen
 * through its calendar fields, its zero value, and time.Duration as a count
 * of nanoseconds.
 */
module GoTime {

  /** A time.Time by the calendar fields its accessors return (UTC is assumed). */
  datatype Time = Time(year: int, month: int, day: int, hour: int, minute: int, second: int, nanosecond: int)

  /** time.Time{}: January 1, year 1, 00:00:00.000000000 UTC. */
  const ZeroTime: Time := Time(1, 1, 1, 0, 0, 0, 0)

  predicate IsZero(t: Time) { t == ZeroTime }

  /** The ranges a real time.Time keeps its fields in. */
  predicate ValidTime(t: Time)
  {
    1 <= t.month <= 12 && 1 <= t.day <= 31 && 0 <= t.hour < 24 && 0 <= t.minute < 60 &&
    0 <= t.second < 60 && 0 <= t.nanosecond < 1_000_000_000
  }

  /** time.Minute, in nanoseconds. */
  const Minute: int := 60_000_000_000
}
