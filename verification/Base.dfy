/** Shared vocabulary: optional values and the clock. */
module Base {
  datatype Option<+T> = None | Some(value: T)

  /** An instant, in ticks since the Unix epoch. One tick is a microsecond,
      the resolution at which Postgres stores a timestamp. */
  type Time = int

  const SECOND: Time := 1_000_000
  const MINUTE: Time := 60 * SECOND
  const HOUR: Time := 60 * MINUTE
  const DAY: Time := 24 * HOUR

  /** Whole seconds since the epoch (Go's time.Time.Unix). */
  function Unix(t: Time): int { t / SECOND }

  /** The start of the second that contains t (the precision of a JWT NumericDate). */
  function FloorSecond(t: Time): (f: Time)
    ensures f <= t < f + SECOND
    ensures Unix(f) * SECOND == f
    ensures Unix(f) == Unix(t)
  {
    Unix(t) * SECOND
  }

  /** Rounding preserves order, and orders two floored instants exactly as their Unix seconds. */
  lemma FloorSecondMonotone(a: Time, b: Time)
    ensures a <= b ==> FloorSecond(a) <= FloorSecond(b)
    ensures FloorSecond(a) < FloorSecond(b) <==> Unix(a) < Unix(b)
  {
  }
}
