/** Instants and durations, all in nanoseconds; instants count from the start of year 0. */
module Times {
  const SECOND := 1_000_000_000
  const DAY := 86_400_000_000_000

  /** The zero time: the start of year 1, which a timestamp has when nobody set it. */
  const ZERO_TIME := 366 * DAY

  /** First and last instants whose UTC year is written with four digits. */
  const FIRST_INSTANT := 0
  const LAST_INSTANT := 3652425 * DAY - 1

  /** A year the wire format can write and read back. */
  predicate InFourDigitYears(t: int) { FIRST_INSTANT <= t <= LAST_INSTANT }
}
