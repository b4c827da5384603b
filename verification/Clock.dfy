/** RFC 3339 timestamps as the broker and the adapter handle them. */
module Clock {

  /**
   A timestamp text: not RFC 3339 at all, or an instant written with an offset from UTC. Instants
   and offsets count nanoseconds, instants from the Apple epoch.
   */
  datatype TimeText = Malformed | Stamp(instant: int, offset: int)

  const YEAR_ZERO := -63_145_526_400_000_000_000
  const YEAR_TEN_THOUSAND := 252_423_993_600_000_000_000

  /** The days of the Gregorian calendar before the first of January of a year. */
  function DaysBefore(year: int): int {
    365 * (year - 1) + (year - 1) / 4 - (year - 1) / 100 + (year - 1) / 400
  }

  /** The two bounds are the beginnings of their years, counted from that of 2001. */
  lemma YearsOfFourDigits()
    ensures YEAR_ZERO == (DaysBefore(0) - DaysBefore(2001)) * 24 * 60 * 60 * 1_000_000_000
    ensures YEAR_TEN_THOUSAND == (DaysBefore(10_000) - DaysBefore(2001)) * 24 * 60 * 60 * 1_000_000_000
  {
  }

  /** time.Parse succeeds when the local time it reads has a four-digit year. */
  predicate Parses(t: TimeText) {
    t.Stamp? && YEAR_ZERO <= t.instant + t.offset < YEAR_TEN_THOUSAND
  }

  /** value.UTC().Format: the same instant, written without an offset. */
  function InUtc(t: TimeText): TimeText
    requires t.Stamp?
  {
    Stamp(t.instant, 0)
  }
}
