/**
 * Abstract calendar timestamps. The application stores `tanggal`,
 * `tanggal_awal` and `tanggal_akhir` as datetimes and extracts the month,
 * the year and the day of the month from them; here a timestamp is the
 * record of those parts plus the time of day, ordered chronologically.
 */
module Calendar {
  type Month = m: int | 1 <= m <= 12 witness 1
  type Day = d: int | 1 <= d <= 31 witness 1

  datatype Stamp = Stamp(year: int, month: Month, day: Day, secondOfDay: nat)

  /** Chronological order: `a` is not later than `b`. */
  predicate Le(a: Stamp, b: Stamp) {
    a.year < b.year
    || (a.year == b.year && a.month < b.month)
    || (a.year == b.year && a.month == b.month && a.day < b.day)
    || (a.year == b.year && a.month == b.month && a.day == b.day && a.secondOfDay <= b.secondOfDay)
  }

  /** Strictly earlier. */
  predicate Lt(a: Stamp, b: Stamp) {
    Le(a, b) && a != b
  }

  /** The `whereMonth(...)->whereYear(...)` test on a timestamp column. */
  predicate InMonth(s: Stamp, month: int, year: int) {
    s.month == month && s.year == year
  }

  lemma LeTotal(a: Stamp, b: Stamp)
    ensures Le(a, b) || Le(b, a)
  {
  }

  lemma LeTransitive(a: Stamp, b: Stamp, c: Stamp)
    requires Le(a, b) && Le(b, c)
    ensures Le(a, c)
  {
  }

  lemma LeAntisymmetric(a: Stamp, b: Stamp)
    requires Le(a, b) && Le(b, a)
    ensures a == b
  {
  }

  /** `Lt` is the strict order that `Le` induces: "earlier" is "not at or after". */
  lemma LtIsNotLe(a: Stamp, b: Stamp)
    ensures Lt(a, b) <==> !Le(b, a)
  {
    if Le(b, a) && Le(a, b) {
      LeAntisymmetric(a, b);
    }
    if !Le(b, a) {
      LeTotal(a, b);
    }
  }
}
