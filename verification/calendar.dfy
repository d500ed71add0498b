/** Naive (timezone-free) dates and times as Python's `datetime` module has
    them. A time of day is a count of microseconds since midnight, so Python's
    field-by-field comparison of `time` values is plain integer comparison. */
module Calendar {

  /** Microseconds since midnight (`datetime.time`). */
  type TimeOfDay = nat

  const Midnight: TimeOfDay := 0
  const MicrosPerDay: nat := 86_400_000_000

  datatype Date = Date(year: int, month: int, day: int)

  datatype DateTime = DateTime(date: Date, time: TimeOfDay) {
    function Year(): int { date.year }
    function Month(): int { date.month }
    function Day(): int { date.day }
  }

  /** Python's ordering of `date` values: by year, then month, then day. */
  predicate DateBefore(a: Date, b: Date) {
    a.year < b.year
    || (a.year == b.year && a.month < b.month)
    || (a.year == b.year && a.month == b.month && a.day < b.day)
  }

  /** Python's ordering of `datetime` values: by date, then time of day. */
  predicate Before(a: DateTime, b: DateTime) {
    DateBefore(a.date, b.date) || (a.date == b.date && a.time < b.time)
  }

  predicate AtOrBefore(a: DateTime, b: DateTime) {
    Before(a, b) || a == b
  }

  /** Days since 1970-01-01 in the proleptic Gregorian calendar (the
      `toordinal()` Python uses for date arithmetic, shifted to the Unix epoch). */
  function DayNumber(d: Date): int {
    var y := if d.month <= 2 then d.year - 1 else d.year;
    var era := y / 400;
    var yoe := y - era * 400;
    var mp := if d.month > 2 then d.month - 3 else d.month + 9;
    var doy := (153 * mp + 2) / 5 + d.day - 1;
    var doe := yoe * 365 + yoe / 4 - yoe / 100 + doy;
    era * 146097 + doe - 719468
  }

  /** `date.weekday()`: Monday is 0 and Sunday is 6 (1970-01-01 was a Thursday). */
  function Weekday(d: Date): (w: nat)
    ensures w < 7
  {
    (DayNumber(d) + 3) % 7
  }

  /** Position on a single time line, for `datetime + timedelta` comparisons. */
  function Ticks(dt: DateTime): int {
    DayNumber(dt.date) * MicrosPerDay + dt.time
  }
}
