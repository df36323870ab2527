/** Local date-times as integer minutes counted from 1970-01-01T00:00.
    A calendar date is a day number (days since 1970-01-01), a local time is
    the minute of its day. Dafny's `/` and `%` with a positive divisor round
    toward negative infinity, exactly as `LocalDateTime.toLocalDate` and
    `toLocalTime` do for instants before the epoch. */
module Time {

  const MinutesPerHour := 60
  const MinutesPerDay := 1440

  /** ISO-8601 day-of-week number of Friday, the rest weekday. */
  const Friday := 5

  /** The calendar date of an instant (`toLocalDate`). */
  function Day(t: int): int
  {
    t / MinutesPerDay
  }

  /** The local time of an instant, in minutes after midnight (`toLocalTime`). */
  function Clock(t: int): int
  {
    t % MinutesPerDay
  }

  /** `date.atTime(h, m)`. */
  function AtTime(date: int, h: int, m: int): int
  {
    date * MinutesPerDay + h * MinutesPerHour + m
  }

  /** `date.atStartOfDay()`. */
  function AtStartOfDay(date: int): int
  {
    AtTime(date, 0, 0)
  }

  /** `t.plusHours(h)`. */
  function PlusHours(t: int, h: int): int
  {
    t + h * MinutesPerHour
  }

  /** `getDayOfWeek().getValue()`: Monday is 1, Sunday is 7. Day 0
      (1970-01-01) was a Thursday, so the weekday is `(day + 3) mod 7 + 1`,
      the same anchor java.time uses. */
  function DayOfWeek(date: int): (d: int)
    ensures 1 <= d <= 7
  {
    (date + 3) % 7 + 1
  }

  /** Weekdays repeat every seven days. */
  lemma DayOfWeekPeriodic(date: int)
    ensures DayOfWeek(date + 7) == DayOfWeek(date)
  {
  }

  /** Each date's weekday follows the previous one's, Sunday (7) wrapping
      round to Monday (1), counting from 1970-01-01, a Thursday (4). */
  lemma DayOfWeekSuccessor(date: int)
    ensures DayOfWeek(0) == 4
    ensures DayOfWeek(date + 1) == DayOfWeek(date) % 7 + 1
  {
  }

  /** A date is a Friday exactly when it lies a whole number of weeks from
      1970-01-02, the first Friday of the count. */
  lemma FridaysAreWeeksApart(date: int)
    ensures DayOfWeek(date) == Friday <==> (date - 1) % 7 == 0
  {
  }

  /** Splitting an instant into its date and local time loses nothing. */
  lemma DayClockSplit(t: int)
    ensures 0 <= Clock(t) < MinutesPerDay
    ensures t == AtTime(Day(t), 0, Clock(t))
  {
  }

  /** An instant built from a date and a local time gives back that date and
      that local time. */
  lemma DayClockOfAtTime(date: int, minute: int)
    requires 0 <= minute < MinutesPerDay
    ensures Day(AtTime(date, 0, minute)) == date
    ensures Clock(AtTime(date, 0, minute)) == minute
  {
  }

  /** 2024-01-12, the Friday of the source's rest-day test, is day 19734. */
  lemma JanuaryTwelfthIsFriday()
    ensures DayOfWeek(19734) == Friday
    ensures DayOfWeek(19737) == 1
  {
  }
}
