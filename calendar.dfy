/**
  Time arithmetic of the scheduler. An instant is a whole number of seconds
  since 1970-01-01T00:00:00; a UTC instant and a local instant differ by the
  fixed offset of the local time zone. A calendar day is the number of whole
  days since 1970-01-01.
*/
module Calendar {
  const SecondsPerDay: int := 86400
  const SecondsPerHour: int := 3600

  /** DateTime.MinValue (0001-01-01T00:00:00), the value of an unset DateTime field. */
  const MinValue: int := -62135596800

  /** DateTime.AddDays(n) on a whole number of days. */
  function AddDays(t: int, n: int): int
  {
    t + n * SecondsPerDay
  }

  /** DateTime.AddHours(n) on a whole number of hours. */
  function AddHours(t: int, n: int): int
  {
    t + n * SecondsPerHour
  }

  /** The calendar day an instant falls on (floor division: the local date of a local instant). */
  function DayOf(t: int): (d: int)
    ensures d * SecondsPerDay <= t < (d + 1) * SecondsPerDay
  {
    t / SecondsPerDay
  }

  /** The seconds since midnight of an instant. */
  function TimeOfDay(t: int): (s: int)
    ensures 0 <= s < SecondsPerDay
    ensures t == DayOf(t) * SecondsPerDay + s
  {
    t % SecondsPerDay
  }

  /** DateTime.ToUniversalTime of a local instant, for a zone offset (local minus UTC) in seconds. */
  function ToUtc(local: int, utcOffset: int): int
  {
    local - utcOffset
  }

  /** DateTime.DayOfWeek of a UTC instant: 0 is Sunday, ..., 6 is Saturday. */
  function DayOfWeek(t: int): (d: int)
    ensures 0 <= d < 7
  {
    (DayOf(t) + 4) % 7
  }

  /** DateTime.Month of a calendar day (proleptic Gregorian calendar), 1 to 12. */
  function MonthOf(day: int): (m: int)
    ensures 1 <= m <= 12
  {
    var z := day + 719468;
    var doe := z % 146097;
    var yoe := (doe - doe / 1460 + doe / 36524 - doe / 146096) / 365;
    var doy := doe - (365 * yoe + yoe / 4 - yoe / 100);
    var mp := (5 * doy + 2) / 153;
    if mp < 10 then mp + 3 else mp - 9
  }

  /** 1970-01-31 (day 30) is in January and 1970-02-01 (day 31) in February. */
  lemma JanuaryEnds()
    ensures MonthOf(30) == 1 && MonthOf(31) == 2
  {
    assert 719498 % 146097 == 135110 && 719499 % 146097 == 135111;
    assert (135110 - 135110 / 1460 + 135110 / 36524 - 135110 / 146096) / 365 == 369;
    assert (135111 - 135111 / 1460 + 135111 / 36524 - 135111 / 146096) / 365 == 369;
  }

  /** 2000 is a leap year: 2000-02-29 (day 11016) is in February and the next day in March. */
  lemma LeapDay2000()
    ensures MonthOf(11016) == 2 && MonthOf(11017) == 3
  {
    assert 730484 % 146097 == 146096 && 730485 % 146097 == 0;
    assert (146096 - 146096 / 1460 + 146096 / 36524 - 146096 / 146096) / 365 == 399;
  }

  /** The epoch 1970-01-01 is a Thursday, and 2000-01-01 (day 10957) a Saturday. */
  lemma EpochIsThursday()
    ensures DayOfWeek(0) == 4
    ensures DayOfWeek(10957 * SecondsPerDay) == 6
  {
  }

  /** The day after an instant falls on the next weekday. */
  lemma DayOfWeekNextDay(t: int)
    ensures DayOfWeek(AddDays(t, 1)) == (DayOfWeek(t) + 1) % 7
  {
    assert DayOf(AddDays(t, 1)) == DayOf(t) + 1;
  }
}
