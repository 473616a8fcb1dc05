/**
  The window computation of `UtcRollover`, stage by stage, as functions of
  its inputs: the candidate start, the one-hour or one-day end, the holiday
  step, the forward push and the re-ordering of the end. The reactor's
  `UtcRollover` method is proved to leave exactly `Resolve(...)` in the
  counters; the lemmas below state what that window is.
*/
module Window {
  import opened Wrappers
  import opened Calendar

  /** A validated holiday: the UTC instants bounding the local day it stands for. */
  datatype Holiday = Holiday(UtcStart: int, UtcEnd: int)

  /** The (Start, End) snapshot that `GetShowtime` returns. */
  datatype Showtime = Showtime(Start: int, End: int)

  /** The holiday's half-open span [UtcStart, UtcEnd) contains t. */
  predicate Covers(h: Holiday, t: int)
  {
    h.UtcStart <= t < h.UtcEnd
  }

  /** `Holidays.Any(holiday => t >= holiday.UtcStart && t < holiday.UtcEnd)`. */
  function InAnyHoliday(hs: seq<Holiday>, t: int): (r: bool)
    ensures r <==> exists i :: 0 <= i < |hs| && Covers(hs[i], t)
  {
    if hs == [] then false
    else
      assert forall i :: 0 < i < |hs| ==> hs[1..][i - 1] == hs[i];
      Covers(hs[0], t) || InAnyHoliday(hs[1..], t)
  }

  /**
    The day the candidate start is taken from: the test date when one is set,
    else the date of the test override time when that is in use, else today.
  */
  function SourceDay(testDate: Option<int>, useTestOverrideTime: bool, testOverrideTime: int, today: int): (d: int)
    ensures testDate.Some? ==> d == testDate.value
    ensures testDate.None? && useTestOverrideTime ==> d == DayOf(testOverrideTime)
    ensures testDate.None? && !useTestOverrideTime ==> d == today
  {
    if testDate.Some? then testDate.value
    else if useTestOverrideTime then DayOf(testOverrideTime)
    else today
  }

  /** The anchor time of day on a local day, converted to UTC. */
  function CandidateStart(anchor: int, day: int, utcOffset: int): (s: int)
    ensures 0 <= anchor < SecondsPerDay ==>
              DayOf(s + utcOffset) == day && TimeOfDay(s + utcOffset) == anchor
  {
    ToUtc(day * SecondsPerDay + anchor, utcOffset)
  }

  /** The instant a passed slot is judged against: the test override time in UTC, or the given UTC date. */
  function Reference(useTestOverrideTime: bool, testOverrideTime: int, utcOffset: int, utcDate: int): int
  {
    if useTestOverrideTime then ToUtc(testOverrideTime, utcOffset) else utcDate
  }

  /** End is one day after the start for a repeating schedule, one hour otherwise. */
  function InitialWindow(candidate: int, repeat: bool): Showtime
  {
    Showtime(candidate, if repeat then AddDays(candidate, 1) else AddHours(candidate, 1))
  }

  /** Days the holiday step moves a start by. */
  function HolidayShift(start: int, hs: seq<Holiday>): int
  {
    if !InAnyHoliday(hs, start) then 0
    else if InAnyHoliday(hs, AddDays(start, 1)) then 2
    else 1
  }

  /** The holiday step: a start inside a holiday moves one or two days, and the end follows. */
  function HolidayStep(w: Showtime, hs: seq<Holiday>): Showtime
  {
    if InAnyHoliday(hs, w.Start) then
      var s := AddDays(w.Start, if InAnyHoliday(hs, AddDays(w.Start, 1)) then 2 else 1);
      Showtime(s, AddDays(w.End, if AddDays(w.End, 1) < s then 2 else 1))
    else w
  }

  /** The forward push applies to a one-shot schedule outside a holiday refresh whose start has passed. */
  predicate Pushes(w: Showtime, repeat: bool, reference: int, isUpdateHolidays: bool)
  {
    !repeat && w.Start < reference && !isUpdateHolidays
  }

  function Push(w: Showtime, push: bool): Showtime
  {
    if push then Showtime(AddDays(w.Start, 1), w.End) else w
  }

  /** An end before the start moves one or two days forward. */
  function Reorder(w: Showtime): Showtime
  {
    if w.End < w.Start then Showtime(w.Start, AddDays(w.End, if AddDays(w.End, 1) < w.Start then 2 else 1))
    else w
  }

  /**
    The window `UtcRollover` computes from a candidate start. It depends on
    nothing else: not on the previous window nor on any counter.
  */
  function Resolve(candidate: int, repeat: bool, hs: seq<Holiday>, reference: int, isUpdateHolidays: bool): (w: Showtime)
    ensures w.Start <= w.End
    ensures !repeat ==> w.End == AddHours(w.Start, 1)
    ensures repeat ==> w.End == if HolidayShift(candidate, hs) == 2 then w.Start else AddDays(w.Start, 1)
    ensures var h := HolidayStep(InitialWindow(candidate, repeat), hs);
            w.Start == AddDays(candidate, HolidayShift(candidate, hs) + if Pushes(h, repeat, reference, isUpdateHolidays) then 1 else 0)
  {
    var h := HolidayStep(InitialWindow(candidate, repeat), hs);
    Reorder(Push(h, Pushes(h, repeat, reference, isUpdateHolidays)))
  }

  /**
    The statements of `UtcRollover` after parsing, in order, on the start
    and end they assign: the window they leave is `Resolve`'s.
  */
  method RolloverSteps(candidate: int, repeat: bool, hs: seq<Holiday>, reference: int, isUpdateHolidays: bool)
    returns (start: int, end: int)
    ensures Showtime(start, end) == Resolve(candidate, repeat, hs, reference, isUpdateHolidays)
  {
    start := candidate;
    end := if repeat then AddDays(start, 1) else AddHours(start, 1);
    if InAnyHoliday(hs, start) {
      start := AddDays(start, if InAnyHoliday(hs, AddDays(start, 1)) then 2 else 1);
      end := AddDays(end, if AddDays(end, 1) < start then 2 else 1);
    }
    assert Showtime(start, end) == HolidayStep(InitialWindow(candidate, repeat), hs);
    if !repeat && start < reference && !isUpdateHolidays {
      start := AddDays(start, 1);
    }
    if end < start {
      end := AddDays(end, if AddDays(end, 1) < start then 2 else 1);
    }
  }

  /** Exclusions of a window start (`TimerOnElapsed`): weekday, day-of-month include and exclude lists, month of the local date. */
  predicate Excluded(start: int, localDate: int, daysOfWeek: seq<int>, includeDays: seq<int>,
                     excludeDays: seq<int>, monthsOfYear: seq<int>)
    ensures start in excludeDays ==> Excluded(start, localDate, daysOfWeek, includeDays, excludeDays, monthsOfYear)
  {
    DayOfWeek(start) !in daysOfWeek
    || (|includeDays| > 0 && start !in includeDays)
    || start in excludeDays
    || MonthOf(localDate) !in monthsOfYear
  }

  // ---------------------------------------------------------------------
  // Properties of the window

  /**
    The holiday step moves a start by at most two days, only when the start
    lies inside a holiday, and a one-day move lands outside every holiday.
  */
  lemma HolidayStepMoves(w: Showtime, hs: seq<Holiday>)
    ensures var r := HolidayStep(w, hs);
            (r.Start == w.Start <==> !InAnyHoliday(hs, w.Start))
            && (r.Start == AddDays(w.Start, 1) || r.Start == AddDays(w.Start, 2) || r == w)
            && (r.Start == AddDays(w.Start, 1) ==> !InAnyHoliday(hs, r.Start))
  {
  }

  /** A block of holidays no longer than two days is always left behind by the holiday step. */
  lemma HolidayStepClearsTwoDayBlocks(w: Showtime, hs: seq<Holiday>)
    requires !InAnyHoliday(hs, AddDays(w.Start, 2))
    ensures !InAnyHoliday(hs, HolidayStep(w, hs).Start)
  {
  }

  /** A three-day holiday block leaves the start inside a holiday after the holiday step. */
  lemma ThreeDayBlockNotCleared()
    ensures var hs := [Holiday(0, 3 * SecondsPerDay)];
            var w := Resolve(0, false, hs, 0, true);
            w.Start == 2 * SecondsPerDay && InAnyHoliday(hs, w.Start)
  {
    var hs := [Holiday(0, 3 * SecondsPerDay)];
    assert Covers(hs[0], SecondsPerDay);
    assert Covers(hs[0], 2 * SecondsPerDay);
  }

  /**
    A two-day holiday block under a repeating schedule moves the start two
    days and the end one, so the window comes out empty: End equals Start.
  */
  lemma TwoDayShiftEmptiesRepeatingWindow()
    ensures var hs := [Holiday(0, 2 * SecondsPerDay)];
            var w := Resolve(0, true, hs, 0, true);
            w.Start == 2 * SecondsPerDay && w.End == w.Start
  {
    var hs := [Holiday(0, 2 * SecondsPerDay)];
    assert Covers(hs[0], 0);
    assert Covers(hs[0], SecondsPerDay);
  }

  /** The forward push happens exactly for a one-shot schedule, outside a holiday refresh, whose start is strictly earlier. */
  lemma PushIff(candidate: int, repeat: bool, hs: seq<Holiday>, reference: int, isUpdateHolidays: bool)
    ensures var h := HolidayStep(InitialWindow(candidate, repeat), hs);
            (Resolve(candidate, repeat, hs, reference, isUpdateHolidays).Start == AddDays(h.Start, 1))
            <==> (!repeat && !isUpdateHolidays && h.Start < reference)
  {
  }

  /**
    Without holidays and outside a refresh, a one-shot rollover on today's
    local date gives the next instant, at or after now, whose local time of
    day is the anchor.
  */
  lemma OneShotRolloverIsNextOccurrence(anchor: int, utcOffset: int, now: int)
    requires 0 <= anchor < SecondsPerDay
    ensures var c := CandidateStart(anchor, DayOf(now + utcOffset), utcOffset);
            var w := Resolve(c, false, [], now, false);
            TimeOfDay(w.Start + utcOffset) == anchor
            && now <= w.Start < now + SecondsPerDay
            && w.End == AddHours(w.Start, 1)
  {
    var c := CandidateStart(anchor, DayOf(now + utcOffset), utcOffset);
    var day := DayOf(now + utcOffset);
    assert day * SecondsPerDay <= now + utcOffset < (day + 1) * SecondsPerDay;
    assert TimeOfDay(AddDays(c, 1) + utcOffset) == anchor by {
      assert AddDays(c, 1) + utcOffset == (day + 1) * SecondsPerDay + anchor;
    }
  }

  /** Without holidays a repeating window runs a whole day and has not ended at the reference. */
  lemma RepeatingRolloverReachesNow(anchor: int, utcOffset: int, now: int, isUpdateHolidays: bool)
    requires 0 <= anchor < SecondsPerDay
    ensures var c := CandidateStart(anchor, DayOf(now + utcOffset), utcOffset);
            var w := Resolve(c, true, [], now, isUpdateHolidays);
            w.Start == c && w.End == AddDays(w.Start, 1) && w.Start < now + SecondsPerDay && now < w.End
  {
    var day := DayOf(now + utcOffset);
    assert day * SecondsPerDay <= now + utcOffset < (day + 1) * SecondsPerDay;
  }

  /**
    A holiday on the reference day, computed in refresh mode: the window
    moves to the next day at the anchor time and lasts one hour.
  */
  lemma HolidayTodayMovesToTomorrow(anchor: int, utcOffset: int, testOverrideTime: int, today: int, utcDate: int)
    requires 0 <= anchor < SecondsPerDay
    ensures var day := DayOf(testOverrideTime);
            var hs := [Holiday(ToUtc(day * SecondsPerDay, utcOffset), ToUtc((day + 1) * SecondsPerDay, utcOffset))];
            var c := CandidateStart(anchor, SourceDay(None, true, testOverrideTime, today), utcOffset);
            var next := CandidateStart(anchor, day + 1, utcOffset);
            Resolve(c, false, hs, Reference(true, testOverrideTime, utcOffset, utcDate), true)
              == Showtime(next, AddHours(next, 1))
  {
    var day := DayOf(testOverrideTime);
    var hs := [Holiday(ToUtc(day * SecondsPerDay, utcOffset), ToUtc((day + 1) * SecondsPerDay, utcOffset))];
    var c := CandidateStart(anchor, day, utcOffset);
    assert Covers(hs[0], c);
    assert !Covers(hs[0], AddDays(c, 1));
  }

  /** Without holidays, a one-shot window on the override day moves to the next day exactly when its start is before the override time. */
  lemma OverrideRolloverWithoutHoliday(anchor: int, utcOffset: int, testOverrideTime: int, today: int, utcDate: int)
    ensures var c := CandidateStart(anchor, SourceDay(None, true, testOverrideTime, today), utcOffset);
            var w := Resolve(c, false, [], Reference(true, testOverrideTime, utcOffset, utcDate), false);
            w.Start == (if c < ToUtc(testOverrideTime, utcOffset) then AddDays(c, 1) else c)
            && w.End == AddHours(w.Start, 1)
  {
  }
}
