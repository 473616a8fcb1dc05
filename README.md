# Seq.App.EventSchedule: the scheduling core in Dafny

Seq.App.EventSchedule is a Seq app that writes log events on a schedule. A
local time of day (the schedule time) fixes a UTC window `[StartTime,
EndTime)`; a one-second timer enters that window, logs one event (or one per
multi-log token), optionally logs again every interval while the window lasts,
and then rolls the window over to the next occurrence. Days of the week, days
of the month and months can exclude a window, and public holidays fetched from
a web service move it by a day or two.

This project models `EventScheduleReactor` and the two state classes it works
on:

- `ScheduleConfig` and `ScheduleCounters` are classes with the source's fields
  (`reactor.dfy`). The reactor is a class holding both, its message and
  description, and two ghost traces: `Emitted`, the records logged, and
  `Notices`, the exclusion diagnostics.
- `UtcRollover`, `RetrieveHolidays`, `SetHolidays`, the body of
  `TimerOnElapsed` (`Tick`), `ScheduledLogEvent` and `OnAttached` are methods on
  that class. Each is proved against specification functions.
- Those specification functions live in their own modules:
  - `Window` (`window.dfy`): the window arithmetic of `UtcRollover`.
  - `Refresh` (`refresh.dfy`): the refresh bookkeeping of `RetrieveHolidays`.
  - `Parsing` (`parsing.dfy`): the settings normalisations of `OnAttached`.
  - `Emission` (`emission.dfy`): the responder and template of
    `ScheduledLogEvent`.
  - `Calendar` (`calendar.dfy`): the time arithmetic.

  Lemmas in those modules state what the window, the refresh run and the parsed
  settings are.

Conventions:

- Time:
  - An instant is a whole number of seconds, UTC unless it is called local.
  - Local time is UTC plus a fixed offset, the `UtcOffset` of the reactor.
  - A date is a day number.
- What the code reads from the outside world becomes a parameter:
  - the clock (`DateTime.Today`, `DateTime.Now`, `DateTime.UtcNow`);
  - the holiday service and its validation, as `FetchOutcome`;
  - the country check;
  - the date-list helpers of Lurgle.Dates;
  - the Handlebars renderer.
- An exception that escapes becomes a result: `parsed`, `completed` or
  `attached` is false.
- A duplicate dictionary key becomes `None`.

Where the code's own comments, messages and help texts promise more than the
code does, the model follows the code:

- The comment at `EventScheduleReactor.cs:776` says the end time is one hour
  (or, for a repeating schedule, one day) after the start, and the repair at
  :794-795 only fires when `EndTime < StartTime`. A repeating window whose
  start lies in a two-day holiday block moves its start two days and its end
  one (:780-786), so it comes out with `End == Start`. `Window.Resolve` states
  this and `Window.TwoDayShiftEmptiesRepeatingWindow` exhibits it, so the
  model's window invariant is `StartTime <= EndTime`.
- The comment at :779 says the rollover accounts for holidays. It takes a
  single step of at most two days (:780-786), so a three-day block leaves the
  start inside a holiday (`Window.ThreeDayBlockNotCleared`).
- The `RetryCount` help text (:177) offers 0 to 100 retries, default 10. The
  code gives up only at an error count of 10 (:740), whatever the retry count.
  So a retry count below 10 keeps a refresh "in progress" for good
  (`Refresh.StuckBelowGiveUp`); while that lasts no new window is entered
  and no rollover happens. A retry count above 10 behaves as 10: the tick
  after the tenth failure comes within the ten-second retry delay and gives
  up (`Refresh.QuickCallAfterTenthFailureGivesUp`).
- The message at :281-283 says an unparseable schedule time makes the app
  exit. The code only logs it in `OnAttached` and keeps "H:mm:ss". The
  exception comes later, from `UtcRollover`, and is caught as a holiday error
  when it is raised inside `RetrieveHolidays`.

## Model

| member | source | states |
|---|---|---|
| EventSchedule.ScheduleConfig.constructor | Seq.App.EventSchedule/Classes/ScheduleConfig.cs:9-61 | the field initialisers: "H:mm:ss", empty lookups, day lists, tags and holidays, the test override time equal to the local time of construction, every flag off. The source gives `IncludeDays` and `ExcludeDays` (:55, :57) no initialiser, so they start null; the model starts them empty, and nothing reads them before `OnAttached` sets them. `Responders` (:42) also starts null; the model writes that as the empty text |
| EventSchedule.ScheduleCounters.constructor | Seq.App.EventSchedule/Classes/ScheduleCounters.cs:5-21 | every instant starts at `DateTime.MinValue`, every flag off, every count zero |
| EventSchedule.EventScheduleReactor.constructor | Seq.App.EventSchedule/EventScheduleReactor.cs:21-24 | fresh config and counters, no window served, nothing logged, the free-text settings parsed once from the bound settings |
| Calendar.DayOfWeek | Seq.App.EventSchedule/EventScheduleReactor.cs:505 | the weekday of an instant is one of seven values |
| Calendar.DayOfWeekNextDay | Seq.App.EventSchedule/EventScheduleReactor.cs:505 | the day after an instant is the next weekday, cyclically |
| Calendar.MonthOf | Seq.App.EventSchedule/EventScheduleReactor.cs:508 | the month of a day is one of 1 to 12 |
| Calendar.JanuaryEnds | Seq.App.EventSchedule/EventScheduleReactor.cs:508 | 1970-01-31 lies in January and 1970-02-01 in February |
| Calendar.EpochIsThursday | Seq.App.EventSchedule/EventScheduleReactor.cs:505 | 1970-01-01 is a Thursday and 2000-01-01 a Saturday, which fixes the weekday numbering and not only its range |
| Calendar.LeapDay2000 | Seq.App.EventSchedule/EventScheduleReactor.cs:508 | 2000-02-29 lies in February and the next day in March |
| Window.InAnyHoliday | Seq.App.EventSchedule/EventScheduleReactor.cs:780-783 | true exactly when some holiday's half-open span contains the instant |
| Window.CandidateStart | Seq.App.EventSchedule/EventScheduleReactor.cs:763-774 | the candidate start lies on the chosen local date at the schedule time of day |
| Window.Resolve | Seq.App.EventSchedule/EventScheduleReactor.cs:755-796 | the rolled-over window is ordered; a one-shot window lasts one hour; a repeating one lasts a day, except that it is empty after a two-day holiday shift; the start is the candidate moved by the holiday shift plus one day when the forward push applies |
| Window.RolloverSteps | Seq.App.EventSchedule/EventScheduleReactor.cs:776-795 | the assignments of `UtcRollover`, in order, leave exactly the window `Resolve` describes |
| Window.Excluded | Seq.App.EventSchedule/EventScheduleReactor.cs:505-508 | a start in the exclude list is always excluded |
| Window.HolidayStepMoves | Seq.App.EventSchedule/EventScheduleReactor.cs:780-787 | the holiday step moves the start exactly when it lies in a holiday, and then by one or two days; a one-day move lands outside every holiday |
| Window.HolidayStepClearsTwoDayBlocks | Seq.App.EventSchedule/EventScheduleReactor.cs:780-787 | when the day two days after the start is free, the step leaves the start outside every holiday |
| Window.ThreeDayBlockNotCleared | Seq.App.EventSchedule/EventScheduleReactor.cs:780-787 | a three-day holiday block leaves the start inside a holiday |
| Window.TwoDayShiftEmptiesRepeatingWindow | Seq.App.EventSchedule/EventScheduleReactor.cs:777-795 | a repeating window in a two-day holiday block comes out with End equal to Start |
| Window.PushIff | Seq.App.EventSchedule/EventScheduleReactor.cs:790-792 | the start is pushed a day forward exactly for a one-shot schedule, outside a holiday refresh, whose start is strictly before the reference instant |
| Window.OneShotRolloverIsNextOccurrence | Seq.App.EventSchedule/EventScheduleReactor.cs:772-795 | without holidays, the one-shot rollover of now is the next instant at or after now at the schedule time of day, and lasts one hour |
| Window.RepeatingRolloverReachesNow | Seq.App.EventSchedule/EventScheduleReactor.cs:772-795 | without holidays, a repeating window starts at today's schedule time, lasts a day and has not ended at now |
| Window.HolidayTodayMovesToTomorrow | Seq.App.EventSchedule/EventScheduleReactor.cs:766-795 | a holiday on the override day, in refresh mode, moves the window to the next day at the same time, for one hour |
| Window.OverrideRolloverWithoutHoliday | Seq.App.EventSchedule/EventScheduleReactor.cs:766-795 | without holidays, a one-shot window on the override day moves to the next day exactly when its start is before the override time |
| Parsing.TrimStart | Seq.App.EventSchedule/EventScheduleReactor.cs:374-376 | the result is a suffix; everything dropped is whitespace; it does not start with whitespace |
| Parsing.TrimEnd | Seq.App.EventSchedule/EventScheduleReactor.cs:374-376 | the result is a prefix; everything dropped is whitespace; it does not end with whitespace |
| Parsing.Trim | Seq.App.EventSchedule/EventScheduleReactor.cs:374-376 | no whitespace at either end; empty exactly when the text is all whitespace; the result is a slice of the text with only whitespace before and after it, so every other character is kept and nothing new appears |
| Parsing.InnerSlice | Seq.App.EventSchedule/EventScheduleReactor.cs:374-376 | a prefix of a suffix, each cut off at whitespace, is a slice of the text with only whitespace before and after it |
| Parsing.TrimFacts | Seq.App.EventSchedule/EventScheduleReactor.cs:374-376 | the four facts `Trim` promises, about trimming both ends |
| Parsing.TrimEnds | Seq.App.EventSchedule/EventScheduleReactor.cs:374-376 | a trimmed text neither starts nor ends with whitespace |
| Parsing.TrimEmptyIff | Seq.App.EventSchedule/EventScheduleReactor.cs:374-376 | trimming yields the empty text exactly when the text is all whitespace |
| Parsing.TrimStartKeeps | Seq.App.EventSchedule/EventScheduleReactor.cs:374-376 | the start trim keeps every non-whitespace character and adds none |
| Parsing.TrimEndKeeps | Seq.App.EventSchedule/EventScheduleReactor.cs:374-376 | the end trim keeps every non-whitespace character and adds none |
| Parsing.TrimIdempotent | Seq.App.EventSchedule/EventScheduleReactor.cs:374-376 | trimming twice is trimming once |
| Parsing.Split | Seq.App.EventSchedule/EventScheduleReactor.cs:311-314 | at least one part; no part holds the separator; a single part, the text itself, exactly when the text has no separator |
| Parsing.JoinSplit | Seq.App.EventSchedule/EventScheduleReactor.cs:311-314 | joining the parts of a split with the separator gives back the text |
| Parsing.SplitPrefix | Seq.App.EventSchedule/EventScheduleReactor.cs:311-314 | a separator-free prefix lengthens only the first part of a split |
| Parsing.SplitJoin | Seq.App.EventSchedule/EventScheduleReactor.cs:311-314 | splitting separator-free parts joined with the separator gives back the parts |
| Parsing.CharInSomePart | Seq.App.EventSchedule/EventScheduleReactor.cs:311-314 | every character other than the separator lies in some part |
| Parsing.NonEmpty | Seq.App.EventSchedule/EventScheduleReactor.cs:311-313 | every part kept is non-empty and one of the parts, and every non-empty part is kept; with `NonEmptyAppend` and `NonEmptyOne` the kept parts are the non-empty ones in their order |
| Parsing.NonEmptyAppend | Seq.App.EventSchedule/EventScheduleReactor.cs:311-313 | dropping empty parts of two lists joined is dropping them from each and joining |
| Parsing.NonEmptyOne | Seq.App.EventSchedule/EventScheduleReactor.cs:311-313 | a single part is kept exactly when it is not empty |
| Parsing.EntriesNonEmptyIff | Seq.App.EventSchedule/EventScheduleReactor.cs:404-408 | a setting yields at least one entry exactly when it holds a character other than a comma, which is when tagging turns on |
| Parsing.JoinHasPartChars | Seq.App.EventSchedule/EventScheduleReactor.cs:311-314 | every character of every part occurs in the joined text |
| Parsing.PairOf | Seq.App.EventSchedule/EventScheduleReactor.cs:316-317 | neither the key nor the value read from an entry holds '=' |
| Parsing.PairOfIsPrefix | Seq.App.EventSchedule/EventScheduleReactor.cs:316-317 | the entry begins with key '=' value, and anything after that begins with a further '=', which is dropped |
| Parsing.Mappings | Seq.App.EventSchedule/EventScheduleReactor.cs:315-316 | at most one pair per entry, and at least one when some entry holds '='; with `MappingsAppend` and `MappingsOne` the pairs are those of the entries holding '=', in entry order |
| Parsing.MappingsAppend | Seq.App.EventSchedule/EventScheduleReactor.cs:315-316 | the mappings of two entry lists joined are the mappings of each, joined |
| Parsing.MappingsOne | Seq.App.EventSchedule/EventScheduleReactor.cs:315-316 | an entry gives its pair exactly when it holds '=', and nothing otherwise |
| Parsing.AddAllSucceedsIff | Seq.App.EventSchedule/EventScheduleReactor.cs:316-317 | adding the pairs succeeds exactly when no key repeats, and the dictionary then holds the pairs in insertion order |
| Parsing.AddMappings | Seq.App.EventSchedule/EventScheduleReactor.cs:316-320 | the `foreach ... Add` loop yields the lookup `AddAll` describes, or the duplicate-key failure |
| Parsing.ResponderTextHasMapping | Seq.App.EventSchedule/EventScheduleReactor.cs:417-431 | a responder setting holding '=' yields at least one mapping |
| Parsing.ParseTimeOfDay | Seq.App.EventSchedule/EventScheduleReactor.cs:274-278 | a parsed time of day lies within one day, and a time parsed as "H:mm" is a whole minute |
| Parsing.FormatsExclusive | Seq.App.EventSchedule/EventScheduleReactor.cs:274-283 | no schedule time parses in both "H:mm:ss" and "H:mm" |
| Parsing.Pad2Digits | Seq.App.EventSchedule/EventScheduleReactor.cs:274-278 | a number below 100 written in two digits reads back as itself |
| Parsing.ClockParts | Seq.App.EventSchedule/EventScheduleReactor.cs:274-278 | a time of day splits into hours below 24, minutes and seconds below 60, which recombine to it |
| Parsing.ParseParts | Seq.App.EventSchedule/EventScheduleReactor.cs:274-278 | hours, minutes (and seconds) written as "H:mm(:ss)" parse back to the time they denote |
| Parsing.ParseFormatted | Seq.App.EventSchedule/EventScheduleReactor.cs:274-278 | every time of day written as "H:mm:ss", and every whole minute written as "H:mm", parses back to itself |
| Parsing.ScheduleFormat | Seq.App.EventSchedule/EventScheduleReactor.cs:274-284 | the chosen format parses the schedule time whenever either format does, and "H:mm:ss" wins when it parses |
| Parsing.ClampInterval | Seq.App.EventSchedule/EventScheduleReactor.cs:293-296 | the interval lies in one second to one day; an in-range value is kept, zero or less becomes 1, more than a day becomes 60 |
| Parsing.RetryCountSetting | Seq.App.EventSchedule/EventScheduleReactor.cs:609-611 | the retry count lies in 0 to 100; an in-range setting is kept, any other becomes 10 |
| Parsing.MessageText | Seq.App.EventSchedule/EventScheduleReactor.cs:374-376 | the message is never empty and has no whitespace at its ends: the trimmed setting, or "Scheduled event log" when the setting is blank |
| Parsing.DescriptionText | Seq.App.EventSchedule/EventScheduleReactor.cs:385-387 | the description is the trimmed setting, empty exactly when the setting is blank |
| Emission.FirstMatch | Seq.App.EventSchedule/EventScheduleReactor.cs:827-833 | the position found holds a key equal to the token's ignoring case, and no earlier one does; nothing is found exactly when no key matches |
| Emission.EqualsIgnoreCaseIff | Seq.App.EventSchedule/EventScheduleReactor.cs:829 | two keys are equal ignoring case exactly when upper-casing their ASCII letters makes them equal; a key matches its upper-cased form; the comparison is reflexive and symmetric |
| Emission.ResponderForMeaning | Seq.App.EventSchedule/EventScheduleReactor.cs:823-839 | the responder is the single setting without a lookup; with a lookup, empty without a token, else the value of the first key that equals the token's ignoring case, or empty when none does |
| Emission.FindResponder | Seq.App.EventSchedule/EventScheduleReactor.cs:826-834 | the `foreach ... break` search returns the first match's value, or empty |
| Emission.TemplateForShape | Seq.App.EventSchedule/EventScheduleReactor.cs:820-856 | the template starts with the app-name prefix exactly when the app is included, and names the description exactly when it is included and not empty |
| Refresh.Step | Seq.App.EventSchedule/EventScheduleReactor.cs:680-748 | no attempt and no give-up change nothing; the error count rises only at an attempt, which then records the error time; an attempt always records its time |
| Refresh.RefreshGates | Seq.App.EventSchedule/EventScheduleReactor.cs:682-746 | with holidays on and no refresh in progress a call always attempts; a refresh in progress is not retried within ten seconds of the last attempt or error, nor once the error count reaches the retry count; with holidays on it is given up exactly at ten or more errors; with holidays off nothing is attempted and the list is dropped |
| Refresh.StuckBelowGiveUp | Seq.App.EventSchedule/EventScheduleReactor.cs:682-683 | with a retry count below ten, a refresh that has spent its retries stays in progress, unchanged, whatever calls follow |
| Refresh.FailuresAccumulate | Seq.App.EventSchedule/EventScheduleReactor.cs:682-683 | spaced failures in a refresh in progress raise the error count one by one, up to the retry count (at least one), and it stays in progress |
| Refresh.FailuresReachRetryCount | Seq.App.EventSchedule/EventScheduleReactor.cs:682-683 | from no refresh in progress, spaced failures reach the retry count (at least one attempt is always made) and never leave the in-progress state |
| Refresh.FailedRetryCounts | Seq.App.EventSchedule/EventScheduleReactor.cs:731-737 | for any retry count, a failed attempt of a refresh in progress raises the error count by one, records both instants as now, stays in progress and keeps the list |
| Refresh.GivesUpAtTen | Seq.App.EventSchedule/EventScheduleReactor.cs:740-746 | for any retry count, a refresh in progress with ten or more errors and no retry due is given up: refresh over, errors cleared, the list dropped and the local date marked done |
| Refresh.QuickCallAfterTenthFailureGivesUp | Seq.App.EventSchedule/EventScheduleReactor.cs:682-746 | with a retry count above ten, a call within the retry delay of the tenth failure makes no attempt and gives up, so on the one-second timer a retry count above ten behaves as ten |
| Refresh.GivesUpOnceRetriesSpent | Seq.App.EventSchedule/EventScheduleReactor.cs:740-746 | with a retry count of ten or more, the call after the last allowed failure gives up: refresh over, errors cleared, the list good for the local date |
| Refresh.SuccessEndsRefresh | Seq.App.EventSchedule/EventScheduleReactor.cs:699-729 | a successful fetch ends the refresh with no errors, takes the fetched list and is good for the fetched day |
| EventSchedule.EventScheduleReactor.UtcRollover | Seq.App.EventSchedule/EventScheduleReactor.cs:755-803 | only the window changes; it becomes the `Resolve` window of the schedule time, which does not depend on the previous window; a schedule time that does not parse leaves it as it was |
| EventSchedule.EventScheduleReactor.GetShowtime | Seq.App.EventSchedule/EventScheduleReactor.cs:805-808 | the snapshot is the current window, and it is ordered |
| EventSchedule.EventScheduleReactor.RetrieveHolidays | Seq.App.EventSchedule/EventScheduleReactor.cs:680-748 | the counters move as `Step` says; the list is replaced as `RefreshedHolidays` says; the window is recomputed in refresh mode exactly when `RollsOver` says; the call escapes only when it gives up with holidays on and the schedule time does not parse |
| EventSchedule.EventScheduleReactor.AttemptRefresh | Seq.App.EventSchedule/EventScheduleReactor.cs:682-738 | the attempt branch: the same contract as `RetrieveHolidays` when an attempt is due |
| EventSchedule.EventScheduleReactor.InstallHolidays | Seq.App.EventSchedule/EventScheduleReactor.cs:699-730 | a successful fetch: the list taken, the refresh over, errors cleared unless the rollover throws (then one error at now), the window recomputed outside showtime |
| EventSchedule.EventScheduleReactor.AbandonRefresh | Seq.App.EventSchedule/EventScheduleReactor.cs:740-747 | the give-up branch: list dropped, refresh over, errors cleared, the window recomputed with holidays on outside showtime |
| EventSchedule.EventScheduleReactor.SetHolidays | Seq.App.EventSchedule/EventScheduleReactor.cs:598-673 | holidays on exactly for a valid country with a key; then the retry count is clamped; the refresh counters start one day back, so the first refresh is due |
| EventSchedule.EventScheduleReactor.EntryGate | Seq.App.EventSchedule/EventScheduleReactor.cs:502-504 | a window being served always passes the entry gate; a new one passes it exactly when holidays are off or no refresh is in progress |
| EventSchedule.EventScheduleReactor.DueMeaning | Seq.App.EventSchedule/EventScheduleReactor.cs:534-536 | a window just entered is due at once; a one-shot window being served is never due again; a repeating one is due exactly when strictly more than the interval has passed since the last log |
| EventSchedule.RecordsFor | Seq.App.EventSchedule/EventScheduleReactor.cs:538-554 | one record per token, in order, each the record `ScheduledLogEvent` writes for that token |
| EventSchedule.Firing | Seq.App.EventSchedule/EventScheduleReactor.cs:536-554 | one record per multi-log token in lookup order, each carrying its token, or one record without a token; every record carries the message, description and log count, and the responder of its token |
| EventSchedule.ServeStepMeaning | Seq.App.EventSchedule/EventScheduleReactor.cs:503-575 | a step fires (one more log, the firing appended, LastLog now) exactly when the gate is open, now is in the window, the window is not skipped and records are due; it writes the diagnostic exactly on the first skipped tick of a window; the window is served afterwards exactly when it was entered, or was served behind a closed gate; leaving the window clears every flag |
| EventSchedule.ServeStepKeeps | Seq.App.EventSchedule/EventScheduleReactor.cs:503-575 | with the flags a tick computes, a step keeps `StepKeeps`: LogCount up by at most one and exactly when the firing is appended; a one-shot window that has logged logs no more; a refresh in progress keeps a new window from opening; one diagnostic per run of skips, and no records on a skip |
| EventSchedule.StepAndRolloverKept | Seq.App.EventSchedule/EventScheduleReactor.cs:502-591 | the window step followed by the rollover gate keeps `TickKept` against the view before the refresh; a tick that writes a skip diagnostic leaves the rollover gate open |
| EventSchedule.EventScheduleReactor.ScheduledLogEvent | Seq.App.EventSchedule/EventScheduleReactor.cs:817-857 | appends exactly one record, whose responder and template are `ResponderFor` and `TemplateFor` of the settings, and whose tags are the configured tags when tagging is on |
| EventSchedule.EventScheduleReactor.LogEachToken | Seq.App.EventSchedule/EventScheduleReactor.cs:540-546 | the `foreach` over the multi-log tokens appends the whole firing |
| EventSchedule.EventScheduleReactor.LogScheduled | Seq.App.EventSchedule/EventScheduleReactor.cs:536-554 | a firing appends one record per multi-log token in order, or one record without a token |
| EventSchedule.EventScheduleReactor.ServiceWindow | Seq.App.EventSchedule/EventScheduleReactor.cs:503-575 | the window step is exactly `ServeStep` of the entry gate, the in-window test, the exclusion test and the due test on the state before it, with the settings' firing and diagnostic; it does not move the window |
| EventSchedule.EventScheduleReactor.SkipWindow | Seq.App.EventSchedule/EventScheduleReactor.cs:506-519 | the skip flag is set, and the diagnostic with the four exclusion reasons is appended only when no skip was recorded yet; nothing else changes |
| EventSchedule.EventScheduleReactor.ServeShowtime | Seq.App.EventSchedule/EventScheduleReactor.cs:520-561 | entering sets the showtime flag and, for a window not yet served, LastLog to now; when due the firing is appended, LastLog is now, EventLogged is set and LogCount goes up by one; otherwise nothing is logged |
| EventSchedule.EventScheduleReactor.RolloverIfDue | Seq.App.EventSchedule/EventScheduleReactor.cs:578-591 | when the gate is open and the time parses, the window is rolled over and the new day lists taken; otherwise nothing changes; the served state and the refresh flag are untouched |
| EventSchedule.EventScheduleReactor.RefreshHolidays | Seq.App.EventSchedule/EventScheduleReactor.cs:500 | the window after the refresh is the holiday-mode rollover exactly when `RollsOver` says so and the time parses, and otherwise the window before it; so a refresh never moves a window being served, nor the window while it leaves a refresh in progress; when the rollover inside the refresh throws, the tick stops with no window served, no refresh in progress and a schedule time that does not parse |
| EventSchedule.EventScheduleReactor.ServeAndRollOver | Seq.App.EventSchedule/EventScheduleReactor.cs:502-591 | the window step is exactly `ServeStep`; the step and rollover keep `TickKept` against the view before the tick (count, trace, one-shot, refresh-gate, skip and window facts); a tick that writes a skip diagnostic rolls the window over; at the end of every tick the window and the day-of-month lists are rolled over exactly when no window is being served, no refresh is in progress with holidays on, the window has started, there is no test date and the time parses, and are otherwise left as they were |
| EventSchedule.EventScheduleReactor.RefreshAndServe | Seq.App.EventSchedule/EventScheduleReactor.cs:500-591 | a tick on a day that needs a refresh keeps `TickKept` from the view before the refresh to the view after the rollover, and a tick that writes a skip diagnostic rolls the window over |
| EventSchedule.EventScheduleReactor.Tick | Seq.App.EventSchedule/EventScheduleReactor.cs:492-591 | the window invariant is kept; on a day with no refresh the window step is exactly `ServeStep` of the gate, window, exclusion and due tests; on every day: LogCount moves up by at most one, exactly when a firing is appended; a window being served contains now, stays served while now is in it and is never recomputed; a one-shot window logs once; a refresh in progress holds the window and keeps a new one from opening; a skip logs at most one diagnostic per run of skips, fires nothing, and rolls over in the same tick; on a day with no refresh the end-of-tick rollover of the window and day-of-month lists happens exactly under the gate at :578-579 and the time parsing, and otherwise they are left as they were |
| EventSchedule.EventScheduleReactor.AttachSchedule | Seq.App.EventSchedule/EventScheduleReactor.cs:267-301 | the app-name flag and repeat flag copied; the schedule format chosen as `ScheduleFormat` says; the interval clamped only for a repeating schedule |
| EventSchedule.EventScheduleReactor.AttachLogTokens | Seq.App.EventSchedule/EventScheduleReactor.cs:307-320 | an empty setting leaves the lookup alone; otherwise the lookup is the `AddAll` of its mappings, and a repeated key fails |
| EventSchedule.EventScheduleReactor.AttachHolidays | Seq.App.EventSchedule/EventScheduleReactor.cs:326-329 | holidays enabled as `SetHolidays` decides, with the retry count clamped; starting with no refresh in progress, attaching fails exactly when the time does not parse and the window is computed outside the holiday handler (holidays off or a failed fetch); then `FirstWindow`: without holidays an empty list and the plain rollover of now; after a failed fetch a refresh in progress with one error at now and the plain window; after a successful one the fetched list, the fetch day done, and the holiday-mode window outside showtime |
| EventSchedule.EventScheduleReactor.AttachDays | Seq.App.EventSchedule/EventScheduleReactor.cs:333-365 | the day lists are the helpers' results; the Handlebars flag is taken when set |
| EventSchedule.EventScheduleReactor.AttachText | Seq.App.EventSchedule/EventScheduleReactor.cs:374-396 | the message and description are `MessageText` and `DescriptionText` of the settings; the include-description flag is taken when set |
| EventSchedule.EventScheduleReactor.AttachTags | Seq.App.EventSchedule/EventScheduleReactor.cs:404-408 | the tags are the trimmed non-empty entries; tagging turns on exactly when there is one, and never turns off |
| EventSchedule.EventScheduleReactor.AttachResponders | Seq.App.EventSchedule/EventScheduleReactor.cs:417-441 | a setting with '=' fills the lookup as `AddAll` says (a repeated key fails) and leaves the single responder; any other non-empty setting is the single responder |
| EventSchedule.EventScheduleReactor.AttachSettings | Seq.App.EventSchedule/EventScheduleReactor.cs:267-320 | the schedule settings and the multi-log token lookup, as the two phases state |
| EventSchedule.EventScheduleReactor.AttachOutput | Seq.App.EventSchedule/EventScheduleReactor.cs:333-441 | `OutputAttached`: the day lists, message and description, the Handlebars and include-description flags when set, the tags with tagging turned on when there are any, and the responder lookup or single responder; it fails exactly when the responder lookup has a repeated key, which is then left as it was |
| EventSchedule.EventScheduleReactor.AttachRest | Seq.App.EventSchedule/EventScheduleReactor.cs:326-441 | holidays enabled as `SetHolidays` decides; starting with no refresh in progress, it fails exactly when the first window cannot be computed or a responder key repeats; on success `FirstWindow` and `OutputAttached` hold |
| EventSchedule.EventScheduleReactor.OnAttached | Seq.App.EventSchedule/EventScheduleReactor.cs:257-441 | nothing logged and the window invariant kept; the app-name and repeat flags copied, the schedule format and interval normalised; a repeated token or responder key fails; on success, the token lookup is the mappings of the setting, holidays are enabled as `SetHolidays` decides with the retry count clamped, `FirstWindow` holds (from no refresh in progress) and `OutputAttached` states every output setting |

## Left out

- The date-token language (`DateTokens.HandleTokens`) and Handlebars rendering. These belong to Lurgle.Dates and the template library, which are not part of this model. The records keep the message, description and tags before token substitution, and `Tick` takes the rendered text as a parameter.
- `Dates.GetUtcDaysOfWeek`, `GetMonthsOfYear` and `GetUtcDaysOfMonth` are not modelled; their results are parameters.
- The holiday web service, `Holidays.ValidateHolidays` (match and locale filters, weekend and bank-holiday options) and `Holidays.ValidateCountry` are not modelled: their outcome is a parameter (`FetchOutcome`, `countryValid`). So are the `HolidayMatch`, `LocaleMatch` and proxy settings that only feed them.
- The Serilog output (`LogEvent`, the log level, priority, project key, time estimates, due date) and every diagnostic message except the exclusion notice.
- Time zones: local time is UTC plus a fixed offset, so daylight-saving changes are not modelled.
- Sub-second instants: `TimeSpan.TotalSeconds` is compared on whole seconds.
- `DateTime.ParseExact` of the test date ("yyyy-M-d") is not modelled: the test date is a day number already, so a malformed test date that would throw is not represented.
- Case folding for `OrdinalIgnoreCase` covers ASCII letters only.
- The timer, its thread and the host's scheduling of ticks: `Tick` is one call of `TimerOnElapsed`.
- `EventSchedule.EventScheduleReactor.OnAttached`: its contract does not restate the copy of the test date, which `AttachHolidays` states. `FirstWindow` is promised only when holidays are off or attaching starts with no refresh in progress, which is how the reactor is constructed; `AttachRest` and `AttachHolidays` carry the same condition.
- `EventSchedule.EventScheduleReactor.RefreshHolidays`: states the window it leaves and when the tick stops, but not the rest of the refresh bookkeeping. `RetrieveHolidays` states that exactly, and `Tick` does not restate it.
- `EventSchedule.EventScheduleReactor.RefreshAndServe`: does not state the end-of-tick rollover (:578-591) on the window the refresh leaves. It states `TickKept` and the rollover on skip ticks. `RefreshHolidays` states the window after the refresh, and `ServeAndRollOver` states the rollover from there, but their composition is not restated. Its proof costs more than the verifier's resource limit allows.
- `EventSchedule.EventScheduleReactor.Tick`: does not restate the holiday refresh bookkeeping, which `RetrieveHolidays` states. On a day with a refresh, the window step is stated through `TickKept` rather than as the `ServeStep` equation, because the refresh may move the window first. For the same reason, the end-of-tick rollover is stated only on days with no refresh, as for `RefreshAndServe`.
- `EventSchedule.EventScheduleReactor.RetrieveHolidays`: one `localNow` stands for every `DateTime.Now` read of a call (the retry test at :682-683, `LastUpdate` at :701, `LastError` at :737). The clock does not move between them.
- `Parsing.ParseTimeOfDay`: covers the two formats the reactor uses, with the invariant culture and no styles. Its own contract gives only the range; `ParseFormatted` and `FormatsExclusive` state what it accepts.
- Structure:
  - `OnAttached` runs as a sequence of phase methods.
  - The free-text settings are parsed once, into the constant `Parsed`.
  - `Tick` tests the refresh guard of :500 itself, then runs `RefreshAndServe` (`RefreshHolidays`, then `ServeAndRollOver` unless the refresh threw) or `ServeAndRollOver`.
  - `ServeAndRollOver` runs as `ServiceWindow` then `RolloverIfDue`, and `ServiceWindow` as `SkipWindow` or `ServeShowtime`.
  - `RetrieveHolidays` runs as its two branches, and a successful fetch as `InstallHolidays`.

  Each of these is the source's own sequence of statements.
