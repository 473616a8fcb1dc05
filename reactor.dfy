/*
  The reactor: its settings object, its counters, and the operations that
  move them — attaching, refreshing holidays, rolling the window over, and
  the one-second tick that opens, serves and closes a window.

  Instants are UTC seconds; the host's local time is UTC plus `UtcOffset`.
  Days are day numbers. What the clock, the holiday service, the date
  helpers and the template renderer return is passed in as parameters.
  Each log record written is appended to the ghost trace `Emitted`, and
  each exclusion diagnostic to `Notices`.
*/
module EventSchedule {
  import opened Wrappers
  import opened Calendar
  import opened Window
  import opened Parsing
  import opened Emission
  import opened Refresh

  /** The app's settings as the host binds them; a setting left null is "". */
  datatype AppSettings = AppSettings(
    ScheduleTime: string,
    RepeatSchedule: bool,
    ScheduleInterval: int,
    MultiLogToken: string,
    Responders: string,
    Tags: string,
    AlertMessage: string,
    AlertDescription: string,
    IncludeDescription: Option<bool>,
    UseHandlebars: Option<bool>,
    IncludeApp: bool,
    UseHolidays: bool,
    RetryCount: int,
    Country: string,
    ApiKey: string,
    TestDate: Option<int>)

  /** One scheduled record, before its date tokens are rendered. */
  datatype Record = Record(
    Message: string,
    Description: string,
    Token: Option<Pair>,
    Responder: string,
    Template: string,
    Tags: seq<string>,
    LogCount: int)

  /** The diagnostic logged when a window is skipped, with its four reasons. */
  datatype ExclusionNotice = ExclusionNotice(
    DayOfWeekExcluded: bool,
    DayOfMonthNotIncluded: bool,
    DayOfMonthExcluded: bool,
    MonthExcluded: bool)

  /**
    The free-text settings as `OnAttached` reads them: the trimmed message
    (or the default), the trimmed description, and the trimmed non-empty
    comma-separated entries of the tags, multi-log tokens and responders.
  */
  datatype ParsedSettings = ParsedSettings(
    Message: string,
    Description: string,
    Tags: seq<string>,
    LogTokens: seq<string>,
    ResponderEntries: seq<string>)

  function Parse(setup: AppSettings): ParsedSettings
  {
    ParsedSettings(MessageText(setup.AlertMessage), DescriptionText(setup.AlertDescription),
                   Entries(setup.Tags), Entries(setup.MultiLogToken), Entries(setup.Responders))
  }

  /** The settings the records of a firing depend on. */
  datatype OutputSettings = OutputSettings(
    LogTokenLookup: seq<Pair>,
    ResponderLookup: seq<Pair>,
    Responders: string,
    IncludeApp: bool,
    IncludeDescription: bool,
    IsTags: bool,
    Tags: seq<string>)

  /** The record `ScheduledLogEvent` writes for one token. */
  function RecordFor(o: OutputSettings, message: string, description: string, token: Option<Pair>, logCount: int): Record
  {
    Record(message, description, token,
           ResponderFor(o.ResponderLookup, token, o.Responders),
           TemplateFor(o.IncludeApp, o.IncludeDescription, description),
           if o.IsTags then o.Tags else [],
           logCount)
  }

  /** The records of one firing, one per token in order. */
  function RecordsFor(o: OutputSettings, message: string, description: string, tokens: seq<Option<Pair>>, logCount: int)
    : (rs: seq<Record>)
    ensures |rs| == |tokens|
    ensures forall i :: 0 <= i < |tokens| ==> rs[i] == RecordFor(o, message, description, tokens[i], logCount)
  {
    if tokens == [] then []
    else [RecordFor(o, message, description, tokens[0], logCount)] + RecordsFor(o, message, description, tokens[1..], logCount)
  }

  /** The records one firing writes: one per multi-log token, or one without a token. */
  function Firing(o: OutputSettings, message: string, description: string, logCount: int): (r: seq<Record>)
    ensures |r| == if |o.LogTokenLookup| > 0 then |o.LogTokenLookup| else 1
    ensures forall i :: 0 <= i < |r| ==>
              r[i].Token == (if |o.LogTokenLookup| > 0 then Some(o.LogTokenLookup[i]) else None)
    ensures forall i :: 0 <= i < |r| ==>
              r[i].Message == message && r[i].Description == description && r[i].LogCount == logCount
              && r[i].Responder == ResponderFor(o.ResponderLookup, r[i].Token, o.Responders)
  {
    RecordsFor(o, message, description, FanOutTokens(o.LogTokenLookup), logCount)
  }

  /** What one window step of a tick changes: the serving flags, the last log, the count and the two traces. */
  datatype ServeState = ServeState(
    IsShowtime: bool,
    SkippedShowtime: bool,
    EventLogged: bool,
    LastLog: int,
    LogCount: int,
    Emitted: seq<Record>,
    Notices: seq<ExclusionNotice>)

  /**
    One window step on values: `mayEnter` is the entry gate, `inWindow`
    whether now lies in the window, `skips` whether a window not being
    served is excluded, `due` whether records are due, `firing` the
    records a firing writes and `notice` the skip diagnostic.
  */
  function ServeStep(st: ServeState, mayEnter: bool, inWindow: bool, skips: bool, due: bool, timeNow: int,
                     firing: seq<Record>, notice: ExclusionNotice): ServeState
  {
    if mayEnter && inWindow then
      if skips then
        st.(SkippedShowtime := true, Notices := if st.SkippedShowtime then st.Notices else st.Notices + [notice])
      else if due then
        st.(IsShowtime := true, EventLogged := true, LastLog := timeNow, LogCount := st.LogCount + 1,
            Emitted := st.Emitted + firing)
      else
        st.(IsShowtime := true, LastLog := if st.IsShowtime then st.LastLog else timeNow)
    else if !inWindow then
      st.(IsShowtime := false, SkippedShowtime := false, EventLogged := false, LastLog := timeNow)
    else
      st
  }

  /**
    What a window step means: it fires (one more log, the firing appended)
    exactly when the gate is open, now is in the window, the window is not
    skipped and records are due; it writes a diagnostic exactly on the
    first skipped tick of a window; the window is being served afterwards
    exactly when it was entered, or was being served behind a closed gate;
    leaving the window clears every flag.
  */
  lemma ServeStepMeaning(st: ServeState, mayEnter: bool, inWindow: bool, skips: bool, due: bool, timeNow: int,
                         firing: seq<Record>, notice: ExclusionNotice)
    requires skips ==> !st.IsShowtime
    ensures var r := ServeStep(st, mayEnter, inWindow, skips, due, timeNow, firing, notice);
            var fires := mayEnter && inWindow && !skips && due;
            (fires ==> r.LogCount == st.LogCount + 1 && r.Emitted == st.Emitted + firing && r.LastLog == timeNow)
            && (!fires ==> r.LogCount == st.LogCount && r.Emitted == st.Emitted)
    ensures var r := ServeStep(st, mayEnter, inWindow, skips, due, timeNow, firing, notice);
            (mayEnter && inWindow && skips && !st.SkippedShowtime ==> r.Notices == st.Notices + [notice])
            && (!(mayEnter && inWindow && skips && !st.SkippedShowtime) ==> r.Notices == st.Notices)
    ensures var r := ServeStep(st, mayEnter, inWindow, skips, due, timeNow, firing, notice);
            r.IsShowtime <==> inWindow && ((mayEnter && !skips) || (!mayEnter && st.IsShowtime))
    ensures var r := ServeStep(st, mayEnter, inWindow, skips, due, timeNow, firing, notice);
            !inWindow ==> !r.IsShowtime && !r.SkippedShowtime && !r.EventLogged && r.LastLog == timeNow
  {
  }

  /**
    What every window step keeps, on values, given whether the schedule
    repeats and whether a holiday refresh is in progress: the log count
    only ever moves up by one, and exactly when `firing` is appended to the
    trace; a one-shot window that has logged logs no more; a refresh in
    progress keeps a new window from opening; a skipped window writes one
    diagnostic per skip run and no records.
  */
  predicate StepKeeps(st: ServeState, r: ServeState, repeat: bool, refreshing: bool, firing: seq<Record>, timeNow: int)
  {
    (r.LogCount == st.LogCount || r.LogCount == st.LogCount + 1)
    && (r.LogCount == st.LogCount ==> r.Emitted == st.Emitted)
    && (r.LogCount == st.LogCount + 1 ==> r.IsShowtime && r.LastLog == timeNow && r.Emitted == st.Emitted + firing)
    && (!repeat && st.EventLogged ==> r.LogCount == st.LogCount)
    && (refreshing && !st.IsShowtime ==> !r.IsShowtime && r.LogCount == st.LogCount)
    && |r.Notices| <= |st.Notices| + 1
    && (st.SkippedShowtime ==> r.Notices == st.Notices)
    && (|r.Notices| > |st.Notices| ==> !r.IsShowtime && r.LogCount == st.LogCount)
  }

  /**
    `ServeStep` keeps `StepKeeps` whenever its flags are those a tick
    computes: only a window not being served is skipped, a logged window
    is due again only when the schedule repeats, and the entry gate is
    closed to a new window while a refresh is in progress.
  */
  lemma ServeStepKeeps(st: ServeState, mayEnter: bool, inWindow: bool, skips: bool, due: bool, timeNow: int,
                       firing: seq<Record>, notice: ExclusionNotice, repeat: bool, refreshing: bool)
    requires skips ==> !st.IsShowtime
    requires due && st.EventLogged ==> repeat
    requires refreshing && !st.IsShowtime ==> !mayEnter
    ensures StepKeeps(st, ServeStep(st, mayEnter, inWindow, skips, due, timeNow, firing, notice), repeat, refreshing,
                      firing, timeNow)
  {
    ServeStepMeaning(st, mayEnter, inWindow, skips, due, timeNow, firing, notice);
  }

  /** A tick's view of the reactor: what the window step changes, the window, and whether a refresh is in progress. */
  datatype TickView = TickView(Serve: ServeState, Window: Showtime, IsUpdating: bool)

  /**
    What every tick keeps, on values, from the view before it to the view
    after: the window step's facts (`StepKeeps`); a window being served
    contains now, stays served while now is in it and is never recomputed;
    a holiday refresh in progress holds the window.
  */
  predicate TickKept(v: TickView, w: TickView, repeat: bool, useHolidays: bool, firing: seq<Record>, timeNow: int)
  {
    StepKeeps(v.Serve, w.Serve, repeat, useHolidays && w.IsUpdating, firing, timeNow)
    && (w.Serve.IsShowtime ==> w.Window.Start <= timeNow < w.Window.End)
    && (v.Serve.IsShowtime && v.Window.Start <= timeNow < v.Window.End ==> w.Serve.IsShowtime)
    && (v.Serve.IsShowtime && w.Serve.IsShowtime ==> w.Window == v.Window)
    && (useHolidays && w.IsUpdating ==> w.Window == v.Window)
  }

  /**
    A window step followed by the rollover gate keeps `TickKept` against
    `before`, the view before any refresh: the flags are those a tick
    computes on window `w0` (the gate is open to a window being served,
    or to a new one unless a refresh is in progress), and the rollover
    moves the window only when, after the step, no window is being served
    and no refresh is in progress. A tick that writes a skip diagnostic
    leaves the rollover gate open.
  */
  lemma StepAndRolloverKept(before: TickView, after: TickView, st: ServeState, mayEnter: bool, inWindow: bool,
                            skips: bool, due: bool, timeNow: int, firing: seq<Record>, notice: ExclusionNotice,
                            repeat: bool, useHolidays: bool, w0: Showtime, rolled: bool)
    requires before.Serve == st
    requires st.IsShowtime ==> before.Window == w0
    requires useHolidays && after.IsUpdating ==> before.Window == w0
    requires mayEnter == (!useHolidays || st.IsShowtime || !after.IsUpdating)
    requires inWindow == (w0.Start <= timeNow < w0.End)
    requires skips ==> !st.IsShowtime
    requires due && st.EventLogged ==> repeat
    requires after.Serve == ServeStep(st, mayEnter, inWindow, skips, due, timeNow, firing, notice)
    requires rolled ==> !after.Serve.IsShowtime && !(useHolidays && after.IsUpdating)
    requires !rolled ==> after.Window == w0
    ensures TickKept(before, after, repeat, useHolidays, firing, timeNow)
    ensures |after.Serve.Notices| > |st.Notices| ==>
              !after.Serve.IsShowtime && !(useHolidays && after.IsUpdating) && w0.Start <= timeNow
  {
    ServeStepKeeps(st, mayEnter, inWindow, skips, due, timeNow, firing, notice, repeat, useHolidays && after.IsUpdating);
    ServeStepMeaning(st, mayEnter, inWindow, skips, due, timeNow, firing, notice);
  }

  /** The settings as the reactor normalises them. */
  class ScheduleConfig {
    var StartFormat: ClockFormat
    var RepeatSchedule: bool
    var ScheduleInterval: int
    var UseHolidays: bool
    var TestDate: Option<int>
    var UseTestOverrideTime: bool
    var TestOverrideTime: int
    var DaysOfWeek: seq<int>
    var MonthsOfYear: seq<int>
    var IncludeDays: seq<int>
    var ExcludeDays: seq<int>
    var Holidays: seq<Holiday>
    var LogTokenLookup: seq<Pair>
    var ResponderLookup: seq<Pair>
    var Responders: string
    var Tags: seq<string>
    var IsTags: bool
    var IncludeApp: bool
    var IncludeDescription: bool
    var UseHandlebars: bool

    /**
      The field initialisers; the test override time starts as the local
      time of construction. The day-of-month lists and the single responder
      have no initialiser in C# and start null; here they start empty.
    */
    constructor (localNow: int)
      ensures StartFormat == HourMinuteSecond && !RepeatSchedule && ScheduleInterval == 0
      ensures !UseHolidays && TestDate.None? && !UseTestOverrideTime && TestOverrideTime == localNow
      ensures DaysOfWeek == [] && MonthsOfYear == [] && IncludeDays == [] && ExcludeDays == [] && Holidays == []
      ensures LogTokenLookup == [] && ResponderLookup == [] && Responders == "" && Tags == [] && !IsTags
      ensures !IncludeApp && !IncludeDescription && !UseHandlebars
    {
      StartFormat := HourMinuteSecond;
      RepeatSchedule := false;
      ScheduleInterval := 0;
      UseHolidays := false;
      TestDate := None;
      UseTestOverrideTime := false;
      TestOverrideTime := localNow;
      DaysOfWeek := [];
      MonthsOfYear := [];
      IncludeDays := [];
      ExcludeDays := [];
      Holidays := [];
      LogTokenLookup := [];
      ResponderLookup := [];
      Responders := "";
      Tags := [];
      IsTags := false;
      IncludeApp := false;
      IncludeDescription := false;
      UseHandlebars := false;
    }
  }

  /** The counters the tick keeps; instants start at `DateTime.MinValue`. */
  class ScheduleCounters {
    var StartTime: int
    var EndTime: int
    var IsShowtime: bool
    var SkippedShowtime: bool
    var EventLogged: bool
    var LastLog: int
    var LastDay: int
    var LastUpdate: int
    var LastError: int
    var LogCount: int
    var ErrorCount: int
    var RetryCount: int
    var IsUpdating: bool

    constructor ()
      ensures StartTime == MinValue && EndTime == MinValue && LastLog == MinValue
      ensures LastDay == DayOf(MinValue) && LastUpdate == MinValue && LastError == MinValue
      ensures !IsShowtime && !SkippedShowtime && !EventLogged && !IsUpdating
      ensures LogCount == 0 && ErrorCount == 0 && RetryCount == 0
    {
      StartTime := MinValue;
      EndTime := MinValue;
      IsShowtime := false;
      SkippedShowtime := false;
      EventLogged := false;
      LastLog := MinValue;
      LastDay := DayOf(MinValue);
      LastUpdate := MinValue;
      LastError := MinValue;
      LogCount := 0;
      ErrorCount := 0;
      RetryCount := 0;
      IsUpdating := false;
    }
  }

  class EventScheduleReactor {
    const Setup: AppSettings
    /** The free-text settings parsed, a function of `Setup` alone. */
    const Parsed: ParsedSettings
    const UtcOffset: int
    const Config: ScheduleConfig
    const Counters: ScheduleCounters
    var Message: string
    var Description: string
    ghost var Emitted: seq<Record>
    ghost var Notices: seq<ExclusionNotice>

    /**
      What holds between ticks: a window being served has logged (and one
      not being served has not), the window is ordered, the counts are not
      negative, the retry count lies in 0 to 100 and a repeat interval lies in
      one second to one day.
    */
    ghost predicate Valid()
      reads Counters`EventLogged, Counters`IsShowtime, Counters`StartTime, Counters`EndTime, Counters`ErrorCount,
            Counters`LogCount, Counters`RetryCount, Config`RepeatSchedule, Config`ScheduleInterval
    {
      Counters.EventLogged == Counters.IsShowtime
      && Counters.StartTime <= Counters.EndTime
      && Counters.ErrorCount >= 0
      && Counters.LogCount >= 0
      && 0 <= Counters.RetryCount <= 100
      && (Config.RepeatSchedule ==> 1 <= Config.ScheduleInterval <= SecondsPerDay)
    }

    constructor (setup: AppSettings, utcOffset: int, localNow: int)
      ensures Valid()
      ensures Setup == setup && Parsed == Parse(setup) && UtcOffset == utcOffset
      ensures fresh(Config) && fresh(Counters)
      ensures Config.LogTokenLookup == [] && Config.ResponderLookup == [] && !Config.UseHolidays
      ensures !Config.RepeatSchedule && Config.ScheduleInterval == 0 && !Config.IsTags && Config.Responders == ""
      ensures !Config.UseHandlebars && !Config.IncludeDescription
      ensures Counters.LogCount == 0 && !Counters.IsShowtime
      ensures Message == "" && Description == "" && Emitted == [] && Notices == []
    {
      Setup := setup;
      Parsed := Parse(setup);
      UtcOffset := utcOffset;
      Config := new ScheduleConfig(localNow);
      Counters := new ScheduleCounters();
      Message := "";
      Description := "";
      Emitted := [];
      Notices := [];
    }

    // -------------------------------------------------------------------
    // The window

    function Window(): Showtime
      reads Counters`StartTime, Counters`EndTime
    {
      Showtime(Counters.StartTime, Counters.EndTime)
    }

    predicate InWindow(t: int)
      reads Counters`StartTime, Counters`EndTime
    {
      Counters.StartTime <= t < Counters.EndTime
    }

    /** The schedule time parsed in the chosen format: seconds after local midnight. */
    function Anchor(): Option<int>
      reads Config`StartFormat
    {
      ParseTimeOfDay(Setup.ScheduleTime, Config.StartFormat)
    }

    /** The window `UtcRollover` computes when the schedule time parses. */
    function RolloverWindow(utcDate: int, isUpdateHolidays: bool, today: int): Showtime
      requires Anchor().Some?
      reads Config`StartFormat, Config`TestDate, Config`UseTestOverrideTime, Config`TestOverrideTime,
            Config`RepeatSchedule, Config`Holidays
    {
      Resolve(CandidateStart(Anchor().value, SourceDay(Config.TestDate, Config.UseTestOverrideTime, Config.TestOverrideTime, today), UtcOffset),
              Config.RepeatSchedule, Config.Holidays,
              Reference(Config.UseTestOverrideTime, Config.TestOverrideTime, UtcOffset, utcDate),
              isUpdateHolidays)
    }

    /**
      `UtcRollover`: the window is recomputed from the schedule time alone,
      and nothing but the window changes. A schedule time that does not
      parse throws; the model reports `parsed == false` and leaves the
      window as it was.
    */
    method UtcRollover(utcDate: int, isUpdateHolidays: bool, today: int) returns (parsed: bool)
      requires Valid()
      modifies Counters`StartTime, Counters`EndTime
      ensures Valid()
      ensures parsed <==> Anchor().Some?
      ensures parsed ==> Window() == RolloverWindow(utcDate, isUpdateHolidays, today)
      ensures !parsed ==> Window() == old(Window())
    {
      var anchor := ParseTimeOfDay(Setup.ScheduleTime, Config.StartFormat);
      if anchor.None? {
        return false;
      }
      var day := SourceDay(Config.TestDate, Config.UseTestOverrideTime, Config.TestOverrideTime, today);
      var reference := Reference(Config.UseTestOverrideTime, Config.TestOverrideTime, UtcOffset, utcDate);
      var start, end := RolloverSteps(CandidateStart(anchor.value, day, UtcOffset), Config.RepeatSchedule,
                                      Config.Holidays, reference, isUpdateHolidays);
      Counters.StartTime := start;
      Counters.EndTime := end;
      parsed := true;
    }

    /** `GetShowtime`: the current window, which is ordered. */
    method GetShowtime() returns (s: Showtime)
      requires Valid()
      ensures s.Start == Counters.StartTime && s.End == Counters.EndTime
      ensures s.Start <= s.End
    {
      s := Showtime(Counters.StartTime, Counters.EndTime);
    }

    // -------------------------------------------------------------------
    // Holidays

    function RefreshState(): Bookkeeping
      reads Counters`IsUpdating, Counters`ErrorCount, Counters`LastUpdate, Counters`LastError, Counters`LastDay
    {
      Bookkeeping(Counters.IsUpdating, Counters.ErrorCount, Counters.LastUpdate, Counters.LastError, Counters.LastDay)
    }

    /** The day a refresh fetches for: the test date when one is set. */
    function FetchDay(localDate: int): int
      reads Config`TestDate
    {
      if Config.TestDate.Some? then Config.TestDate.value else localDate
    }

    /**
      `RetrieveHolidays`: the refresh counters move as `Step` says, the
      holiday list is replaced as `RefreshedHolidays` says, and the window
      is recomputed (as a holiday update, so never pushed a day forward)
      exactly when `RollsOver` says. A schedule time that does not parse
      counts as a failed refresh after a successful fetch; after giving up
      it escapes, reported as `completed == false`.
    */
    method RetrieveHolidays(localDate: int, utcDate: int, localNow: int, today: int, fetch: FetchOutcome)
      returns (completed: bool)
      requires Valid()
      modifies Config`Holidays, Counters`IsUpdating, Counters`ErrorCount, Counters`LastUpdate, Counters`LastError,
               Counters`LastDay, Counters`StartTime, Counters`EndTime
      ensures Valid()
      ensures RefreshState() == Step(old(RefreshState()), Config.UseHolidays, Counters.RetryCount, localDate,
                                     FetchDay(localDate), localNow, fetch, !Counters.IsShowtime && Anchor().None?)
      ensures Config.Holidays == RefreshedHolidays(old(RefreshState()), Config.UseHolidays, Counters.RetryCount,
                                                   localNow, fetch, old(Config.Holidays))
      ensures var rolls := old(RollsOver(RefreshState(), Config.UseHolidays, Counters.RetryCount, localNow, fetch,
                                         Counters.IsShowtime));
              rolls && Anchor().Some? ==> Window() == RolloverWindow(utcDate, true, today)
      ensures var rolls := old(RollsOver(RefreshState(), Config.UseHolidays, Counters.RetryCount, localNow, fetch,
                                         Counters.IsShowtime));
              !rolls || Anchor().None? ==> Window() == old(Window())
      ensures !completed <==> old(!Attempts(RefreshState(), Config.UseHolidays, Counters.RetryCount, localNow)
                                  && GivesUp(RefreshState(), Config.UseHolidays))
                              && Config.UseHolidays && !Counters.IsShowtime && Anchor().None?
    {
      completed := true;
      if Attempts(RefreshState(), Config.UseHolidays, Counters.RetryCount, localNow) {
        AttemptRefresh(localDate, utcDate, localNow, today, fetch);
      } else if GivesUp(RefreshState(), Config.UseHolidays) {
        completed := AbandonRefresh(localDate, utcDate, localNow, today, fetch);
      }
    }

    /** The attempt branch of `RetrieveHolidays`: fetch, then recompute the window on success outside showtime. */
    method AttemptRefresh(localDate: int, utcDate: int, localNow: int, today: int, fetch: FetchOutcome)
      requires Valid() && Attempts(RefreshState(), Config.UseHolidays, Counters.RetryCount, localNow)
      modifies Config`Holidays, Counters`IsUpdating, Counters`ErrorCount, Counters`LastUpdate, Counters`LastError,
               Counters`LastDay, Counters`StartTime, Counters`EndTime
      ensures Valid()
      ensures RefreshState() == Step(old(RefreshState()), Config.UseHolidays, Counters.RetryCount, localDate,
                                     FetchDay(localDate), localNow, fetch, !Counters.IsShowtime && Anchor().None?)
      ensures Config.Holidays == RefreshedHolidays(old(RefreshState()), Config.UseHolidays, Counters.RetryCount,
                                                   localNow, fetch, old(Config.Holidays))
      ensures var rolls := old(RollsOver(RefreshState(), Config.UseHolidays, Counters.RetryCount, localNow, fetch,
                                         Counters.IsShowtime));
              rolls && Anchor().Some? ==> Window() == RolloverWindow(utcDate, true, today)
      ensures var rolls := old(RollsOver(RefreshState(), Config.UseHolidays, Counters.RetryCount, localNow, fetch,
                                         Counters.IsShowtime));
              !rolls || Anchor().None? ==> Window() == old(Window())
    {
      match fetch {
        case FetchFailed =>
          Counters.IsUpdating := true;
          Counters.LastUpdate := localNow;
          Counters.ErrorCount := Counters.ErrorCount + 1;
          Counters.LastError := localNow;
        case Fetched(hs) =>
          InstallHolidays(localDate, utcDate, localNow, today, hs);
      }
    }

    /** A successful fetch: take the list, clear the errors, and recompute the window outside showtime. */
    method InstallHolidays(localDate: int, utcDate: int, localNow: int, today: int, holidays: seq<Holiday>)
      requires Valid()
      modifies Config`Holidays, Counters`IsUpdating, Counters`ErrorCount, Counters`LastUpdate, Counters`LastError,
               Counters`LastDay, Counters`StartTime, Counters`EndTime
      ensures Valid()
      ensures var failed := !Counters.IsShowtime && Anchor().None?;
              RefreshState() == old(RefreshState()).(IsUpdating := false, ErrorCount := if failed then 1 else 0,
                                                     LastUpdate := localNow,
                                                     LastError := if failed then localNow else old(Counters.LastError),
                                                     LastDay := FetchDay(localDate))
      ensures Config.Holidays == holidays
      ensures !Counters.IsShowtime && Anchor().Some? ==> Window() == RolloverWindow(utcDate, true, today)
      ensures Counters.IsShowtime || Anchor().None? ==> Window() == old(Window())
    {
      Counters.IsUpdating := true;
      var day := FetchDay(localDate);
      Counters.LastUpdate := localNow;
      Config.Holidays := holidays;
      Counters.LastDay := day;
      Counters.ErrorCount := 0;
      Counters.IsUpdating := false;
      if !Counters.IsShowtime {
        var parsed := UtcRollover(utcDate, true, today);
        if !parsed {
          Counters.ErrorCount := Counters.ErrorCount + 1;
          Counters.LastError := localNow;
        }
      }
    }

    /** The give-up branch of `RetrieveHolidays`: drop the list and, with holidays on, recompute the window. */
    method AbandonRefresh(localDate: int, utcDate: int, localNow: int, today: int, fetch: FetchOutcome)
      returns (completed: bool)
      requires Valid()
      requires !Attempts(RefreshState(), Config.UseHolidays, Counters.RetryCount, localNow)
      requires GivesUp(RefreshState(), Config.UseHolidays)
      modifies Config`Holidays, Counters`IsUpdating, Counters`ErrorCount, Counters`LastUpdate, Counters`LastError,
               Counters`LastDay, Counters`StartTime, Counters`EndTime
      ensures Valid()
      ensures RefreshState() == Step(old(RefreshState()), Config.UseHolidays, Counters.RetryCount, localDate,
                                     FetchDay(localDate), localNow, fetch, !Counters.IsShowtime && Anchor().None?)
      ensures Config.Holidays == RefreshedHolidays(old(RefreshState()), Config.UseHolidays, Counters.RetryCount,
                                                   localNow, fetch, old(Config.Holidays))
      ensures var rolls := old(RollsOver(RefreshState(), Config.UseHolidays, Counters.RetryCount, localNow, fetch,
                                         Counters.IsShowtime));
              rolls && Anchor().Some? ==> Window() == RolloverWindow(utcDate, true, today)
      ensures var rolls := old(RollsOver(RefreshState(), Config.UseHolidays, Counters.RetryCount, localNow, fetch,
                                         Counters.IsShowtime));
              !rolls || Anchor().None? ==> Window() == old(Window())
      ensures !completed <==> Config.UseHolidays && !Counters.IsShowtime && Anchor().None?
    {
      Counters.IsUpdating := false;
      Counters.LastDay := localDate;
      Counters.ErrorCount := 0;
      Config.Holidays := [];
      completed := true;
      if Config.UseHolidays && !Counters.IsShowtime {
        completed := UtcRollover(utcDate, true, today);
      }
    }

    /** Whether `SetHolidays` leaves holidays on: asked for, with a country and a key, and the country valid. */
    function HolidaysEnabled(countryValid: bool): bool
      reads Config`UseHolidays
    {
      if Setup.UseHolidays then Setup.Country != "" && Setup.ApiKey != "" && countryValid else Config.UseHolidays
    }

    /**
      `SetHolidays`: holidays are switched on only for a valid country with
      a key, the retry count is taken from the setting when they are, and the refresh
      counters start one day back so that the first tick refreshes.
    */
    method SetHolidays(today: int, localNow: int, countryValid: bool)
      requires Valid()
      modifies Config`UseHolidays, Config`TestDate, Config`Holidays, Counters`RetryCount, Counters`LastDay,
               Counters`LastError, Counters`LastUpdate, Counters`ErrorCount
      ensures Valid()
      ensures Config.UseHolidays == old(HolidaysEnabled(countryValid))
      ensures Counters.RetryCount == if Config.UseHolidays && Setup.UseHolidays then RetryCountSetting(Setup.RetryCount)
                                     else old(Counters.RetryCount)
      ensures Counters.LastDay == today - 1 && Counters.LastDay < today
      ensures Counters.LastError == AddDays(localNow, -1) && Counters.LastUpdate == AddDays(localNow, -1)
      ensures Counters.ErrorCount == 0 && Config.TestDate == Setup.TestDate && Config.Holidays == []
    {
      if Setup.UseHolidays {
        if Setup.Country != "" && Setup.ApiKey != "" {
          if countryValid {
            Config.UseHolidays := true;
            Counters.RetryCount := 10;
            if 0 <= Setup.RetryCount <= 100 {
              Counters.RetryCount := Setup.RetryCount;
            }
          } else {
            Config.UseHolidays := false;
          }
        } else {
          Config.UseHolidays := false;
        }
      }
      Counters.LastDay := today - 1;
      Counters.LastError := AddDays(localNow, -1);
      Counters.LastUpdate := AddDays(localNow, -1);
      Counters.ErrorCount := 0;
      Config.TestDate := Setup.TestDate;
      Config.Holidays := [];
    }

    // -------------------------------------------------------------------
    // Serving a window

    /** The reactor's state that a window step changes. */
    ghost function Served(): ServeState
      reads this`Emitted, this`Notices, Counters`IsShowtime, Counters`SkippedShowtime, Counters`EventLogged,
            Counters`LastLog, Counters`LogCount
    {
      ServeState(Counters.IsShowtime, Counters.SkippedShowtime, Counters.EventLogged, Counters.LastLog,
                 Counters.LogCount, Emitted, Notices)
    }

    /** The reactor's state that a tick's guarantees are about. */
    ghost function View(): TickView
      reads this`Emitted, this`Notices, Counters`IsShowtime, Counters`SkippedShowtime, Counters`EventLogged,
            Counters`LastLog, Counters`LogCount, Counters`StartTime, Counters`EndTime, Counters`IsUpdating
    {
      TickView(Served(), Window(), Counters.IsUpdating)
    }

    /** The entry gate: while holidays are being refreshed no new window is entered, but one being served continues. */
    predicate MayEnter()
      reads Config`UseHolidays, Counters`IsShowtime, Counters`IsUpdating
    {
      !Config.UseHolidays || Counters.IsShowtime || (!Counters.IsShowtime && !Counters.IsUpdating)
    }

    /** A window not yet being served is skipped when its start is excluded. */
    predicate Skips(localDate: int)
      reads Counters`IsShowtime, Counters`StartTime, Config`DaysOfWeek, Config`IncludeDays, Config`ExcludeDays,
            Config`MonthsOfYear
    {
      !Counters.IsShowtime
      && Excluded(Counters.StartTime, localDate, Config.DaysOfWeek, Config.IncludeDays, Config.ExcludeDays, Config.MonthsOfYear)
    }

    /** The four reasons the skip diagnostic reports. */
    function NoticeFor(localDate: int): ExclusionNotice
      reads Counters`StartTime, Config`DaysOfWeek, Config`IncludeDays, Config`ExcludeDays, Config`MonthsOfYear
    {
      ExclusionNotice(DayOfWeek(Counters.StartTime) !in Config.DaysOfWeek,
                      |Config.IncludeDays| > 0 && Counters.StartTime !in Config.IncludeDays,
                      |Config.ExcludeDays| > 0 && Counters.StartTime in Config.ExcludeDays,
                      MonthOf(localDate) !in Config.MonthsOfYear)
    }

    /**
      Inside a window that is entered or served, records are due when none
      has been logged in it yet, or the schedule repeats and strictly more
      than the interval has passed since the last log (a window just
      entered measures from now).
    */
    predicate Due(timeNow: int)
      reads Counters`IsShowtime, Counters`LastLog, Counters`EventLogged, Config`RepeatSchedule, Config`ScheduleInterval
    {
      var last := if Counters.IsShowtime then Counters.LastLog else timeNow;
      !Counters.EventLogged || (Config.RepeatSchedule && timeNow - last > Config.ScheduleInterval)
    }

    /**
      A window being served always passes the entry gate; a new one passes
      it exactly when holidays are off or no holiday refresh is in progress.
    */
    lemma EntryGate()
      ensures Counters.IsShowtime ==> MayEnter()
      ensures !Counters.IsShowtime ==> (MayEnter() <==> !Config.UseHolidays || !Counters.IsUpdating)
    {
    }

    /**
      A window just entered fires at once; a one-shot window that has
      fired never fires again; a repeating one fires again exactly once
      strictly more than the interval has passed since the last log.
    */
    lemma DueMeaning(timeNow: int)
      requires Valid()
      ensures !Counters.IsShowtime ==> Due(timeNow)
      ensures Counters.IsShowtime && !Config.RepeatSchedule ==> !Due(timeNow)
      ensures Counters.IsShowtime && Config.RepeatSchedule ==>
                (Due(timeNow) <==> timeNow - Counters.LastLog > Config.ScheduleInterval)
    {
    }

    /** The settings the records of a firing depend on. */
    function Output(): OutputSettings
      reads Config`LogTokenLookup, Config`ResponderLookup, Config`Responders, Config`IncludeApp,
            Config`IncludeDescription, Config`IsTags, Config`Tags
    {
      OutputSettings(Config.LogTokenLookup, Config.ResponderLookup, Config.Responders, Config.IncludeApp,
                     Config.IncludeDescription, Config.IsTags, Config.Tags)
    }

    /** `ScheduledLogEvent`: writes the record for one token. */
    method ScheduledLogEvent(message: string, description: string, token: Option<Pair>)
      modifies this`Emitted
      ensures Emitted == old(Emitted) + [RecordFor(Output(), message, description, token, Counters.LogCount)]
    {
      var prefix := AppNamePrefix;
      if !Config.IncludeApp {
        prefix := "";
      }
      var responder := "";
      if |Config.ResponderLookup| > 0 {
        if token.Some? {
          responder := FindResponder(Config.ResponderLookup, token.value.0);
        }
      } else {
        responder := Config.Responders;
      }
      var template := if description == "" || !Config.IncludeDescription then prefix + MessageOnly
                      else prefix + MessageAndDescription;
      Emitted := Emitted + [Record(message, description, token, responder, template,
                                   if Config.IsTags then Config.Tags else [], Counters.LogCount)];
    }

    /** The `foreach` of the firing: `ScheduledLogEvent` for each multi-log token in order. */
    method LogEachToken(message: string, description: string)
      requires |Config.LogTokenLookup| > 0
      modifies this`Emitted
      ensures Emitted == old(Emitted) + Firing(Output(), message, description, Counters.LogCount)
    {
      var lookup := Config.LogTokenLookup;
      ghost var firing := RecordsFor(Output(), message, description, FanOutTokens(lookup), Counters.LogCount);
      var i := 0;
      while i < |lookup|
        invariant 0 <= i <= |lookup| == |firing|
        invariant Emitted == old(Emitted) + firing[..i]
      {
        ScheduledLogEvent(message, description, Some(lookup[i]));
        assert firing[..i + 1] == firing[..i] + [firing[i]];
        i := i + 1;
      }
      assert firing[..i] == firing;
    }

    /** The firing's fan-out: `ScheduledLogEvent` for each multi-log token, or once without one. */
    method LogScheduled(message: string, description: string)
      modifies this`Emitted
      ensures Emitted == old(Emitted) + Firing(Output(), message, description, Counters.LogCount)
    {
      if |Config.LogTokenLookup| > 0 {
        LogEachToken(message, description);
      } else {
        ScheduledLogEvent(message, description, None);
      }
    }

    /**
      The window part of a tick: enter, skip or serve a window containing
      now, or reset when now lies outside it. Nothing happens when now is
      inside a window that the entry gate keeps closed.
    */
    method ServiceWindow(timeNow: int, localDate: int, message: string, description: string)
      requires Valid()
      modifies this`Emitted, this`Notices, Counters`IsShowtime, Counters`SkippedShowtime, Counters`EventLogged,
               Counters`LastLog, Counters`LogCount
      ensures Valid()
      ensures Served() == ServeStep(old(Served()), old(MayEnter()), old(InWindow(timeNow)), old(Skips(localDate)),
                                    old(Due(timeNow)), timeNow, Firing(old(Output()), message, description, old(Counters.LogCount)),
                                    old(NoticeFor(localDate)))
      ensures Window() == old(Window())
    {
      if MayEnter() && InWindow(timeNow) {
        if Skips(localDate) {
          SkipWindow(localDate);
        } else {
          ServeShowtime(timeNow, message, description);
        }
      } else if !InWindow(timeNow) {
        Counters.LastLog := timeNow;
        Counters.IsShowtime := false;
        Counters.SkippedShowtime := false;
        Counters.EventLogged := false;
      }
    }

    /** A window start that is excluded: the diagnostic on the first such tick, and the skip flag. */
    method SkipWindow(localDate: int)
      modifies this`Notices, Counters`SkippedShowtime
      ensures Served() == old(Served()).(SkippedShowtime := true,
                                          Notices := if old(Counters.SkippedShowtime) then old(Notices)
                                                     else old(Notices) + [old(NoticeFor(localDate))])
    {
      if !Counters.SkippedShowtime {
        Notices := Notices + [NoticeFor(localDate)];
      }
      Counters.SkippedShowtime := true;
    }

    /** Showtime: enter the window if not yet served, then fire when records are due. */
    method ServeShowtime(timeNow: int, message: string, description: string)
      requires Valid()
      modifies this`Emitted, Counters`IsShowtime, Counters`EventLogged, Counters`LastLog, Counters`LogCount
      ensures Valid()
      ensures old(Due(timeNow)) ==>
                Served() == old(Served()).(IsShowtime := true, EventLogged := true, LastLog := timeNow,
                                           LogCount := old(Counters.LogCount) + 1,
                                           Emitted := old(Emitted) + Firing(old(Output()), message, description, old(Counters.LogCount)))
      ensures !old(Due(timeNow)) ==>
                Served() == old(Served()).(IsShowtime := true,
                                           LastLog := if old(Counters.IsShowtime) then old(Counters.LastLog) else timeNow)
    {
      if !Counters.IsShowtime {
        Counters.IsShowtime := true;
        Counters.LastLog := timeNow;
      }
      if !Counters.EventLogged || (Config.RepeatSchedule && timeNow - Counters.LastLog > Config.ScheduleInterval) {
        LogScheduled(message, description);
        Counters.LastLog := timeNow;
        Counters.EventLogged := true;
        Counters.LogCount := Counters.LogCount + 1;
      }
    }

    /** The rollover gate: not while serving, not while refreshing holidays, not before the start, not with a test date. */
    predicate RolloverDue(timeNow: int)
      reads Counters`IsShowtime, Config`UseHolidays, Counters`IsUpdating, Counters`StartTime, Config`TestDate
    {
      !(Counters.IsShowtime || (Config.UseHolidays && Counters.IsUpdating) || Counters.StartTime > timeNow
        || Config.TestDate.Some?)
    }

    /**
      What the end of a tick leaves: when `due` and the schedule time
      parses, the rolled-over window and the new day-of-month lists;
      otherwise the window `w0` and the lists `include0`, `exclude0`.
    */
    ghost predicate RolledOver(timeNow: int, today: int, includeDays: seq<int>, excludeDays: seq<int>, due: bool,
                               w0: Showtime, include0: seq<int>, exclude0: seq<int>)
      reads Config`StartFormat, Config`TestDate, Config`UseTestOverrideTime, Config`TestOverrideTime,
            Config`RepeatSchedule, Config`Holidays, Config`IncludeDays, Config`ExcludeDays,
            Counters`StartTime, Counters`EndTime
    {
      if due && Anchor().Some? then
        Window() == RolloverWindow(timeNow, false, today)
        && Config.IncludeDays == includeDays && Config.ExcludeDays == excludeDays
      else
        Window() == w0 && Config.IncludeDays == include0 && Config.ExcludeDays == exclude0
    }

    /** The end of a tick: roll the window over when the gate allows, then take the new day-of-month lists. */
    method RolloverIfDue(timeNow: int, today: int, includeDays: seq<int>, excludeDays: seq<int>)
      requires Valid()
      modifies Counters`StartTime, Counters`EndTime, Config`IncludeDays, Config`ExcludeDays
      ensures Valid()
      ensures old(RolloverDue(timeNow)) && Anchor().Some? ==>
                Window() == RolloverWindow(timeNow, false, today)
                && Config.IncludeDays == includeDays && Config.ExcludeDays == excludeDays
      ensures !(old(RolloverDue(timeNow)) && Anchor().Some?) ==>
                Window() == old(Window())
                && Config.IncludeDays == old(Config.IncludeDays) && Config.ExcludeDays == old(Config.ExcludeDays)
      ensures Served() == old(Served()) && Counters.IsUpdating == old(Counters.IsUpdating)
    {
      if !RolloverDue(timeNow) {
        return;
      }
      var parsed := UtcRollover(timeNow, false, today);
      if !parsed {
        return;
      }
      Config.IncludeDays := includeDays;
      Config.ExcludeDays := excludeDays;
    }

    /**
      The start of a tick once the last good day is before the local date:
      refresh holidays. Only what the rest of the tick relies on is stated
      here; `RetrieveHolidays` states the bookkeeping exactly.
    */
    method RefreshHolidays(localDate: int, timeNow: int, today: int, fetch: FetchOutcome) returns (proceed: bool)
      requires Valid()
      requires Counters.LastDay < localDate
      modifies Config`Holidays, Counters`IsUpdating, Counters`ErrorCount, Counters`LastUpdate, Counters`LastError,
               Counters`LastDay, Counters`StartTime, Counters`EndTime
      ensures Valid()
      ensures Counters.IsShowtime ==> Window() == old(Window())
      ensures Config.UseHolidays && Counters.IsUpdating ==> Window() == old(Window())
      ensures !proceed ==> !Counters.IsShowtime && !Counters.IsUpdating && Anchor().None?
      ensures Window() == (if old(RollsOver(RefreshState(), Config.UseHolidays, Counters.RetryCount, timeNow + UtcOffset,
                                            fetch, Counters.IsShowtime)) && Anchor().Some?
                           then RolloverWindow(timeNow, true, today) else old(Window()))
    {
      proceed := RetrieveHolidays(localDate, timeNow, timeNow + UtcOffset, today, fetch);
    }

    /** The message and description of a firing: rendered by Handlebars when that is on. */
    function TickText(rendered: (string, string)): (string, string)
      reads this`Message, this`Description, Config`UseHandlebars
    {
      if Config.UseHandlebars then rendered else (Message, Description)
    }

    /**
      The window part of a tick followed by its rollover gate, on the state
      the holiday refresh left: the window step is exactly `ServeStep`, and
      `TickKept` holds against `before`, the view before the refresh, which
      left the served state alone and moved the window neither while one
      was being served nor when it left a refresh in progress.
    */
    method ServeAndRollOver(timeNow: int, localDate: int, today: int, message: string, description: string,
                            includeDays: seq<int>, excludeDays: seq<int>, ghost before: TickView)
      requires Valid()
      requires before.Serve == Served()
      requires before.Serve.IsShowtime ==> before.Window == Window()
      requires Config.UseHolidays && Counters.IsUpdating ==> before.Window == Window()
      modifies this`Emitted, this`Notices, Counters`IsShowtime, Counters`SkippedShowtime, Counters`EventLogged,
               Counters`LastLog, Counters`LogCount, Counters`StartTime, Counters`EndTime, Config`IncludeDays, Config`ExcludeDays
      ensures Valid()
      ensures Counters.RetryCount == old(Counters.RetryCount)
      ensures TickKept(before, View(), Config.RepeatSchedule, Config.UseHolidays,
                       Firing(old(Output()), message, description, old(Counters.LogCount)), timeNow)
      // the tick that skips a window rolls it over
      ensures |Notices| > |old(Notices)| && Config.TestDate.None? && Anchor().Some? ==>
                Window() == RolloverWindow(timeNow, false, today)
      ensures Served() == ServeStep(old(Served()), old(MayEnter()), old(InWindow(timeNow)), old(Skips(localDate)),
                                    old(Due(timeNow)), timeNow,
                                    Firing(old(Output()), message, description, old(Counters.LogCount)),
                                    old(NoticeFor(localDate)))
      // the rollover gate of :578-579, on the state the window step leaves
      ensures RolledOver(timeNow, today, includeDays, excludeDays,
                         !Counters.IsShowtime && !(Config.UseHolidays && Counters.IsUpdating)
                         && old(Counters.StartTime) <= timeNow && Config.TestDate.None?,
                         old(Window()), old(Config.IncludeDays), old(Config.ExcludeDays))
    {
      ghost var st, w0 := Served(), Window();
      ghost var mayEnter, inWindow, skips, due := MayEnter(), InWindow(timeNow), Skips(localDate), Due(timeNow);
      ghost var firing, notice := Firing(Output(), message, description, Counters.LogCount), NoticeFor(localDate);
      ServiceWindow(timeNow, localDate, message, description);
      ghost var rolled := RolloverDue(timeNow) && Anchor().Some?;
      RolloverIfDue(timeNow, today, includeDays, excludeDays);
      StepAndRolloverKept(before, View(), st, mayEnter, inWindow, skips, due, timeNow, firing, notice,
                          Config.RepeatSchedule, Config.UseHolidays, w0, rolled);
    }

    /** A tick on a day the last good day is before: refresh holidays, then serve and roll over unless told to stop. */
    method RefreshAndServe(timeNow: int, localDate: int, today: int, fetch: FetchOutcome, rendered: (string, string),
                           includeDays: seq<int>, excludeDays: seq<int>)
      requires Valid()
      requires Counters.LastDay < localDate
      modifies this`Emitted, this`Notices, Config`Holidays, Config`IncludeDays, Config`ExcludeDays,
               Counters`IsUpdating, Counters`ErrorCount, Counters`LastUpdate, Counters`LastError, Counters`LastDay,
               Counters`StartTime, Counters`EndTime, Counters`IsShowtime, Counters`SkippedShowtime,
               Counters`EventLogged, Counters`LastLog, Counters`LogCount
      ensures Valid()
      ensures Counters.RetryCount == old(Counters.RetryCount)
      ensures TickKept(old(View()), View(), Config.RepeatSchedule, Config.UseHolidays,
                       Firing(old(Output()), old(TickText(rendered)).0, old(TickText(rendered)).1, old(Counters.LogCount)), timeNow)
      // the tick that skips a window rolls it over
      ensures |Notices| > |old(Notices)| && Config.TestDate.None? && Anchor().Some? ==>
                Window() == RolloverWindow(timeNow, false, today)
    {
      var text := TickText(rendered);
      ghost var v0, out := View(), Output();
      var proceed := RefreshHolidays(localDate, timeNow, today, fetch);
      assert Output() == out && Counters.LogCount == v0.Serve.LogCount && TickText(rendered) == text;
      if !proceed {
        return;
      }
      ServeAndRollOver(timeNow, localDate, today, text.0, text.1, includeDays, excludeDays, v0);
    }

    /**
      `TimerOnElapsed`, one tick at UTC instant `timeNow`: refresh holidays
      when the day has moved on, serve the window, then roll over.
      `rendered` is what the templates render to, `includeDays` and
      `excludeDays` what the date helper returns for the new window. On a
      day with no refresh the window step is exactly `ServeStep`.
    */
    method Tick(timeNow: int, today: int, fetch: FetchOutcome, rendered: (string, string),
                includeDays: seq<int>, excludeDays: seq<int>)
      requires Valid()
      modifies this`Emitted, this`Notices, Config`Holidays, Config`IncludeDays, Config`ExcludeDays,
               Counters`IsUpdating, Counters`ErrorCount, Counters`LastUpdate, Counters`LastError, Counters`LastDay,
               Counters`StartTime, Counters`EndTime, Counters`IsShowtime, Counters`SkippedShowtime,
               Counters`EventLogged, Counters`LastLog, Counters`LogCount
      ensures Valid()
      ensures Counters.RetryCount == old(Counters.RetryCount)
      ensures TickKept(old(View()), View(), Config.RepeatSchedule, Config.UseHolidays,
                       Firing(old(Output()), old(TickText(rendered)).0, old(TickText(rendered)).1, old(Counters.LogCount)), timeNow)
      // the tick that skips a window rolls it over
      ensures |Notices| > |old(Notices)| && Config.TestDate.None? && Anchor().Some? ==>
                Window() == RolloverWindow(timeNow, false, today)
      ensures var localDate := if Config.TestDate.Some? then Config.TestDate.value else today;
              old(Counters.LastDay) >= localDate ==>
                Served() == ServeStep(old(Served()), old(MayEnter()), old(InWindow(timeNow)), old(Skips(localDate)),
                                      old(Due(timeNow)), timeNow,
                                      Firing(old(Output()), old(TickText(rendered)).0, old(TickText(rendered)).1, old(Counters.LogCount)),
                                      old(NoticeFor(localDate)))
      ensures var localDate := if Config.TestDate.Some? then Config.TestDate.value else today;
              old(Counters.LastDay) >= localDate ==>
                RolledOver(timeNow, today, includeDays, excludeDays,
                           !Counters.IsShowtime && !(Config.UseHolidays && Counters.IsUpdating)
                           && old(Counters.StartTime) <= timeNow && Config.TestDate.None?,
                           old(Window()), old(Config.IncludeDays), old(Config.ExcludeDays))
    {
      var localDate := if Config.TestDate.Some? then Config.TestDate.value else today;
      if Counters.LastDay < localDate {
        RefreshAndServe(timeNow, localDate, today, fetch, rendered, includeDays, excludeDays);
      } else {
        var text := TickText(rendered);
        ServeAndRollOver(timeNow, localDate, today, text.0, text.1, includeDays, excludeDays, View());
        assert text == TickText(rendered);
      }
    }

    // -------------------------------------------------------------------
    // Attaching

    /** The schedule settings of `OnAttached`: app name flag, time format, repeat flag and clamped interval. */
    method AttachSchedule()
      requires Valid()
      modifies Config`IncludeApp, Config`StartFormat, Config`RepeatSchedule, Config`ScheduleInterval
      ensures Valid()
      ensures Config.IncludeApp == Setup.IncludeApp
      ensures Config.StartFormat == ScheduleFormat(Setup.ScheduleTime)
      ensures Config.RepeatSchedule == Setup.RepeatSchedule
      ensures Config.ScheduleInterval == if Setup.RepeatSchedule then ClampInterval(Setup.ScheduleInterval)
                                         else old(Config.ScheduleInterval)
    {
      Config.IncludeApp := Setup.IncludeApp;
      Config.StartFormat := ScheduleFormat(Setup.ScheduleTime);
      Config.RepeatSchedule := Setup.RepeatSchedule;
      if Config.RepeatSchedule {
        Config.ScheduleInterval := ClampInterval(Setup.ScheduleInterval);
      }
    }

    /** The multi-log tokens of `OnAttached`: each "key=value" entry is added; a repeated key throws. */
    method AttachLogTokens() returns (ok: bool)
      modifies Config`LogTokenLookup
      ensures Setup.MultiLogToken == "" ==> ok && Config.LogTokenLookup == old(Config.LogTokenLookup)
      ensures Setup.MultiLogToken != "" ==>
                ok == AddAll(old(Config.LogTokenLookup), Mappings(Parsed.LogTokens)).Some?
      ensures Setup.MultiLogToken != "" && ok ==>
                Config.LogTokenLookup == AddAll(old(Config.LogTokenLookup), Mappings(Parsed.LogTokens)).value
    {
      ok := true;
      if Setup.MultiLogToken != "" {
        var tokens := AddMappings(Config.LogTokenLookup, Parsed.LogTokens);
        if tokens.None? {
          return false;
        }
        Config.LogTokenLookup := tokens.value;
      }
    }

    /**
      The state the holiday part of `OnAttached` leaves when holidays start
      without a refresh in progress. Without holidays the list is empty and
      the window is the plain rollover of `nowUtc`. A failed first fetch
      leaves a refresh in progress with one error at `localNow`, the list
      empty and the plain window. A successful one installs the list,
      marks the fetch day done and, outside showtime with a parsable time,
      computes the window as a holiday update (a time that does not parse
      counts one error).
    */
    ghost predicate FirstWindow(nowUtc: int, today: int, fetch: FetchOutcome)
      reads Config`UseHolidays, Config`Holidays, Config`StartFormat, Config`TestDate, Config`UseTestOverrideTime,
            Config`TestOverrideTime, Config`RepeatSchedule, Counters`StartTime, Counters`EndTime,
            Counters`IsUpdating, Counters`ErrorCount, Counters`LastUpdate, Counters`LastError, Counters`LastDay,
            Counters`IsShowtime
    {
      var localNow := nowUtc + UtcOffset;
      if !Config.UseHolidays then
        Config.Holidays == [] && Anchor().Some? && Window() == RolloverWindow(nowUtc, false, today)
      else
        match fetch
        case FetchFailed =>
          Config.Holidays == [] && Counters.IsUpdating && Counters.ErrorCount == 1
          && Counters.LastUpdate == localNow && Counters.LastError == localNow
          && Anchor().Some? && Window() == RolloverWindow(nowUtc, false, today)
        case Fetched(hs) =>
          Config.Holidays == hs && !Counters.IsUpdating && Counters.LastUpdate == localNow
          && Counters.LastDay == FetchDay(today)
          && Counters.ErrorCount == (if !Counters.IsShowtime && Anchor().None? then 1 else 0)
          && (!Counters.IsShowtime && Anchor().Some? ==> Window() == RolloverWindow(nowUtc, true, today))
    }

    /**
      The holiday part of `OnAttached` and its first window: set holidays
      up, refresh them for today, and roll over unless the refresh already
      did. Without holidays, or with a failed first fetch, the first window
      is the plain rollover of now and attaching fails when the schedule
      time does not parse; a successful first fetch computes it as a
      holiday update.
    */
    method AttachHolidays(today: int, nowUtc: int, countryValid: bool, fetch: FetchOutcome) returns (ok: bool)
      requires Valid()
      modifies Config`UseHolidays, Config`TestDate, Config`Holidays, Counters`RetryCount, Counters`LastDay,
               Counters`LastError, Counters`LastUpdate, Counters`ErrorCount, Counters`IsUpdating,
               Counters`StartTime, Counters`EndTime
      ensures Valid()
      ensures Config.UseHolidays == old(HolidaysEnabled(countryValid))
      ensures Counters.RetryCount == if Config.UseHolidays && Setup.UseHolidays then RetryCountSetting(Setup.RetryCount)
                                     else old(Counters.RetryCount)
      ensures Config.TestDate == Setup.TestDate
      ensures !Config.UseHolidays || !old(Counters.IsUpdating) ==>
                (ok <==> (Config.UseHolidays && fetch.Fetched?) || Anchor().Some?)
      ensures ok && (!Config.UseHolidays || !old(Counters.IsUpdating)) ==> FirstWindow(nowUtc, today, fetch)
    {
      var localNow := nowUtc + UtcOffset;
      SetHolidays(today, localNow, countryValid);
      ok := RetrieveHolidays(today, nowUtc, localNow, today, fetch);
      if !ok {
        return;
      }
      if !Config.UseHolidays || Counters.IsUpdating {
        ok := UtcRollover(nowUtc, false, today);
      }
    }

    /** The day lists and the Handlebars flag of `OnAttached`. */
    method AttachDays(daysOfWeek: seq<int>, monthsOfYear: seq<int>, includeDays: seq<int>, excludeDays: seq<int>)
      modifies Config`DaysOfWeek, Config`MonthsOfYear, Config`IncludeDays, Config`ExcludeDays, Config`UseHandlebars
      ensures Config.DaysOfWeek == daysOfWeek && Config.MonthsOfYear == monthsOfYear
      ensures Config.IncludeDays == includeDays && Config.ExcludeDays == excludeDays
      ensures Config.UseHandlebars == if Setup.UseHandlebars.Some? then Setup.UseHandlebars.value
                                      else old(Config.UseHandlebars)
    {
      Config.DaysOfWeek := daysOfWeek;
      Config.MonthsOfYear := monthsOfYear;
      Config.IncludeDays := includeDays;
      Config.ExcludeDays := excludeDays;
      if Setup.UseHandlebars.Some? {
        Config.UseHandlebars := Setup.UseHandlebars.value;
      }
    }

    /** The message and description of `OnAttached`. */
    method AttachText()
      modifies this`Message, this`Description, Config`IncludeDescription
      ensures Message == Parsed.Message && Description == Parsed.Description
      ensures Config.IncludeDescription == if Setup.IncludeDescription.Some? then Setup.IncludeDescription.value
                                          else old(Config.IncludeDescription)
    {
      var message := Parsed.Message;
      var description := Parsed.Description;
      Message, Description := message, description;
      if Setup.IncludeDescription.Some? {
        Config.IncludeDescription := Setup.IncludeDescription.value;
      }
    }

    /** The tags of `OnAttached`: the trimmed non-empty entries; any tag turns tagging on. */
    method AttachTags()
      modifies Config`Tags, Config`IsTags
      ensures Config.Tags == Parsed.Tags
      ensures Config.IsTags <==> old(Config.IsTags) || |Config.Tags| > 0
    {
      var tags := Parsed.Tags;
      Config.Tags := tags;
      if |tags| > 0 {
        Config.IsTags := true;
      }
    }

    /**
      The responders of `OnAttached`: a setting holding '=' fills the
      responder lookup (a repeated key throws), any other non-empty setting
      is the single responder.
    */
    method AttachResponders() returns (ok: bool)
      modifies Config`ResponderLookup, Config`Responders
      ensures '=' in Setup.Responders ==>
                ok == AddAll(old(Config.ResponderLookup), Mappings(Parsed.ResponderEntries)).Some?
      ensures '=' in Setup.Responders && ok ==>
                Config.ResponderLookup == AddAll(old(Config.ResponderLookup), Mappings(Parsed.ResponderEntries)).value
      ensures '=' in Setup.Responders && !ok ==> Config.ResponderLookup == old(Config.ResponderLookup)
      ensures '=' in Setup.Responders ==> Config.Responders == old(Config.Responders)
      ensures '=' !in Setup.Responders ==> ok && Config.ResponderLookup == old(Config.ResponderLookup)
      ensures '=' !in Setup.Responders ==>
                Config.Responders == if Setup.Responders != "" then Setup.Responders else old(Config.Responders)
    {
      ok := true;
      var text := Setup.Responders;
      if text != "" {
        if '=' in text {
          var responders := AddMappings(Config.ResponderLookup, Parsed.ResponderEntries);
          if responders.None? {
            return false;
          }
          Config.ResponderLookup := responders.value;
        } else {
          Config.Responders := text;
        }
      }
    }

    /** The settings part of `OnAttached`: schedule settings and multi-log tokens. */
    method AttachSettings() returns (ok: bool)
      requires Valid()
      modifies Config`IncludeApp, Config`StartFormat, Config`RepeatSchedule, Config`ScheduleInterval,
               Config`LogTokenLookup
      ensures Valid()
      ensures Config.IncludeApp == Setup.IncludeApp
      ensures Config.StartFormat == ScheduleFormat(Setup.ScheduleTime)
      ensures Config.RepeatSchedule == Setup.RepeatSchedule
      ensures Config.ScheduleInterval == if Setup.RepeatSchedule then ClampInterval(Setup.ScheduleInterval)
                                         else old(Config.ScheduleInterval)
      ensures Setup.MultiLogToken != "" ==>
                ok == AddAll(old(Config.LogTokenLookup), Mappings(Parsed.LogTokens)).Some?
      ensures ok ==> Config.LogTokenLookup == if Setup.MultiLogToken == "" then old(Config.LogTokenLookup)
                                              else AddAll(old(Config.LogTokenLookup), Mappings(Parsed.LogTokens)).value
    {
      AttachSchedule();
      ok := AttachLogTokens();
    }

    /**
      What the output half of `OnAttached` sets, given the settings before
      it: the day lists, the message and description, the Handlebars and
      description flags when given, the tags (turning tagging on when
      there are any), and the responders; a responder lookup with a
      repeated key is left as it was.
    */
    ghost predicate OutputAttached(daysOfWeek: seq<int>, monthsOfYear: seq<int>, includeDays: seq<int>, excludeDays: seq<int>,
                                   lookup0: seq<Pair>, responders0: string, isTags0: bool, handlebars0: bool,
                                   includeDescription0: bool)
      reads this`Message, this`Description, Config`DaysOfWeek, Config`MonthsOfYear, Config`IncludeDays,
            Config`ExcludeDays, Config`UseHandlebars, Config`IncludeDescription, Config`Tags, Config`IsTags,
            Config`ResponderLookup, Config`Responders
    {
      Config.DaysOfWeek == daysOfWeek && Config.MonthsOfYear == monthsOfYear
      && Config.IncludeDays == includeDays && Config.ExcludeDays == excludeDays
      && Message == Parsed.Message && Description == Parsed.Description
      && Config.UseHandlebars == (if Setup.UseHandlebars.Some? then Setup.UseHandlebars.value else handlebars0)
      && Config.IncludeDescription == (if Setup.IncludeDescription.Some? then Setup.IncludeDescription.value
                                       else includeDescription0)
      && Config.Tags == Parsed.Tags && (Config.IsTags <==> isTags0 || |Parsed.Tags| > 0)
      && Config.ResponderLookup == (if '=' !in Setup.Responders then lookup0
                                    else match AddAll(lookup0, Mappings(Parsed.ResponderEntries))
                                         case Some(l) => l
                                         case None => lookup0)
      && Config.Responders == (if '=' !in Setup.Responders && Setup.Responders != "" then Setup.Responders
                               else responders0)
    }

    /** The second half of `OnAttached`: day lists, message, description, tags and responders. */
    method AttachOutput(daysOfWeek: seq<int>, monthsOfYear: seq<int>, includeDays: seq<int>, excludeDays: seq<int>)
      returns (ok: bool)
      modifies this`Message, this`Description, Config`DaysOfWeek, Config`MonthsOfYear, Config`IncludeDays,
               Config`ExcludeDays, Config`UseHandlebars, Config`IncludeDescription, Config`Tags, Config`IsTags,
               Config`ResponderLookup, Config`Responders
      ensures OutputAttached(daysOfWeek, monthsOfYear, includeDays, excludeDays, old(Config.ResponderLookup),
                             old(Config.Responders), old(Config.IsTags), old(Config.UseHandlebars),
                             old(Config.IncludeDescription))
      ensures ok <==> '=' !in Setup.Responders
                      || AddAll(old(Config.ResponderLookup), Mappings(Parsed.ResponderEntries)).Some?
    {
      AttachDays(daysOfWeek, monthsOfYear, includeDays, excludeDays);
      AttachText();
      AttachTags();
      ok := AttachResponders();
    }

    /** The rest of `OnAttached`: holidays and the first window, then the output settings. */
    method AttachRest(today: int, nowUtc: int, countryValid: bool, fetch: FetchOutcome,
                      daysOfWeek: seq<int>, monthsOfYear: seq<int>, includeDays: seq<int>, excludeDays: seq<int>)
      returns (ok: bool)
      requires Valid()
      modifies this`Message, this`Description, Config`UseHolidays, Config`TestDate, Config`Holidays,
               Config`DaysOfWeek, Config`MonthsOfYear, Config`IncludeDays, Config`ExcludeDays, Config`UseHandlebars,
               Config`IncludeDescription, Config`Tags, Config`IsTags, Config`ResponderLookup, Config`Responders,
               Counters`RetryCount, Counters`LastDay, Counters`LastError, Counters`LastUpdate, Counters`ErrorCount,
               Counters`IsUpdating, Counters`StartTime, Counters`EndTime
      ensures Valid()
      ensures Config.UseHolidays == old(HolidaysEnabled(countryValid))
      ensures Counters.RetryCount == if Config.UseHolidays && Setup.UseHolidays then RetryCountSetting(Setup.RetryCount)
                                     else old(Counters.RetryCount)
      ensures !Config.UseHolidays || !old(Counters.IsUpdating) ==>
                (ok <==> ((Config.UseHolidays && fetch.Fetched?) || Anchor().Some?)
                         && ('=' !in Setup.Responders
                             || AddAll(old(Config.ResponderLookup), Mappings(Parsed.ResponderEntries)).Some?))
      ensures !Config.UseHolidays && Anchor().None? ==> !ok
      ensures '=' in Setup.Responders && AddAll(old(Config.ResponderLookup), Mappings(Parsed.ResponderEntries)).None?
              ==> !ok
      ensures ok && (!Config.UseHolidays || !old(Counters.IsUpdating)) ==> FirstWindow(nowUtc, today, fetch)
      ensures ok ==> OutputAttached(daysOfWeek, monthsOfYear, includeDays, excludeDays, old(Config.ResponderLookup),
                                    old(Config.Responders), old(Config.IsTags), old(Config.UseHandlebars),
                                    old(Config.IncludeDescription))
    {
      ok := AttachHolidays(today, nowUtc, countryValid, fetch);
      if ok {
        label held:
        ok := AttachOutput(daysOfWeek, monthsOfYear, includeDays, excludeDays);
        assert FirstWindow(nowUtc, today, fetch) == old@held(FirstWindow(nowUtc, today, fetch));
      }
    }

    /**
      `OnAttached`: normalise the settings, set up and fetch holidays, and
      compute the first window. `attached == false` stands for the
      exceptions that make attaching fail: a repeated multi-log token or
      responder key, or a schedule time that parses in neither format when
      the window is computed outside the holiday handler.
    */
    method OnAttached(today: int, nowUtc: int, countryValid: bool, fetch: FetchOutcome,
                      daysOfWeek: seq<int>, monthsOfYear: seq<int>, includeDays: seq<int>, excludeDays: seq<int>)
      returns (attached: bool)
      requires Valid()
      modifies this`Message, this`Description, Config, Counters
      ensures Valid()
      ensures Emitted == old(Emitted) && Notices == old(Notices) && Counters.LogCount == old(Counters.LogCount)
      ensures Counters.IsShowtime == old(Counters.IsShowtime)
      ensures Config.IncludeApp == Setup.IncludeApp && Config.RepeatSchedule == Setup.RepeatSchedule
      ensures Config.StartFormat == ScheduleFormat(Setup.ScheduleTime)
      ensures Config.ScheduleInterval == if Setup.RepeatSchedule then ClampInterval(Setup.ScheduleInterval)
                                         else old(Config.ScheduleInterval)
      ensures Setup.MultiLogToken != "" && AddAll(old(Config.LogTokenLookup), Mappings(Parsed.LogTokens)).None?
              ==> !attached
      ensures attached ==> Config.LogTokenLookup == if Setup.MultiLogToken == "" then old(Config.LogTokenLookup)
                                                    else AddAll(old(Config.LogTokenLookup), Mappings(Parsed.LogTokens)).value
      ensures '=' in Setup.Responders && AddAll(old(Config.ResponderLookup), Mappings(Parsed.ResponderEntries)).None?
              ==> !attached
      ensures attached && !Config.UseHolidays ==> Anchor().Some?
      ensures attached ==> Config.UseHolidays == old(HolidaysEnabled(countryValid))
      ensures attached ==> Counters.RetryCount == if Config.UseHolidays && Setup.UseHolidays
                                                  then RetryCountSetting(Setup.RetryCount)
                                                  else old(Counters.RetryCount)
      ensures attached && (!Config.UseHolidays || !old(Counters.IsUpdating)) ==> FirstWindow(nowUtc, today, fetch)
      ensures attached ==> OutputAttached(daysOfWeek, monthsOfYear, includeDays, excludeDays,
                                          old(Config.ResponderLookup), old(Config.Responders), old(Config.IsTags),
                                          old(Config.UseHandlebars), old(Config.IncludeDescription))
    {
      attached := AttachSettings();
      if attached {
        attached := AttachRest(today, nowUtc, countryValid, fetch, daysOfWeek, monthsOfYear, includeDays, excludeDays);
      }
    }
  }
}
