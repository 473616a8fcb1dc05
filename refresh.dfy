/*
  The bookkeeping `RetrieveHolidays` keeps about refreshing the holiday
  list: whether a refresh is in progress, how many attempts have failed,
  when the last attempt and the last error happened, and the last day the
  list is good for. `EventScheduleReactor.RetrieveHolidays` is proved to
  move its counters exactly as `Step` says; the lemmas below follow a run
  of refreshes.
*/
module Refresh {
  import opened Window

  /** What the holiday service returned once validated, or that it threw. */
  datatype FetchOutcome = FetchFailed | Fetched(holidays: seq<Holiday>)

  /** Seconds that must pass after the last attempt and the last error before a retry. */
  const RetryDelay: int := 10

  /** The error count at which a refresh in progress is abandoned; hard-coded, independent of the retry count. */
  const GiveUpErrorCount: int := 10

  /** The refresh counters of `ScheduleCounters`: instants in local seconds, `LastDay` a local day number. */
  datatype Bookkeeping = Bookkeeping(IsUpdating: bool, ErrorCount: int, LastUpdate: int, LastError: int, LastDay: int)

  /** A refresh is attempted when holidays are on and either none is in progress, or the retry delay has passed and retries remain. */
  predicate Attempts(b: Bookkeeping, useHolidays: bool, retryCount: int, localNow: int)
  {
    useHolidays
    && (!b.IsUpdating
        || (b.IsUpdating && localNow - b.LastUpdate > RetryDelay && localNow - b.LastError > RetryDelay
            && b.ErrorCount < retryCount))
  }

  /** Otherwise the holiday list is dropped when holidays are off, or when a refresh in progress has failed ten times. */
  predicate GivesUp(b: Bookkeeping, useHolidays: bool)
  {
    !useHolidays || (b.IsUpdating && b.ErrorCount >= GiveUpErrorCount)
  }

  /**
    When a call refreshes: holidays on and no refresh in progress always
    attempts; a refresh in progress is not retried within the retry delay
    or once the retry count is spent, and is given up only at ten failures;
    with holidays off the list is always dropped.
  */
  lemma RefreshGates(b: Bookkeeping, useHolidays: bool, retryCount: int, localNow: int)
    ensures !b.IsUpdating ==> (Attempts(b, useHolidays, retryCount, localNow) <==> useHolidays)
    ensures b.IsUpdating && localNow - b.LastError <= RetryDelay ==> !Attempts(b, useHolidays, retryCount, localNow)
    ensures b.IsUpdating && localNow - b.LastUpdate <= RetryDelay ==> !Attempts(b, useHolidays, retryCount, localNow)
    ensures b.IsUpdating && b.ErrorCount >= retryCount ==> !Attempts(b, useHolidays, retryCount, localNow)
    ensures useHolidays ==> (GivesUp(b, useHolidays) <==> b.IsUpdating && b.ErrorCount >= GiveUpErrorCount)
    ensures !useHolidays ==> !Attempts(b, useHolidays, retryCount, localNow) && GivesUp(b, useHolidays)
  {
  }

  /**
    One call of `RetrieveHolidays`: `localDate` is the caller's date,
    `fetchDay` the date fetched for (the test date when one is set), and
    `rolloverFails` says that the rollover after a successful fetch throws,
    which the same handler counts as a failure.
  */
  function Step(b: Bookkeeping, useHolidays: bool, retryCount: int, localDate: int, fetchDay: int,
                localNow: int, fetch: FetchOutcome, rolloverFails: bool): (r: Bookkeeping)
    ensures !Attempts(b, useHolidays, retryCount, localNow) && !GivesUp(b, useHolidays) ==> r == b
    ensures b.ErrorCount >= 0 && r.ErrorCount > b.ErrorCount ==> Attempts(b, useHolidays, retryCount, localNow) && r.LastError == localNow
    ensures r.IsUpdating ==> r.ErrorCount >= b.ErrorCount && r.LastDay == b.LastDay
    ensures Attempts(b, useHolidays, retryCount, localNow) ==> r.LastUpdate == localNow
    ensures !Attempts(b, useHolidays, retryCount, localNow) ==> r.LastUpdate == b.LastUpdate && r.LastError == b.LastError
  {
    if Attempts(b, useHolidays, retryCount, localNow) then
      match fetch
      case FetchFailed =>
        b.(IsUpdating := true, ErrorCount := b.ErrorCount + 1, LastUpdate := localNow, LastError := localNow)
      case Fetched(_) =>
        if rolloverFails then
          b.(IsUpdating := false, ErrorCount := 1, LastUpdate := localNow, LastError := localNow, LastDay := fetchDay)
        else
          b.(IsUpdating := false, ErrorCount := 0, LastUpdate := localNow, LastDay := fetchDay)
    else if GivesUp(b, useHolidays) then
      b.(IsUpdating := false, ErrorCount := 0, LastDay := localDate)
    else
      b
  }

  /** The holiday list after the call: the fetched list, none when given up, else the list held before. */
  function RefreshedHolidays(b: Bookkeeping, useHolidays: bool, retryCount: int, localNow: int,
                             fetch: FetchOutcome, current: seq<Holiday>): seq<Holiday>
  {
    if Attempts(b, useHolidays, retryCount, localNow) then
      (if fetch.Fetched? then fetch.holidays else current)
    else if GivesUp(b, useHolidays) then []
    else current
  }

  /** The call recomputes the window after a successful fetch, or after giving up with holidays on; never during showtime. */
  predicate RollsOver(b: Bookkeeping, useHolidays: bool, retryCount: int, localNow: int,
                      fetch: FetchOutcome, isShowtime: bool)
  {
    !isShowtime
    && (if Attempts(b, useHolidays, retryCount, localNow) then fetch.Fetched? else GivesUp(b, useHolidays) && useHolidays)
  }

  // ---------------------------------------------------------------------
  // Runs of refreshes: one call per tick, with holidays on, for one day

  function Run(b: Bookkeeping, retryCount: int, day: int, calls: seq<(int, FetchOutcome)>): Bookkeeping
    decreases |calls|
  {
    if calls == [] then b
    else Run(Step(b, true, retryCount, day, day, calls[0].0, calls[0].1, false), retryCount, day, calls[1..])
  }

  /** Failed fetches at the given instants. */
  function Failures(times: seq<int>): (calls: seq<(int, FetchOutcome)>)
    ensures |calls| == |times|
    ensures forall i :: 0 <= i < |times| ==> calls[i] == (times[i], FetchFailed)
  {
    seq(|times|, i requires 0 <= i < |times| => (times[i], FetchFailed))
  }

  /** Each instant comes more than the retry delay after the one before. */
  predicate Spaced(times: seq<int>)
  {
    forall i :: 0 < i < |times| ==> times[i] > times[i - 1] + RetryDelay
  }

  function Min(a: int, b: int): int { if a <= b then a else b }
  function Max(a: int, b: int): int { if a >= b then a else b }

  /**
    With a retry count below ten, a refresh that has used up its retries
    stays in progress whatever comes next: no attempt is made, nothing is
    given up, and so the counters never change again.
  */
  lemma {:induction false} StuckBelowGiveUp(b: Bookkeeping, retryCount: int, day: int, calls: seq<(int, FetchOutcome)>)
    requires b.IsUpdating && retryCount <= b.ErrorCount < GiveUpErrorCount
    ensures Run(b, retryCount, day, calls) == b
    decreases |calls|
  {
    if calls != [] {
      assert Step(b, true, retryCount, day, day, calls[0].0, calls[0].1, false) == b;
      StuckBelowGiveUp(b, retryCount, day, calls[1..]);
    }
  }

  /** A failing refresh in progress counts its failures until the retry count is reached, and stays in progress. */
  lemma {:induction false} FailuresAccumulate(b: Bookkeeping, retryCount: int, day: int, times: seq<int>)
    requires 0 <= retryCount < GiveUpErrorCount
    requires b.IsUpdating && 1 <= b.ErrorCount <= Max(retryCount, 1) && b.LastUpdate == b.LastError
    requires Spaced(times) && (|times| > 0 ==> times[0] > b.LastError + RetryDelay)
    ensures var r := Run(b, retryCount, day, Failures(times));
            r.IsUpdating && r.ErrorCount == Min(b.ErrorCount + |times|, Max(retryCount, 1))
    decreases |times|
  {
    if times != [] {
      var calls := Failures(times);
      var b' := Step(b, true, retryCount, day, day, times[0], FetchFailed, false);
      assert calls[0] == (times[0], FetchFailed);
      assert calls[1..] == Failures(times[1..]);
      if b.ErrorCount < retryCount {
        assert b' == b.(ErrorCount := b.ErrorCount + 1, LastUpdate := times[0], LastError := times[0]);
      } else {
        assert b' == b;
      }
      FailuresAccumulate(b', retryCount, day, times[1..]);
    }
  }

  /**
    From no refresh in progress, spaced failures raise the error count one
    by one up to the retry count (at least one attempt is always made), and
    the refresh never leaves the in-progress state.
  */
  lemma FailuresReachRetryCount(b: Bookkeeping, retryCount: int, day: int, times: seq<int>)
    requires 0 <= retryCount < GiveUpErrorCount
    requires !b.IsUpdating && b.ErrorCount == 0
    requires |times| > 0 && Spaced(times)
    ensures var r := Run(b, retryCount, day, Failures(times));
            r.IsUpdating && r.ErrorCount == Min(|times|, Max(retryCount, 1))
  {
    var calls := Failures(times);
    var b' := Step(b, true, retryCount, day, day, times[0], FetchFailed, false);
    assert calls[0] == (times[0], FetchFailed);
    assert calls[1..] == Failures(times[1..]);
    assert b' == b.(IsUpdating := true, ErrorCount := 1, LastUpdate := times[0], LastError := times[0]);
    FailuresAccumulate(b', retryCount, day, times[1..]);
  }

  /**
    One failed attempt of a refresh in progress, for any retry count: the
    error count goes up by one, both instants are now, and the refresh
    stays in progress.
  */
  lemma FailedRetryCounts(b: Bookkeeping, retryCount: int, day: int, localNow: int, rolloverFails: bool)
    requires b.IsUpdating && Attempts(b, true, retryCount, localNow)
    ensures Step(b, true, retryCount, day, day, localNow, FetchFailed, rolloverFails)
            == b.(ErrorCount := b.ErrorCount + 1, LastUpdate := localNow, LastError := localNow)
    ensures RefreshedHolidays(b, true, retryCount, localNow, FetchFailed, []) == []
  {
  }

  /**
    The give-up gate, for any retry count: a refresh in progress with ten or
    more failures, called when no retry is due, is abandoned and its list
    dropped.
  */
  lemma GivesUpAtTen(b: Bookkeeping, retryCount: int, localDate: int, fetchDay: int,
                     localNow: int, fetch: FetchOutcome, rolloverFails: bool, current: seq<Holiday>)
    requires b.IsUpdating && b.ErrorCount >= GiveUpErrorCount && !Attempts(b, true, retryCount, localNow)
    ensures Step(b, true, retryCount, localDate, fetchDay, localNow, fetch, rolloverFails)
            == b.(IsUpdating := false, ErrorCount := 0, LastDay := localDate)
    ensures RefreshedHolidays(b, true, retryCount, localNow, fetch, current) == []
  {
  }

  /**
    With a retry count above ten, a call that comes within the retry delay
    of the tenth failure gives up: with the one-second timer the next tick
    does, so such retry counts behave as ten.
  */
  lemma QuickCallAfterTenthFailureGivesUp(b: Bookkeeping, retryCount: int, localDate: int, fetchDay: int,
                                          localNow: int, fetch: FetchOutcome, rolloverFails: bool)
    requires GiveUpErrorCount < retryCount
    requires b.IsUpdating && b.ErrorCount == GiveUpErrorCount && b.LastError <= localNow <= b.LastError + RetryDelay
    ensures !Attempts(b, true, retryCount, localNow)
    ensures Step(b, true, retryCount, localDate, fetchDay, localNow, fetch, rolloverFails)
            == b.(IsUpdating := false, ErrorCount := 0, LastDay := localDate)
  {
    GivesUpAtTen(b, retryCount, localDate, fetchDay, localNow, fetch, rolloverFails, []);
  }

  /** With a retry count of ten or more, a refresh in progress that has failed that often is given up on its next call. */
  lemma GivesUpOnceRetriesSpent(b: Bookkeeping, retryCount: int, localDate: int, fetchDay: int,
                                localNow: int, fetch: FetchOutcome, rolloverFails: bool)
    requires GiveUpErrorCount <= retryCount && b.IsUpdating && b.ErrorCount == retryCount
    ensures Step(b, true, retryCount, localDate, fetchDay, localNow, fetch, rolloverFails)
            == b.(IsUpdating := false, ErrorCount := 0, LastDay := localDate)
  {
  }

  /** A successful fetch ends the refresh: errors cleared, the list good for the fetched day. */
  lemma SuccessEndsRefresh(b: Bookkeeping, retryCount: int, localDate: int, fetchDay: int,
                           localNow: int, hs: seq<Holiday>)
    requires Attempts(b, true, retryCount, localNow)
    ensures var r := Step(b, true, retryCount, localDate, fetchDay, localNow, Fetched(hs), false);
            !r.IsUpdating && r.ErrorCount == 0 && r.LastDay == fetchDay && r.LastError == b.LastError
    ensures RefreshedHolidays(b, true, retryCount, localNow, Fetched(hs), []) == hs
  {
  }
}
