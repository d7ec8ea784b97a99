/** Which stored transactions each date-range selector shows, at the granularity of the
    `YYYY-MM-DD` dates a transaction carries (src/components/Dashboard.tsx with
    src/utils/dateUtils.ts). A transaction date names midnight of its day, so every
    question about instants becomes a question about day numbers. */
module Periods {
  import opened Js
  import opened Types
  import opened Folds
  import opened Calendar
  import opened IsoDate
  import opened DateUtils
  import opened Dashboard

  /** The calendar date a transaction is filed on, when its `date` is a `YYYY-MM-DD` date. */
  predicate DatedOn(t: Transaction, d: CivilDate)
  {
    ParseDateOnly(t.date) == Some(d)
  }

  function DailyFilter(): DateRangeFilter { DateRangeFilter(Daily, None, None) }

  lemma MidnightDay(n: int)
    ensures DayOf(n * MsPerDay) == n
  {
    DayOfBounds(n * MsPerDay, n);
  }

  /** `daily` shows exactly the transactions dated today. */
  lemma DailyShowsToday(c: Clock, filter: DateRangeFilter, t: Transaction, d: CivilDate)
    requires ValidClock(c) && filter.selector == Daily && DatedOn(t, d)
    ensures InPeriod(GetDateRange(filter, c), t) <==> d == c.today
  {
    DailyRangeIsToday(c);
    MidnightDay(DayNumber(d));
    if DayNumber(d) == Today(c) {
      DayNumberInjective(d, c.today);
    }
  }

  /** `weekly` shows exactly the transactions dated in today's Sunday-to-Saturday week. */
  lemma WeeklyShowsThisWeek(c: Clock, filter: DateRangeFilter, t: Transaction, d: CivilDate)
    requires ValidClock(c) && filter.selector == Weekly && DatedOn(t, d)
    ensures InPeriod(GetDateRange(filter, c), t) <==>
      DayNumber(d) - WeekDay(DayNumber(d)) == Today(c) - WeekDay(Today(c))
  {
    WeeklyRangeIsThisWeek(c);
    MidnightDay(DayNumber(d));
  }

  /** `monthly` shows exactly the transactions dated in today's month of today's year. */
  lemma {:induction false} MonthlyShowsThisMonth(c: Clock, filter: DateRangeFilter, t: Transaction, d: CivilDate)
    requires ValidClock(c) && filter.selector == Monthly && DatedOn(t, d)
    ensures InPeriod(GetDateRange(filter, c), t) <==>
      d.year == c.today.year && d.monthIndex == c.today.monthIndex
  {
    var y, m := c.today.year, c.today.monthIndex;
    MonthlyRangeIsThisMonth(c);
    MidnightDay(DayNumber(d));
    var lo := MakeDay(y, m, 1);
    var hi := MakeDay(y, m, DaysInMonth(y, m));
    if d.year == y && d.monthIndex == m {
      MakeDayShift(y, m, 1, d.day - 1);
      MakeDayShift(y, m, d.day, DaysInMonth(y, m) - d.day);
    }
    if lo <= DayNumber(d) <= hi {
      var k := DayNumber(d) - lo + 1;
      MakeDayShift(y, m, 1, k - 1);
      MakeDayShift(y, m, k, DaysInMonth(y, m) - k);
      DayNumberInjective(d, CivilDate(y, m, k));
    }
  }

  /** A custom range whose two bounds are dates shows exactly the transactions dated from
      the start date to the end date, both included. */
  lemma CustomShowsBetween(c: Clock, filter: DateRangeFilter, t: Transaction, d: CivilDate, s: CivilDate, e: CivilDate)
    requires ValidClock(c) && filter.selector == Custom && DatedOn(t, d)
    requires filter.startDate.Some? && ParseDateOnly(filter.startDate.value) == Some(s)
    requires filter.endDate.Some? && ParseDateOnly(filter.endDate.value) == Some(e)
    ensures InPeriod(GetDateRange(filter, c), t) <==> DayNumber(s) <= DayNumber(d) <= DayNumber(e)
  {
    EndOfNamedDay(filter.endDate.value);
  }

  /** A custom range with neither bound shows exactly the transactions dated today. */
  lemma CustomWithoutBoundsShowsToday(c: Clock, filter: DateRangeFilter, t: Transaction, d: CivilDate)
    requires ValidClock(c) && filter.selector == Custom && DatedOn(t, d)
    requires !OptTruthy(filter.startDate) && !OptTruthy(filter.endDate)
    ensures InPeriod(GetDateRange(filter, c), t) <==> d == c.today
  {
    if DayNumber(d) == Today(c) {
      DayNumberInjective(d, c.today);
    }
  }

  /** The fall-through range is one instant, today's midnight, so it still shows exactly
      the transactions dated today. */
  lemma UnlistedShowsToday(c: Clock, filter: DateRangeFilter, t: Transaction, d: CivilDate)
    requires ValidClock(c) && filter.selector == Unlisted && DatedOn(t, d)
    ensures InPeriod(GetDateRange(filter, c), t) <==> d == c.today
  {
    if DayNumber(d) == Today(c) {
      DayNumberInjective(d, c.today);
    }
  }

  /** A custom range whose start date is after its end date shows nothing: empty view, zero totals. */
  lemma ReversedCustomShowsNothing(c: Clock, filter: DateRangeFilter, ts: seq<Transaction>, s: CivilDate, e: CivilDate)
    requires ValidClock(c) && filter.selector == Custom
    requires filter.startDate.Some? && ParseDateOnly(filter.startDate.value) == Some(s)
    requires filter.endDate.Some? && ParseDateOnly(filter.endDate.value) == Some(e)
    requires DayNumber(e) < DayNumber(s)
    ensures DashboardView(ts, filter, c).filtered == []
    ensures DashboardView(ts, filter, c).totals == Totals(0.0, 0.0)
    ensures DashboardView(ts, filter, c).balance == 0.0
  {
    EndOfNamedDay(filter.endDate.value);
    var r := GetDateRange(filter, c);
    NothingBetween(r);
    FilterNone(ts, t => InPeriod(r, t));
  }

  /** Nothing lies between a start and an end that precedes it. */
  lemma NothingBetween(r: Range)
    requires r.start.At? && r.end.At? && r.end.ms < r.start.ms
    ensures forall t :: !InPeriod(r, t)
  {
  }

  /** A non-empty custom bound that is not a date makes every comparison false: nothing shows. */
  lemma UnparsedCustomBoundShowsNothing(c: Clock, filter: DateRangeFilter, ts: seq<Transaction>)
    requires ValidClock(c) && filter.selector == Custom
    requires (OptTruthy(filter.startDate) && NewDate(filter.startDate.value) == InvalidDate)
          || (OptTruthy(filter.endDate) && NewDate(filter.endDate.value + "T23:59:59") == InvalidDate)
    ensures DashboardView(ts, filter, c).filtered == []
  {
    var r := GetDateRange(filter, c);
    assert r.start == InvalidDate || r.end == InvalidDate;
    assert forall t :: !InPeriod(r, t);
    FilterNone(ts, t => InPeriod(r, t));
  }
}
