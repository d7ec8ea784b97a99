/** src/utils/dateUtils.ts: the date-range resolver `getDateRange` and `convertToPKR`.
    The clock is an input: the local calendar date and time of day that `new Date()` reads. */
module DateUtils {
  import opened Js
  import opened Types
  import opened Calendar
  import opened IsoDate

  /** What `new Date()` supplies: today's local date and the milliseconds since midnight. */
  datatype Clock = Clock(today: CivilDate, msOfDay: int)

  /** A real calendar date and time of day, in the years where `new Date(y, m, d)` means year
      `y` (it reads 0 to 99 as 1900 to 1999) and every range built from today stays inside
      the ECMAScript time range (TimeClip's limit falls in September 275760). */
  predicate ValidClock(c: Clock)
  {
    ValidDate(c.today) && 100 <= c.today.year <= 275759 && 0 <= c.msOfDay < MsPerDay
  }

  /** The day number of today. */
  function Today(c: Clock): int
  {
    DayNumber(c.today)
  }

  /** The current instant in ms. */
  function Now(c: Clock): int
  {
    Today(c) * MsPerDay + c.msOfDay
  }

  /** The day an instant falls on. */
  function DayOf(ms: int): int
  {
    ms / MsPerDay
  }

  datatype Range = Range(start: Instant, end: Instant)

  /** `start <= t && t <= end`, with the NaN behaviour of JS comparisons. */
  predicate InRange(t: Instant, r: Range)
  {
    NotAfter(r.start, t) && NotAfter(t, r.end)
  }

  /** `getDateRange(filter)`. */
  function GetDateRange(filter: DateRangeFilter, c: Clock): (r: Range)
    requires ValidClock(c)
    ensures filter.selector != Custom ==> r.start.At? && r.end.At?
    ensures filter.selector in {Daily, Weekly, Monthly} ==> InRange(At(Now(c)), r)
    ensures filter.selector == Unlisted ==> r.start == r.end == At(Today(c) * MsPerDay)
  {
    var today := Today(c) * MsPerDay;
    match filter.selector
    case Daily =>
      DailyRangeIsToday(c);
      DailyRange(c)
    case Weekly =>
      WeeklyRangeIsThisWeek(c);
      WeeklyRange(c)
    case Monthly =>
      MonthlyRangeIsThisMonth(c);
      MonthlyRange(c)
    case Custom => CustomRange(filter, c)
    case Unlisted => Range(At(today), At(today))
  }

  /** Today's midnight to today's last millisecond. */
  function DailyRange(c: Clock): (r: Range)
    ensures r.start == At(Today(c) * MsPerDay) && r.end.At?
    ensures r.end.ms == r.start.ms + MsPerDay - 1
  {
    var today := Today(c) * MsPerDay;
    Range(At(today), At(today + 24 * 60 * 60 * 1000 - 1))
  }

  /** The daily range holds exactly the instants of today. */
  lemma DailyRangeIsToday(c: Clock)
    requires ValidClock(c)
    ensures InRange(At(Now(c)), DailyRange(c))
    ensures forall t :: InRange(At(t), DailyRange(c)) <==> DayOf(t) == Today(c)
  {
    forall t ensures InRange(At(t), DailyRange(c)) <==> DayOf(t) == Today(c) {
      DayOfBounds(t, Today(c));
    }
  }

  /** An instant lies on day `n` exactly when it lies in `[n * MsPerDay, (n + 1) * MsPerDay)`. */
  lemma DayOfBounds(t: int, n: int)
    ensures DayOf(t) == n <==> n * MsPerDay <= t < n * MsPerDay + MsPerDay
  {
  }

  /** `DayOf` is monotone, so day-number bounds become instant bounds. */
  lemma DaySpan(t: int, lo: int, hi: int)
    ensures lo * MsPerDay <= t < hi * MsPerDay + MsPerDay <==> lo <= DayOf(t) <= hi
  {
  }

  /** The week range: `setDate(getDate() - getDay())` from today, then six days on
      to `23:59:59.999`. The end is read off the start's own fields, as `setDate` does. */
  function WeeklyRange(c: Clock): (r: Range)
    requires ValidClock(c)
    ensures r.start == At((Today(c) - WeekDay(Today(c))) * MsPerDay) && r.end.At?
  {
    var d := c.today;
    var weekStart := Normalize(d.year, d.monthIndex, d.day - WeekDay(Today(c)));
    MakeDayShift(d.year, d.monthIndex, d.day, -WeekDay(Today(c)));
    var weekEndDay := MakeDay(weekStart.year, weekStart.monthIndex, weekStart.day + 6);
    Range(At(DayNumber(weekStart) * MsPerDay), At(weekEndDay * MsPerDay + MakeTime(23, 59, 59, 999)))
  }

  /** The weekly range starts on the Sunday on or before today, runs for exactly seven days,
      and holds exactly the instants whose Sunday-anchored week is today's. */
  lemma {:induction false} WeeklyRangeIsThisWeek(c: Clock)
    requires ValidClock(c)
    ensures var r := WeeklyRange(c);
      && r.start.At? && r.end.At?
      && r.start.ms % MsPerDay == 0
      && WeekDay(DayOf(r.start.ms)) == 0
      && DayOf(r.start.ms) <= Today(c) < DayOf(r.start.ms) + 7
      && r.end.ms == r.start.ms + 7 * MsPerDay - 1
      && InRange(At(Now(c)), r)
    ensures forall t :: InRange(At(t), WeeklyRange(c)) <==>
      DayOf(t) - WeekDay(DayOf(t)) == Today(c) - WeekDay(Today(c))
  {
    var d := c.today;
    var n := Today(c);
    var ws := Normalize(d.year, d.monthIndex, d.day - WeekDay(n));
    MakeDayShift(d.year, d.monthIndex, d.day, -WeekDay(n));
    assert DayNumber(ws) == n - WeekDay(n);
    MakeDayShift(ws.year, ws.monthIndex, ws.day, 6);
    EndOfDayIsLastMillisecond();
    SundayOnOrBefore(n);
    var s := n - WeekDay(n);
    assert DayOf(s * MsPerDay) == s;
    forall t ensures InRange(At(t), WeeklyRange(c)) <==> DayOf(t) - WeekDay(DayOf(t)) == s {
      DaySpan(t, s, s + 6);
      SameWeek(DayOf(t), s);
    }
  }

  /** A day lies in the week starting on Sunday `s` exactly when stepping back by its
      weekday reaches `s`. */
  lemma SameWeek(day: int, s: int)
    requires WeekDay(s) == 0
    ensures s <= day <= s + 6 <==> day - WeekDay(day) == s
  {
  }

  /** The month range: day 1 of this month to day 0 of the next, at `23:59:59.999`. */
  function MonthlyRange(c: Clock): (r: Range)
    ensures r.start == At(MakeDay(c.today.year, c.today.monthIndex, 1) * MsPerDay) && r.end.At?
  {
    var d := c.today;
    Range(At(MakeDay(d.year, d.monthIndex, 1) * MsPerDay),
          At(MakeDay(d.year, d.monthIndex + 1, 0) * MsPerDay + MakeTime(23, 59, 59, 999)))
  }

  /** The monthly range runs from the first to the last millisecond of the current month,
      whose last day is `DaysInMonth` (so February follows the leap rule and December
      ends on the 31st of the same year). */
  lemma {:induction false} MonthlyRangeIsThisMonth(c: Clock)
    requires ValidClock(c)
    ensures var d := c.today; var r := MonthlyRange(c);
      && r.start == At(DayNumber(CivilDate(d.year, d.monthIndex, 1)) * MsPerDay)
      && r.end == At(DayNumber(CivilDate(d.year, d.monthIndex, DaysInMonth(d.year, d.monthIndex))) * MsPerDay + MsPerDay - 1)
      && InRange(At(Now(c)), r)
    ensures var d := c.today;
      forall t :: InRange(At(t), MonthlyRange(c)) <==>
        MakeDay(d.year, d.monthIndex, 1) <= DayOf(t) <= MakeDay(d.year, d.monthIndex, DaysInMonth(d.year, d.monthIndex))
  {
    var d := c.today;
    DayZeroOfNextMonth(d.year, d.monthIndex);
    EndOfDayIsLastMillisecond();
    MakeDayShift(d.year, d.monthIndex, 1, d.day - 1);
    MakeDayShift(d.year, d.monthIndex, d.day, DaysInMonth(d.year, d.monthIndex) - d.day);
    var lo := MakeDay(d.year, d.monthIndex, 1);
    var hi := MakeDay(d.year, d.monthIndex, DaysInMonth(d.year, d.monthIndex));
    forall t ensures InRange(At(t), MonthlyRange(c)) <==> lo <= DayOf(t) <= hi {
      DaySpan(t, lo, hi);
    }
    DaySpan(Now(c), lo, hi);
  }

  /** The custom range: a missing or empty bound falls back to today's midnight; the end
      date is read with `T23:59:59` appended. Nothing orders the two bounds. */
  function CustomRange(filter: DateRangeFilter, c: Clock): (r: Range)
    ensures !OptTruthy(filter.startDate) ==> r.start == At(Today(c) * MsPerDay)
    ensures !OptTruthy(filter.endDate) ==> r.end == At(Today(c) * MsPerDay)
    ensures OptTruthy(filter.startDate) ==> r.start == NewDate(filter.startDate.value)
    ensures OptTruthy(filter.endDate) ==> r.end == NewDate(filter.endDate.value + "T23:59:59")
  {
    var today := At(Today(c) * MsPerDay);
    Range(
      if OptTruthy(filter.startDate) then NewDate(filter.startDate.value) else today,
      if OptTruthy(filter.endDate) then NewDate(filter.endDate.value + "T23:59:59") else today)
  }

  /** `convertToPKR`: the fixed rate 280 for USD; PKR amounts pass through. */
  const UsdToPkr: real := 280.0

  function ConvertToPkr(amount: real, currency: Currency): (r: real)
    ensures currency == PKR ==> r == amount
    ensures currency == USD ==> r == UsdToPkr * amount
  {
    if currency == USD then amount * 280.0 else amount
  }

  /** Conversion is linear with a positive factor: it keeps signs and order, and converting
      an already-PKR amount changes nothing. */
  lemma ConversionProperties(a: real, b: real, currency: Currency)
    ensures ConvertToPkr(ConvertToPkr(a, currency), PKR) == ConvertToPkr(a, currency)
    ensures a >= 0.0 ==> ConvertToPkr(a, currency) >= 0.0
    ensures a <= b ==> ConvertToPkr(a, currency) <= ConvertToPkr(b, currency)
    ensures ConvertToPkr(a + b, currency) == ConvertToPkr(a, currency) + ConvertToPkr(b, currency)
  {
  }
}
