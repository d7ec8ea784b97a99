/** Gregorian day arithmetic as ECMAScript's `Date` performs it (section 21.4.1 of ECMA-262):
    day numbers count from 1970-01-01, months are 0-based as `getMonth()` returns them, and
    `MakeDay` normalises out-of-range months and days, which is what `new Date(y, m + 1, 0)`
    and `setDate(n)` rely on. Local time is taken to be UTC and every day has 86 400 000 ms. */
module Calendar {

  const MsPerDay: int := 86_400_000

  /** `MakeTime(h, min, s, ms)`: milliseconds since midnight. */
  function MakeTime(h: int, min: int, s: int, ms: int): int
  {
    h * 3_600_000 + min * 60_000 + s * 1_000 + ms
  }

  /** A time of day added to a day's first millisecond stays on that day. */
  lemma DayPart(n: int, t: int)
    requires 0 <= t < MsPerDay
    ensures (n * MsPerDay + t) / MsPerDay == n
  {
  }

  /** The last millisecond of a day, as `setHours(23, 59, 59, 999)` sets it. */
  lemma EndOfDayIsLastMillisecond()
    ensures MakeTime(23, 59, 59, 999) == MsPerDay - 1
    ensures MakeTime(23, 59, 59, 0) == MsPerDay - 1_000
  {
  }

  predicate IsLeapYear(y: int)
  {
    (y % 4 == 0 && y % 100 != 0) || y % 400 == 0
  }

  function DaysInYear(y: int): int
  {
    if IsLeapYear(y) then 366 else 365
  }

  /** The day number of January 1st of year `y` (ECMAScript `DayFromYear`). */
  function DayFromYear(y: int): int
  {
    365 * (y - 1970) + (y - 1969) / 4 - (y - 1901) / 100 + (y - 1601) / 400
  }

  /** Consecutive years start `DaysInYear` apart: the closed form agrees with the leap rule. */
  lemma {:induction false} YearLength(y: int)
    ensures DayFromYear(y + 1) - DayFromYear(y) == DaysInYear(y)
  {
    var a := (y + 1 - 1969) / 4 - (y - 1969) / 4;
    var b := (y + 1 - 1901) / 100 - (y - 1901) / 100;
    var c := (y + 1 - 1601) / 400 - (y - 1601) / 400;
    LeapStep(y, 1969, 4);
    LeapStep(y, 1901, 100);
    LeapStep(y, 1601, 400);
    DivisorChain(y);
    assert DayFromYear(y + 1) - DayFromYear(y) == 365 + a - b + c;
  }

  /** A multiple of 400 is a multiple of 100, and a multiple of 100 one of 4. */
  lemma DivisorChain(y: int)
    ensures y % 400 == 0 ==> y % 100 == 0
    ensures y % 100 == 0 ==> y % 4 == 0
  {
    if y % 400 == 0 {
      var m := 4 * (y / 400);
      assert y == 100 * m;
      assert y / 100 == m;
    }
    if y % 100 == 0 {
      var m := 25 * (y / 100);
      assert y == 4 * m;
      assert y / 4 == m;
    }
  }

  /** `(y + 1 - k) / n` steps past `(y - k) / n` exactly when `n` divides `y`, for the
      offsets of the three leap-year terms. */
  lemma LeapStep(y: int, k: int, n: int)
    requires (k, n) == (1969, 4) || (k, n) == (1901, 100) || (k, n) == (1601, 400)
    ensures (y + 1 - k) / n - (y - k) / n == if y % n == 0 then 1 else 0
  {
    FloorStep(y - k, n);
    assert y + 1 - k == y - k + 1;
    ShiftedRemainders(y);
  }

  /** 1968, 1900 and 1600 are multiples of 4, 100 and 400 respectively. */
  lemma ShiftedRemainders(y: int)
    ensures (y - 1968) % 4 == y % 4
    ensures (y - 1900) % 100 == y % 100
    ensures (y - 1600) % 400 == y % 400
  {
    assert (y - 1968) % 4 == y % 4 by { assert y - 1968 == y - 492 * 4; }
    assert (y - 1900) % 100 == y % 100 by { assert y - 1900 == y - 19 * 100; }
    assert (y - 1600) % 400 == y % 400 by { assert y - 1600 == y - 4 * 400; }
  }

  /** Floor division steps up by one exactly at multiples of the divisor. */
  lemma FloorStep(a: int, n: int)
    requires n == 4 || n == 100 || n == 400
    ensures (a + 1) / n - a / n == if (a + 1) % n == 0 then 1 else 0
  {
  }

  lemma {:induction false} DayFromYearIncreasing(y1: int, y2: int)
    requires y1 < y2
    ensures DayFromYear(y1) + DaysInYear(y1) <= DayFromYear(y2)
    decreases y2 - y1
  {
    YearLength(y1);
    if y1 + 1 < y2 {
      DayFromYearIncreasing(y1 + 1, y2);
    }
  }

  /** Days in month `m` (0 = January) of year `y`. */
  function DaysInMonth(y: int, m: int): int
    requires 0 <= m < 12
  {
    if m == 1 then (if IsLeapYear(y) then 29 else 28)
    else if m == 3 || m == 5 || m == 8 || m == 10 then 30
    else 31
  }

  /** Days of year `y` before the first of month `m`; `MonthStart(y, 12)` is the whole year. */
  function MonthStart(y: int, m: int): int
    requires 0 <= m <= 12
  {
    var common := [0, 31, 59, 90, 120, 151, 181, 212, 243, 273, 304, 334, 365];
    common[m] + (if IsLeapYear(y) && m >= 2 then 1 else 0)
  }

  lemma MonthLength(y: int, m: int)
    requires 0 <= m < 12
    ensures MonthStart(y, m + 1) - MonthStart(y, m) == DaysInMonth(y, m)
    ensures MonthStart(y, 12) == DaysInYear(y)
  {
  }

  /** ECMAScript `MakeDay(year, month, date)`: the month overflows into the year by floor
      division, and the day of month may be any integer, counted from the month's first day. */
  function MakeDay(year: int, month: int, date: int): int
  {
    var ym := year + month / 12;
    var mn := month % 12;
    DayFromYear(ym) + MonthStart(ym, mn) + date - 1
  }

  /** Within a year the month needs no normalisation. */
  lemma MakeDayInYear(year: int, month: int, date: int)
    requires 0 <= month < 12
    ensures MakeDay(year, month, date) == DayFromYear(year) + MonthStart(year, month) + date - 1
  {
  }

  /** Month 12 is January of the following year. */
  lemma MakeDayNextYear(year: int, date: int)
    ensures MakeDay(year, 12, date) == DayFromYear(year + 1) + date - 1
  {
  }

  /** `setDate(d + k)` moves the day number by exactly `k`, whatever month overflow that causes. */
  lemma MakeDayShift(year: int, month: int, date: int, k: int)
    ensures MakeDay(year, month, date + k) == MakeDay(year, month, date) + k
  {
  }

  /** Day 0 of the next month is the last day of this month; December rolls into January
      of the following year. This is the `new Date(y, m + 1, 0)` idiom. */
  lemma {:induction false} DayZeroOfNextMonth(y: int, m: int)
    requires 0 <= m < 12
    ensures MakeDay(y, m + 1, 0) == MakeDay(y, m, DaysInMonth(y, m))
    ensures MakeDay(y, m + 1, 1) == MakeDay(y, m, 1) + DaysInMonth(y, m)
  {
    MonthLength(y, m);
    MakeDayInYear(y, m, DaysInMonth(y, m));
    MakeDayInYear(y, m, 1);
    if m == 11 {
      YearLength(y);
      MakeDayNextYear(y, 0);
      MakeDayNextYear(y, 1);
    } else {
      MakeDayInYear(y, m + 1, 0);
      MakeDayInYear(y, m + 1, 1);
    }
  }

  /** Counted the way `new Date(y, 2, 0)` counts it, from the first of February to day 0 of
      March, February has 29 days exactly in Gregorian leap years and 28 otherwise. */
  lemma FebruaryLength(y: int)
    ensures MakeDay(y, 2, 0) - MakeDay(y, 1, 1) + 1 == 29 <==> IsLeapYear(y)
    ensures MakeDay(y, 2, 0) - MakeDay(y, 1, 1) + 1 == 28 <==> !IsLeapYear(y)
  {
    DayZeroOfNextMonth(y, 1);
    MakeDayShift(y, 1, 1, DaysInMonth(y, 1) - 1);
  }

  /** A calendar date with a 0-based month, as `getFullYear`, `getMonth`, `getDate` report it. */
  datatype CivilDate = CivilDate(year: int, monthIndex: int, day: int)

  predicate ValidDate(d: CivilDate)
  {
    0 <= d.monthIndex < 12 && 1 <= d.day <= DaysInMonth(d.year, d.monthIndex)
  }

  function DayNumber(d: CivilDate): int
  {
    MakeDay(d.year, d.monthIndex, d.day)
  }

  /** A valid date falls inside its own year. */
  lemma {:induction false} DayNumberInYear(d: CivilDate)
    requires ValidDate(d)
    ensures DayFromYear(d.year) <= DayNumber(d) < DayFromYear(d.year + 1)
  {
    YearLength(d.year);
    MonthLength(d.year, d.monthIndex);
    MonthStartIncreasing(d.year, d.monthIndex + 1, 12);
    MakeDayInYear(d.year, d.monthIndex, d.day);
  }

  lemma MonthStartIncreasing(y: int, m1: int, m2: int)
    requires 0 <= m1 <= m2 <= 12
    ensures MonthStart(y, m1) <= MonthStart(y, m2)
    ensures m1 < m2 ==> MonthStart(y, m1) + DaysInMonth(y, m1) <= MonthStart(y, m2)
  {
  }

  /** Distinct valid dates have distinct day numbers. */
  lemma {:induction false} DayNumberInjective(d1: CivilDate, d2: CivilDate)
    requires ValidDate(d1) && ValidDate(d2)
    requires DayNumber(d1) == DayNumber(d2)
    ensures d1 == d2
  {
    SameYear(d1, d2);
    MakeDayInYear(d1.year, d1.monthIndex, d1.day);
    MakeDayInYear(d2.year, d2.monthIndex, d2.day);
    if d1.monthIndex < d2.monthIndex {
      MonthStartIncreasing(d1.year, d1.monthIndex, d2.monthIndex);
    } else if d2.monthIndex < d1.monthIndex {
      MonthStartIncreasing(d1.year, d2.monthIndex, d1.monthIndex);
    }
  }

  lemma SameYear(d1: CivilDate, d2: CivilDate)
    requires ValidDate(d1) && ValidDate(d2)
    requires DayNumber(d1) == DayNumber(d2)
    ensures d1.year == d2.year
  {
    if d1.year < d2.year {
      LaterYearLaterDay(d1, d2);
    } else if d2.year < d1.year {
      LaterYearLaterDay(d2, d1);
    }
  }

  /** Every day of a later year comes after every day of an earlier one. */
  lemma LaterYearLaterDay(d1: CivilDate, d2: CivilDate)
    requires ValidDate(d1) && ValidDate(d2)
    requires d1.year < d2.year
    ensures DayNumber(d1) < DayNumber(d2)
  {
    DayNumberInYear(d1);
    DayNumberInYear(d2);
    EarlierYear(d1.year, d2.year);
  }

  lemma EarlierYear(y1: int, y2: int)
    requires y1 < y2
    ensures DayFromYear(y1 + 1) <= DayFromYear(y2)
  {
    DayFromYearIncreasing(y1, y2);
    YearLength(y1);
  }

  /** The fields `getFullYear`, `getMonth`, `getDate` report after `MakeDay(y, m, date)`,
      for a day of month at most 27 days before or 28 days after month `m`. */
  function Normalize(y: int, m: int, date: int): (d: CivilDate)
    requires 0 <= m < 12
    requires -27 <= date <= DaysInMonth(y, m) + 28
    ensures ValidDate(d)
    ensures DayNumber(d) == MakeDay(y, m, date)
  {
    if date < 1 then
      var py := if m == 0 then y - 1 else y;
      var pm := if m == 0 then 11 else m - 1;
      PreviousMonth(y, m, date);
      CivilDate(py, pm, DaysInMonth(py, pm) + date)
    else if date > DaysInMonth(y, m) then
      var over := date - DaysInMonth(y, m);
      NextMonth(y, m, over);
      CivilDate(if m == 11 then y + 1 else y, if m == 11 then 0 else m + 1, over)
    else
      CivilDate(y, m, date)
  }

  /** Day `date <= 0` of month `m` is counted back from the end of the month before. */
  lemma {:induction false} PreviousMonth(y: int, m: int, date: int)
    requires 0 <= m < 12
    ensures var py := if m == 0 then y - 1 else y;
            var pm := if m == 0 then 11 else m - 1;
            MakeDay(py, pm, DaysInMonth(py, pm) + date) == MakeDay(y, m, date)
  {
    var py := if m == 0 then y - 1 else y;
    var pm := if m == 0 then 11 else m - 1;
    NextMonth(py, pm, date);
  }

  /** Day `DaysInMonth + over` of month `m` is day `over` of the month after. */
  lemma {:induction false} NextMonth(y: int, m: int, over: int)
    requires 0 <= m < 12
    ensures var ny := if m == 11 then y + 1 else y;
            var nm := if m == 11 then 0 else m + 1;
            MakeDay(ny, nm, over) == MakeDay(y, m, DaysInMonth(y, m) + over)
  {
    MonthLength(y, m);
    MakeDayInYear(y, m, DaysInMonth(y, m) + over);
    if m == 11 {
      YearLength(y);
      MakeDayInYear(y + 1, 0, over);
    } else {
      MakeDayInYear(y, m + 1, over);
    }
  }

  /** `getDay()`: 0 is Sunday; 1970-01-01 was a Thursday. */
  function WeekDay(day: int): (w: int)
    ensures 0 <= w < 7
  {
    (day + 4) % 7
  }

  /** Stepping back by the weekday lands on a Sunday at most six days earlier. */
  lemma SundayOnOrBefore(day: int)
    ensures WeekDay(day - WeekDay(day)) == 0
    ensures day - 6 <= day - WeekDay(day) <= day
  {
  }
}
