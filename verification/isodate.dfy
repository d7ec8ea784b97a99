/** The two date-string forms the application hands to `new Date(...)`: the `YYYY-MM-DD`
    of a date input, and the same followed by `T23:59:59` for the end of a custom range,
    plus the `YYYY-MM-DD` produced by `toISOString().split('T')[0]`.
    Any other string is an Invalid Date here. */
module IsoDate {
  import opened Js
  import opened Calendar

  /** A JS `Date` value: a time in ms from 1970-01-01T00:00, or the Invalid Date (NaN). */
  datatype Instant = At(ms: int) | InvalidDate

  /** `a <= b` on dates: false whenever either side is NaN. */
  predicate NotAfter(a: Instant, b: Instant)
  {
    a.At? && b.At? && a.ms <= b.ms
  }

  predicate IsDigit(c: char) { '0' <= c <= '9' }

  predicate AllDigits(s: string) { forall k :: 0 <= k < |s| ==> IsDigit(s[k]) }

  /** The value of a string of decimal digits, most significant first. */
  function DecimalValue(s: string): (n: nat)
    requires AllDigits(s)
  {
    if s == [] then 0 else DecimalValue(s[..|s| - 1]) * 10 + Digit(s[|s| - 1])
  }

  function DigitChar(n: int): (c: char)
    requires 0 <= n < 10
    ensures IsDigit(c)
  {
    ('0' as int + n) as char
  }

  /** Two digits, zero-padded. */
  function Pad2(n: int): (s: string)
    requires 0 <= n < 100
    ensures |s| == 2 && AllDigits(s)
  {
    [DigitChar(n / 10), DigitChar(n % 10)]
  }

  /** Four digits, zero-padded. */
  function Pad4(n: int): (s: string)
    requires 0 <= n < 10000
    ensures |s| == 4 && AllDigits(s)
  {
    [DigitChar(n / 1000), DigitChar(n / 100 % 10), DigitChar(n / 10 % 10), DigitChar(n % 10)]
  }

  function Digit(c: char): int { c as int - '0' as int }

  lemma TwoDigitValue(s: string)
    requires |s| == 2 && AllDigits(s)
    ensures DecimalValue(s) == Digit(s[0]) * 10 + Digit(s[1])
  {
    assert s[..1][..0] == [];
    assert s[..1][0] == s[0];
    assert DecimalValue(s[..1]) == Digit(s[0]);
  }

  lemma FourDigitValue(s: string)
    requires |s| == 4 && AllDigits(s)
    ensures DecimalValue(s) == ((Digit(s[0]) * 10 + Digit(s[1])) * 10 + Digit(s[2])) * 10 + Digit(s[3])
  {
    assert s[..3][..2] == s[..2];
    TwoDigitValue(s[..2]);
  }

  lemma DigitOfDigitChar(k: int)
    requires 0 <= k < 10
    ensures Digit(DigitChar(k)) == k
  {
  }

  lemma Pad2Value(n: int)
    requires 0 <= n < 100
    ensures DecimalValue(Pad2(n)) == n
  {
    TwoDigitValue(Pad2(n));
    DigitOfDigitChar(n / 10);
    DigitOfDigitChar(n % 10);
  }

  lemma Pad4Value(n: int)
    requires 0 <= n < 10000
    ensures DecimalValue(Pad4(n)) == n
  {
    var s := Pad4(n);
    FourDigitValue(s);
    DigitOfDigitChar(n / 1000);
    DigitOfDigitChar(n / 100 % 10);
    DigitOfDigitChar(n / 10 % 10);
    DigitOfDigitChar(n % 10);
    var n1 := n / 10;
    var n2 := n1 / 10;
    assert n == n1 * 10 + n % 10;
    assert n1 == n2 * 10 + n1 % 10;
    assert n2 == n / 100;
    assert n2 / 10 == n / 1000;
    assert n2 == (n / 1000) * 10 + n / 100 % 10;
  }

  lemma ValuePad2(s: string)
    requires |s| == 2 && AllDigits(s)
    ensures DecimalValue(s) < 100 && Pad2(DecimalValue(s)) == s
  {
    TwoDigitValue(s);
    var a, b := Digit(s[0]), Digit(s[1]);
    assert (a * 10 + b) / 10 == a && (a * 10 + b) % 10 == b;
    assert DigitChar(a) == s[0] && DigitChar(b) == s[1];
  }

  /** The four decimal places of a number below 10000 are the digits it was built from. */
  lemma PlaceValues(a: int, b: int, c: int, d: int)
    requires 0 <= a < 10 && 0 <= b < 10 && 0 <= c < 10 && 0 <= d < 10
    ensures var n := ((a * 10 + b) * 10 + c) * 10 + d;
      n / 1000 == a && n / 100 % 10 == b && n / 10 % 10 == c && n % 10 == d
  {
    var n := 1000 * a + 100 * b + 10 * c + d;
    assert ((a * 10 + b) * 10 + c) * 10 + d == n;
    assert n / 1000 == a by {
      assert 1000 * a <= n < 1000 * a + 1000;
    }
    assert n / 100 == 10 * a + b by {
      assert 100 * (10 * a + b) <= n < 100 * (10 * a + b) + 100;
    }
    assert n / 10 == 100 * a + 10 * b + c by {
      assert 10 * (100 * a + 10 * b + c) <= n < 10 * (100 * a + 10 * b + c) + 10;
    }
    assert n % 10 == d;
    assert (10 * a + b) % 10 == b;
    assert (100 * a + 10 * b + c) % 10 == c;
  }

  lemma ValuePad4(s: string)
    requires |s| == 4 && AllDigits(s)
    ensures DecimalValue(s) < 10000 && Pad4(DecimalValue(s)) == s
  {
    FourDigitValue(s);
    var a, b, c, d := Digit(s[0]), Digit(s[1]), Digit(s[2]), Digit(s[3]);
    PlaceValues(a, b, c, d);
    assert DigitChar(a) == s[0] && DigitChar(b) == s[1] && DigitChar(c) == s[2] && DigitChar(d) == s[3];
  }

  /** `YYYY-MM-DD` with the ISO 8601 field ranges for a four-digit year. */
  predicate DateShaped(s: string)
  {
    |s| == 10 && s[4] == '-' && s[7] == '-'
    && AllDigits(s[0..4]) && AllDigits(s[5..7]) && AllDigits(s[8..10])
  }

  /** The calendar date a `YYYY-MM-DD` string names, if it names one. */
  function ParseDateOnly(s: string): (r: Option<CivilDate>)
    ensures r.Some? ==> ValidDate(r.value) && 0 <= r.value.year < 10000
  {
    if !DateShaped(s) then None
    else
      var y := DecimalValue(s[0..4]);
      var mo := DecimalValue(s[5..7]);
      var d := DecimalValue(s[8..10]);
      ValuePad4(s[0..4]);
      if 1 <= mo <= 12 && 1 <= d <= DaysInMonth(y, mo - 1) then Some(CivilDate(y, mo - 1, d)) else None
  }

  /** `date.toISOString().split('T')[0]` for a date in years 0 to 9999. */
  function FormatDate(d: CivilDate): (s: string)
    requires ValidDate(d) && 0 <= d.year < 10000
    ensures DateShaped(s)
  {
    Pad4(d.year) + "-" + Pad2(d.monthIndex + 1) + "-" + Pad2(d.day)
  }

  /** Formatting then parsing gives the date back. */
  lemma FormatThenParse(d: CivilDate)
    requires ValidDate(d) && 0 <= d.year < 10000
    ensures ParseDateOnly(FormatDate(d)) == Some(d)
  {
    var s := FormatDate(d);
    assert s[0..4] == Pad4(d.year);
    assert s[5..7] == Pad2(d.monthIndex + 1);
    assert s[8..10] == Pad2(d.day);
    Pad4Value(d.year);
    Pad2Value(d.monthIndex + 1);
    Pad2Value(d.day);
  }

  /** A string that parses is exactly the formatting of what it parses to. */
  lemma ParseThenFormat(s: string)
    requires ParseDateOnly(s).Some?
    ensures FormatDate(ParseDateOnly(s).value) == s
  {
    ValuePad4(s[0..4]);
    ValuePad2(s[5..7]);
    ValuePad2(s[8..10]);
    assert s == s[0..4] + "-" + s[5..7] + "-" + s[8..10];
  }

  /** `YYYY-MM-DDTHH:mm:ss` */
  predicate DateTimeShaped(s: string)
  {
    |s| == 19 && DateShaped(s[..10]) && s[10] == 'T' && s[13] == ':' && s[16] == ':'
    && AllDigits(s[11..13]) && AllDigits(s[14..16]) && AllDigits(s[17..19])
  }

  /** `new Date(s)` for the two forms. The date-only form is read as UTC and the date-time
      form as local time, which coincide here. */
  function NewDate(s: string): (r: Instant)
    ensures ParseDateOnly(s).Some? ==> r.At?
    ensures r.At? ==>
      && |s| >= 10 && ParseDateOnly(s[..10]).Some?
      && r.ms / MsPerDay == DayNumber(ParseDateOnly(s[..10]).value)
  {
    if ParseDateOnly(s).Some? then
      assert s[..10] == s;
      DayPart(DayNumber(ParseDateOnly(s).value), 0);
      At(DayNumber(ParseDateOnly(s).value) * MsPerDay)
    else if DateTimeShaped(s) && ParseDateOnly(s[..10]).Some? then
      var h := DecimalValue(s[11..13]);
      var mi := DecimalValue(s[14..16]);
      var sec := DecimalValue(s[17..19]);
      if h < 24 && mi < 60 && sec < 60 then
        DayPart(DayNumber(ParseDateOnly(s[..10]).value), MakeTime(h, mi, sec, 0));
        At(DayNumber(ParseDateOnly(s[..10]).value) * MsPerDay + MakeTime(h, mi, sec, 0))
      else InvalidDate
    else InvalidDate
  }

  /** `new Date(s + 'T23:59:59')` is one second before the end of the day `s` names,
      and invalid exactly when `s` is not a date. */
  lemma {:induction false} EndOfNamedDay(s: string)
    ensures ParseDateOnly(s).Some? ==>
      NewDate(s + "T23:59:59") == At(DayNumber(ParseDateOnly(s).value) * MsPerDay + MsPerDay - 1_000)
    ensures ParseDateOnly(s).None? ==> NewDate(s + "T23:59:59") == InvalidDate
  {
    var t := s + "T23:59:59";
    assert !DateShaped(t) by { assert |t| == |s| + 9; assert |s| == 1 ==> t[4] == ':'; }
    if |s| == 10 {
      EndOfDaySuffix(s);
    } else {
      assert |t| != 19;
    }
  }

  /** The pieces of `s + 'T23:59:59'` for a ten-character `s`. */
  lemma EndOfDaySuffix(s: string)
    requires |s| == 10
    ensures var t := s + "T23:59:59";
      && |t| == 19 && t[..10] == s && t[10] == 'T' && t[13] == ':' && t[16] == ':'
      && t[11..13] == "23" && t[14..16] == "59" && t[17..19] == "59"
      && DecimalValue("23") == 23 && DecimalValue("59") == 59
  {
    var t := s + "T23:59:59";
    assert t[..10] == s;
    assert t[11..13] == "23";
    assert t[14..16] == "59";
    assert t[17..19] == "59";
    TwoDigitValue("23");
    TwoDigitValue("59");
  }

  /** The text the form stores for a calendar day names the midnight that starts that day,
      and the same text with `T23:59:59` appended names one second before the next midnight. */
  lemma StartOfNamedDay(d: CivilDate)
    requires ValidDate(d) && 0 <= d.year < 10000
    ensures NewDate(FormatDate(d)) == At(DayNumber(d) * MsPerDay)
    ensures NewDate(FormatDate(d) + "T23:59:59") == At(DayNumber(d) * MsPerDay + MsPerDay - 1_000)
  {
    FormatThenParse(d);
    EndOfNamedDay(FormatDate(d));
  }
}
