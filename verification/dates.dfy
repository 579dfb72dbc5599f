/** Civil (calendar) dates of the proleptic Gregorian calendar, with the
    JavaScript `Date` operations the collector performs on them: adding days
    (`setDate(getDate() + n)`), adding months (`setMonth(getMonth() + k)`,
    whose day overflows into the following month), ISO formatting
    (`toISOString().slice(0, 10)`), parsing a `YYYY-MM-DD` string, and the
    default string conversion (`Date.prototype.toString`). The host runs at
    UTC, so a date parsed from `YYYY-MM-DD` is that day's midnight and every
    setter works on the same calendar day. */
module CivilDates {
  import opened Options
  import opened Text

  datatype CivilDate = CivilDate(year: int, month: int, day: int)

  predicate IsLeapYear(y: int) {
    y % 4 == 0 && (y % 100 != 0 || y % 400 == 0)
  }

  function DaysInMonth(y: int, m: int): (n: int)
    requires 1 <= m <= 12
    ensures 28 <= n <= 31
  {
    if m == 2 then (if IsLeapYear(y) then 29 else 28)
    else if m == 4 || m == 6 || m == 9 || m == 11 then 30
    else 31
  }

  predicate IsValid(d: CivilDate) {
    1 <= d.year && 1 <= d.month <= 12 && 1 <= d.day <= DaysInMonth(d.year, d.month)
  }

  /** A date that exists in the calendar, from year 1 on. */
  type Date = d: CivilDate | IsValid(d) witness CivilDate(1970, 1, 1)

  function YearLength(y: int): int {
    if IsLeapYear(y) then 366 else 365
  }

  /** Days from 0001-01-01 to January 1st of year `y`. */
  function DaysBeforeYear(y: int): nat
    requires y >= 1
  {
    var p := y - 1;
    365 * p + p / 4 - p / 100 + p / 400
  }

  /** Days from January 1st to the first of month `m` of year `y`. */
  function DaysBeforeMonth(y: int, m: int): nat
    requires 1 <= m <= 12
  {
    var common := if m == 1 then 0 else if m == 2 then 31 else if m == 3 then 59
      else if m == 4 then 90 else if m == 5 then 120 else if m == 6 then 151
      else if m == 7 then 181 else if m == 8 then 212 else if m == 9 then 243
      else if m == 10 then 273 else if m == 11 then 304 else 334;
    common + (if m > 2 && IsLeapYear(y) then 1 else 0)
  }

  /** The number of days from 0001-01-01 to `d`: the reference against which
      the date arithmetic below is stated. */
  function DayNumber(d: Date): nat {
    DaysBeforeYear(d.year) + DaysBeforeMonth(d.year, d.month) + d.day - 1
  }

  lemma DaysBeforeNextYear(y: int)
    requires y >= 1
    ensures DaysBeforeYear(y + 1) == DaysBeforeYear(y) + YearLength(y)
  {
    var p := y - 1;
    assert (p + 1) / 4 == p / 4 + (if y % 4 == 0 then 1 else 0);
    assert (p + 1) / 100 == p / 100 + (if y % 100 == 0 then 1 else 0);
    assert (p + 1) / 400 == p / 400 + (if y % 400 == 0 then 1 else 0);
  }

  /** The calendar month after month `m` of year `y`. */
  function NextMonth(y: int, m: int): (r: (int, int))
    requires 1 <= m <= 12
    ensures 1 <= r.1 <= 12
  {
    if m < 12 then (y, m + 1) else (y + 1, 1)
  }

  function FirstOfMonth(y: int, m: int): Date
    requires y >= 1 && 1 <= m <= 12
  {
    CivilDate(y, m, 1)
  }

  /** The first of the next month lies a whole month after the first of this one. */
  lemma FirstOfNextMonth(y: int, m: int)
    requires y >= 1 && 1 <= m <= 12
    ensures var (y', m') := NextMonth(y, m);
            y' >= 1 && DayNumber(FirstOfMonth(y', m')) == DayNumber(FirstOfMonth(y, m)) + DaysInMonth(y, m)
  {
    if m == 12 { DaysBeforeNextYear(y); }
  }

  /** The day after `d`. */
  function NextDay(d: Date): Date {
    if d.day < DaysInMonth(d.year, d.month) then CivilDate(d.year, d.month, d.day + 1)
    else if d.month < 12 then CivilDate(d.year, d.month + 1, 1)
    else CivilDate(d.year + 1, 1, 1)
  }

  lemma NextDayNumber(d: Date)
    ensures DayNumber(NextDay(d)) == DayNumber(d) + 1
  {
    if d.day == DaysInMonth(d.year, d.month) {
      FirstOfNextMonth(d.year, d.month);
    }
  }

  /** `setDate(getDate() + n)`: the date `n` days after `d`. */
  function AddDays(d: Date, n: nat): Date
    decreases n
  {
    if n == 0 then d else AddDays(NextDay(d), n - 1)
  }

  /** Adding `n` days moves the day number forward by exactly `n`. */
  lemma {:induction false} AddDaysNumber(d: Date, n: nat)
    ensures DayNumber(AddDays(d, n)) == DayNumber(d) + n
    decreases n
  {
    if n > 0 {
      NextDayNumber(d);
      AddDaysNumber(NextDay(d), n - 1);
    }
  }

  /** Adding days in two steps is adding their sum. */
  lemma {:induction false} AddDaysAdditive(d: Date, a: nat, b: nat)
    ensures AddDays(AddDays(d, a), b) == AddDays(d, a + b)
    decreases a
  {
    if a > 0 {
      AddDaysAdditive(NextDay(d), a - 1, b);
    }
  }

  /** Adding days that stay inside the month only changes the day. */
  lemma {:induction false} AddDaysInMonth(d: Date, n: nat)
    requires d.day + n <= DaysInMonth(d.year, d.month)
    ensures AddDays(d, n) == CivilDate(d.year, d.month, d.day + n)
    decreases n
  {
    if n > 0 {
      AddDaysInMonth(NextDay(d), n - 1);
    }
  }

  /** Days before a date's year, and before its month, bound its day number. */
  lemma DaysBeforeYearMonotone(a: int, b: int)
    requires 1 <= a <= b
    ensures DaysBeforeYear(a) + 365 * (b - a) <= DaysBeforeYear(b)
    decreases b - a
  {
    if a < b {
      DaysBeforeNextYear(a);
      DaysBeforeYearMonotone(a + 1, b);
    }
  }

  lemma DayNumberWithinYear(d: Date)
    ensures DaysBeforeYear(d.year) <= DayNumber(d) < DaysBeforeYear(d.year) + YearLength(d.year)
  {
  }

  /** Distinct dates have distinct day numbers, so a date is determined by
      its day number and `AddDays(d, n)` is THE date `n` days after `d`. */
  lemma DayNumberInjective(a: Date, b: Date)
    requires DayNumber(a) == DayNumber(b)
    ensures a == b
  {
    DayNumberWithinYear(a);
    DayNumberWithinYear(b);
    if a.year < b.year {
      DaysBeforeNextYear(a.year);
      DaysBeforeYearMonotone(a.year + 1, b.year);
      assert false;
    } else if b.year < a.year {
      DaysBeforeNextYear(b.year);
      DaysBeforeYearMonotone(b.year + 1, a.year);
      assert false;
    }
  }

  /** `setMonth(getMonth() + k)`: the same day number `k` months later; a day
      that the target month does not have overflows into the month after. */
  function AddMonths(d: Date, k: nat): Date {
    var m0 := d.month - 1 + k;
    AddDays(FirstOfMonth(d.year + m0 / 12, m0 % 12 + 1), d.day - 1)
  }

  /** The month `setMonth(getMonth() + 2)` lands in is the month after next. */
  lemma TwoMonthsTarget(d: Date)
    ensures var (y1, m1) := NextMonth(d.year, d.month);
            var m0 := d.month + 1;
            (d.year + m0 / 12, m0 % 12 + 1) == NextMonth(y1, m1)
  {
  }

  /** Two months after `d` is its day in the month after next when that month
      has it, and otherwise the overflow into the following month. */
  lemma AddTwoMonthsDay(d: Date)
    ensures var (y1, m1) := NextMonth(d.year, d.month);
            var (y2, m2) := NextMonth(y1, m1);
            var r := AddMonths(d, 2);
            && (d.day <= DaysInMonth(y2, m2) ==> r == CivilDate(y2, m2, d.day))
            && (d.day > DaysInMonth(y2, m2) ==>
                  var (y3, m3) := NextMonth(y2, m2);
                  r == CivilDate(y3, m3, d.day - DaysInMonth(y2, m2)))
  {
    var (y1, m1) := NextMonth(d.year, d.month);
    var (y2, m2) := NextMonth(y1, m1);
    TwoMonthsTarget(d);
    var first := FirstOfMonth(y2, m2);
    assert AddMonths(d, 2) == AddDays(first, d.day - 1);
    var len := DaysInMonth(y2, m2);
    if d.day <= len {
      AddDaysInMonth(first, d.day - 1);
    } else {
      AddDaysInMonth(first, len - 1);
      AddDaysAdditive(first, len - 1, d.day - len);
      var (y3, m3) := NextMonth(y2, m2);
      assert AddDays(CivilDate(y2, m2, len), d.day - len) == AddDays(FirstOfMonth(y3, m3), d.day - len - 1);
      AddDaysInMonth(FirstOfMonth(y3, m3), d.day - len - 1);
    }
  }

  /** The span of `AddMonths(d, 2)` is exactly the lengths of `d`'s month and
      of the next one. */
  lemma AddTwoMonthsNumber(d: Date)
    ensures var (y1, m1) := NextMonth(d.year, d.month);
            DayNumber(AddMonths(d, 2)) == DayNumber(d) + DaysInMonth(d.year, d.month) + DaysInMonth(y1, m1)
  {
    var (y1, m1) := NextMonth(d.year, d.month);
    var (y2, m2) := NextMonth(y1, m1);
    TwoMonthsTarget(d);
    var first := FirstOfMonth(y2, m2);
    assert AddMonths(d, 2) == AddDays(first, d.day - 1);
    FirstOfNextMonth(d.year, d.month);
    FirstOfNextMonth(y1, m1);
    AddDaysNumber(first, d.day - 1);
  }

  /** The two-month window always spans between 59 and 62 days. */
  lemma TwoMonthSpan(d: Date)
    ensures DayNumber(d) + 59 <= DayNumber(AddMonths(d, 2)) <= DayNumber(d) + 62
  {
    AddTwoMonthsNumber(d);
  }

  /** `toISOString().slice(0, 10)`: `YYYY-MM-DD`; a year past 9999 is written
      `+YYYYYY`, so the slice then ends after the month. */
  function IsoDate(d: Date): (s: string)
    ensures |s| == 10
  {
    if d.year <= 9999 then Digits(d.year, 4) + "-" + Digits(d.month, 2) + "-" + Digits(d.day, 2)
    else "+" + Digits(d.year, 6) + "-" + Digits(d.month, 2)
  }

  predicate AllDigits(s: string) {
    forall i :: 0 <= i < |s| ==> IsDigit(s[i])
  }

  /** Reads a calendar date written `YYYY-MM-DD`; anything else is rejected. */
  function ParseIsoDate(s: string): (r: Option<Date>)
    ensures r.Some? ==> |s| == 10 && s[4] == '-' && s[7] == '-'
  {
    if |s| == 10 && s[4] == '-' && s[7] == '-' && AllDigits(s[..4]) && AllDigits(s[5..7]) && AllDigits(s[8..]) then
      var d := CivilDate(DigitsValue(s[..4]), DigitsValue(s[5..7]), DigitsValue(s[8..]));
      if IsValid(d) then Some(d) else None
    else None
  }

  /** Reading `YYYY-MM-DD` assembled from digit fields gives the date the
      fields write, when it is a valid date. */
  lemma ParseFields(y: string, m: string, dd: string)
    requires |y| == 4 && |m| == 2 && |dd| == 2
    requires AllDigits(y) && AllDigits(m) && AllDigits(dd)
    ensures var d := CivilDate(DigitsValue(y), DigitsValue(m), DigitsValue(dd));
            IsValid(d) ==> ParseIsoDate(y + "-" + m + "-" + dd) == Some(d)
  {
    var s := y + "-" + m + "-" + dd;
    assert s[..4] == y && s[5..7] == m && s[8..] == dd;
    assert s[4] == '-' && s[7] == '-';
  }

  /** Formatting a date of at most four year digits and reading it back gives the date. */
  lemma IsoDateParses(d: Date)
    requires d.year <= 9999
    ensures ParseIsoDate(IsoDate(d)) == Some(d)
  {
    var y, m, dd := Digits(d.year, 4), Digits(d.month, 2), Digits(d.day, 2);
    DigitsRoundTrip(d.year, 4);
    DigitsRoundTrip(d.month, 2);
    DigitsRoundTrip(d.day, 2);
    ParseFields(y, m, dd);
  }

  /** A string of digits is the zero-padded form of the number it writes. */
  lemma {:induction false} DigitsOfValue(s: string)
    requires AllDigits(s)
    ensures Digits(DigitsValue(s), |s|) == s
    decreases |s|
  {
    if s != [] {
      var init := s[..|s| - 1];
      DigitsOfValue(init);
      var n := DigitsValue(s);
      assert n / 10 == DigitsValue(init) && n % 10 == DigitValue(s[|s| - 1]);
      assert s == init + [s[|s| - 1]];
    }
  }

  /** A string that parses is the ISO form of the date it denotes: reading a
      `YYYY-MM-DD` day and formatting it again changes nothing. */
  lemma ParsedIsoDateFormats(s: string)
    requires ParseIsoDate(s).Some?
    ensures IsoDate(ParseIsoDate(s).value) == s
  {
    DigitsOfValue(s[..4]);
    DigitsOfValue(s[5..7]);
    DigitsOfValue(s[8..]);
    assert DigitsValue(s[..4]) < 10000 by { DigitsBound(s[..4]); }
    assert s == s[..4] + "-" + s[5..7] + "-" + s[8..];
  }

  lemma {:induction false} DigitsBound(s: string)
    requires AllDigits(s)
    ensures DigitsValue(s) < Pow10(|s|)
    decreases |s|
  {
    if s != [] { DigitsBound(s[..|s| - 1]); }
  }

  /** Day of the week, 0 for Sunday; 0001-01-01 was a Monday. */
  function Weekday(d: Date): (w: nat)
    ensures w < 7
  {
    (DayNumber(d) + 1) % 7
  }

  function WeekdayName(w: nat): string
    requires w < 7
  {
    ["Sun", "Mon", "Tue", "Wed", "Thu", "Fri", "Sat"][w]
  }

  function MonthName(m: int): string
    requires 1 <= m <= 12
  {
    ["Jan", "Feb", "Mar", "Apr", "May", "Jun", "Jul", "Aug", "Sep", "Oct", "Nov", "Dec"][m - 1]
  }

  /** `String(date)` for a date at midnight on a UTC host, the form a `Date`
      takes when it is interpolated into a template string:
      `Wed Mar 10 2021 00:00:00 GMT+0000 (Coordinated Universal Time)`. The
      year is padded to four digits and otherwise written with as many
      digits as it has. */
  function DateObjectString(d: Date): (s: string)
    ensures |s| > 10 && s[3] == ' '
  {
    WeekdayName(Weekday(d)) + " " + MonthName(d.month) + " " + Digits(d.day, 2) + " "
      + Digits(d.year, if d.year <= 9999 then 4 else DigitCount(d.year))
      + " 00:00:00 GMT+0000 (Coordinated Universal Time)"
  }

  /** The default string form of a date is never a `YYYY-MM-DD` date. */
  lemma DateObjectStringIsNotIso(d: Date, e: Date)
    ensures ParseIsoDate(DateObjectString(d)) == None
    ensures DateObjectString(d) != IsoDate(e)
  {
    var s := DateObjectString(d);
    assert s[4] == MonthName(d.month)[0];
    if e.year <= 9999 {
      assert IsoDate(e)[3] == Digits(e.year, 4)[3];
    } else {
      assert IsoDate(e)[3] == Digits(e.year, 6)[2];
    }
  }
}
