/**
 * Instants, fixed-offset locations and calendar dates.
 *
 * An instant counts whole seconds from the first second of year 0 in UTC; a location is its
 * fixed offset from UTC in seconds. Day 0 is the first day of year 0.
 */
module Calendar {
  import opened Text

  const MINUTE := 60
  const HOUR := 3600
  const DAY := 86400

  datatype Time = Time(instant: int, offset: int)

  datatype Date = Date(year: int, month: nat, day: nat)

  function In(t: Time, loc: int): Time {
    Time(t.instant, loc)
  }

  /** The number of the calendar day that t shows on a wall clock at its own location. */
  function LocalDay(t: Time): int {
    (t.instant + t.offset) / DAY
  }

  function StartOfDay(day: int, loc: int): Time {
    Time(day * DAY - loc, loc)
  }

  function NormalizeDateInTimezone(t: Time, loc: int): Time {
    StartOfDay(LocalDay(In(t, loc)), loc)
  }

  function NormalizeDateUTC(t: Time): Time {
    StartOfDay(LocalDay(t), 0)
  }

  /** Whole days of a duration, truncated towards zero. */
  function WholeDays(duration: int): int {
    if duration >= 0 then duration / DAY else -((-duration) / DAY)
  }

  function DaysUntilFrom(now: Time, target: Time, loc: int): int {
    WholeDays(NormalizeDateInTimezone(target, loc).instant - NormalizeDateInTimezone(now, loc).instant)
  }

  /** Truncation never shows: the result is the exact difference of the two local day numbers. */
  lemma DaysUntilIsDayDifference(now: Time, target: Time, loc: int)
    ensures DaysUntilFrom(now, target, loc) == LocalDay(In(target, loc)) - LocalDay(In(now, loc))
  {
  }

  lemma NormalizingKeepsTheDay(t: Time, loc: int)
    ensures LocalDay(NormalizeDateInTimezone(t, loc)) == LocalDay(In(t, loc))
    ensures LocalDay(NormalizeDateUTC(t)) == LocalDay(t)
    ensures NormalizeDateInTimezone(NormalizeDateInTimezone(t, loc), loc) == NormalizeDateInTimezone(t, loc)
    ensures NormalizeDateUTC(NormalizeDateUTC(t)) == NormalizeDateUTC(t)
  {
  }

  // ---- civil dates ----

  predicate IsLeap(year: int) {
    year % 4 == 0 && (year % 100 != 0 || year % 400 == 0)
  }

  function YearLength(year: int): nat {
    if IsLeap(year) then 366 else 365
  }

  function MonthLength(year: int, month: nat): nat {
    if month == 2 then (if IsLeap(year) then 29 else 28)
    else if month in {4, 6, 9, 11} then 30
    else 31
  }

  function DaysBeforeMonth(year: int, month: nat): nat {
    if month <= 1 then 0 else DaysBeforeMonth(year, month - 1) + MonthLength(year, month - 1)
  }

  function DaysBeforeYear(year: int): int
    decreases if year < 0 then -year else year
  {
    if year == 0 then 0
    else if year > 0 then DaysBeforeYear(year - 1) + YearLength(year - 1)
    else DaysBeforeYear(year + 1) - YearLength(year)
  }

  function DateInYear(n: nat, year: int, month: nat): Date
    requires 1 <= month <= 12
    decreases 12 - month
  {
    if month == 12 || n < MonthLength(year, month) then Date(year, month, n + 1)
    else DateInYear(n - MonthLength(year, month), year, month + 1)
  }

  function DateForward(n: nat, year: int): Date
    decreases n
  {
    if n < YearLength(year) then DateInYear(n, year, 1) else DateForward(n - YearLength(year), year + 1)
  }

  function DateBackward(n: int, year: int): Date
    requires n < 0
    decreases -n
  {
    var m := n + YearLength(year);
    if m >= 0 then DateInYear(m, year, 1) else DateBackward(m, year - 1)
  }

  /** The date of a day number, in the proleptic Gregorian calendar of package time. */
  function CivilDate(day: int): Date {
    if day >= 0 then DateForward(day, 0) else DateBackward(day, -1)
  }

  function DayNumber(d: Date): int {
    DaysBeforeYear(d.year) + DaysBeforeMonth(d.year, d.month) + d.day - 1
  }

  predicate IsCalendarDate(d: Date) {
    1 <= d.month <= 12 && 1 <= d.day <= MonthLength(d.year, d.month)
  }

  lemma {:induction false} DateInYearIsInverse(n: nat, year: int, month: nat)
    requires 1 <= month <= 12
    requires DaysBeforeMonth(year, month) + n < YearLength(year)
    ensures var d := DateInYear(n, year, month);
            IsCalendarDate(d) && d.year == year &&
            DaysBeforeMonth(year, d.month) + d.day - 1 == DaysBeforeMonth(year, month) + n
    decreases 12 - month
  {
    if month == 12 {
      DaysBeforeDecember(year);
    } else if n >= MonthLength(year, month) {
      DateInYearIsInverse(n - MonthLength(year, month), year, month + 1);
    }
  }

  lemma DaysBeforeDecember(year: int)
    ensures DaysBeforeMonth(year, 12) + 31 == YearLength(year)
  {
    assert DaysBeforeMonth(year, 2) == 31;
    assert DaysBeforeMonth(year, 3) == 31 + MonthLength(year, 2);
    assert DaysBeforeMonth(year, 5) == DaysBeforeMonth(year, 3) + 61;
    assert DaysBeforeMonth(year, 7) == DaysBeforeMonth(year, 5) + 61;
    assert DaysBeforeMonth(year, 9) == DaysBeforeMonth(year, 7) + 62;
    assert DaysBeforeMonth(year, 11) == DaysBeforeMonth(year, 9) + 61;
  }

  lemma {:induction false} DateForwardIsInverse(n: nat, year: nat)
    ensures IsCalendarDate(DateForward(n, year))
    ensures DayNumber(DateForward(n, year)) == DaysBeforeYear(year) + n
    decreases n
  {
    if n < YearLength(year) {
      DateInYearIsInverse(n, year, 1);
    } else {
      DateForwardIsInverse(n - YearLength(year), year + 1);
    }
  }

  lemma {:induction false} DateBackwardIsInverse(n: int, year: int)
    requires n < 0 && year < 0
    ensures IsCalendarDate(DateBackward(n, year))
    ensures DayNumber(DateBackward(n, year)) == DaysBeforeYear(year + 1) + n
    decreases -n
  {
    var m := n + YearLength(year);
    if m >= 0 {
      DateInYearIsInverse(m, year, 1);
    } else {
      DateBackwardIsInverse(m, year - 1);
    }
  }

  lemma CivilDateIsInverse(day: int)
    ensures IsCalendarDate(CivilDate(day))
    ensures DayNumber(CivilDate(day)) == day
  {
    if day >= 0 {
      DateForwardIsInverse(day, 0);
    } else {
      DateBackwardIsInverse(day, -1);
    }
  }

  // ---- Format("2006-01-02") ----

  function YearText(year: int): string {
    if year < 0 then "-" + PadZero(Decimal(-year), 4) else PadZero(Decimal(year), 4)
  }

  function FormatDate(d: Date): string {
    YearText(d.year) + "-" + PadZero(Decimal(d.month), 2) + "-" + PadZero(Decimal(d.day), 2)
  }

  function ParseYear(s: string): int {
    if s != [] && s[0] == '-' then 0 - ParseDecimal(s[1..]) else ParseDecimal(s)
  }

  function ParseDate(s: string): Date {
    var n := |s|;
    if n < 6 then Date(0, 0, 0)
    else Date(ParseYear(s[..n - 6]), ParseDecimal(s[n - 5..n - 3]), ParseDecimal(s[n - 2..]))
  }

  lemma YearTextRoundTrip(year: int)
    ensures ParseYear(YearText(year)) == year
    ensures forall c | c in YearText(year) :: IsDigit(c) || c == '-'
  {
    var n: nat := if year < 0 then -year else year;
    DecimalRoundTrip(n);
    PadZeroKeepsValue(Decimal(n), 4);
    var digits := PadZero(Decimal(n), 4);
    if year < 0 {
      assert ("-" + digits)[1..] == digits;
    } else {
      assert digits[0] in digits;
    }
  }

  lemma TwoDigits(n: nat)
    requires n < 100
    ensures var s := PadZero(Decimal(n), 2);
            |s| == 2 && ParseDecimal(s) == n && forall c | c in s :: IsDigit(c)
  {
    DecimalRoundTrip(n);
    PadZeroKeepsValue(Decimal(n), 2);
    assert n >= 10 ==> Decimal(n / 10) == [Digit(n / 10)];
  }

  lemma FormatDateRoundTrip(d: Date)
    requires IsCalendarDate(d)
    ensures ParseDate(FormatDate(d)) == d
    ensures forall c | c in FormatDate(d) :: IsDigit(c) || c == '-'
  {
    YearTextRoundTrip(d.year);
    TwoDigits(d.month);
    TwoDigits(d.day);
    var y, m, t := YearText(d.year), PadZero(Decimal(d.month), 2), PadZero(Decimal(d.day), 2);
    var s := FormatDate(d);
    assert s[..|s| - 6] == y && s[|s| - 5..|s| - 3] == m && s[|s| - 2..] == t;
  }

  /** The day a formatted date stands for is recovered from its text. */
  lemma DayTextRoundTrip(day: int)
    ensures DayNumber(ParseDate(FormatDate(CivilDate(day)))) == day
    ensures forall c | c in FormatDate(CivilDate(day)) :: IsDigit(c) || c == '-'
  {
    CivilDateIsInverse(day);
    FormatDateRoundTrip(CivilDate(day));
  }

  // ---- it is the Gregorian calendar ----

  /** The days before a year, in closed form: a leap day every four years, but not in three of four centuries. */
  lemma {:induction false} DaysBeforeYearExactly(year: int)
    ensures DaysBeforeYear(year) == 365 * year + (year + 3) / 4 - (year + 99) / 100 + (year + 399) / 400
    decreases if year < 0 then -year else year
  {
    if year > 0 {
      DaysBeforeYearExactly(year - 1);
      LeapDays(year - 1);
    } else if year < 0 {
      DaysBeforeYearExactly(year + 1);
      LeapDays(year);
    }
  }

  lemma LeapDays(year: int)
    ensures YearLength(year) - 365
            == ((year + 4) / 4 - (year + 3) / 4) - ((year + 100) / 100 - (year + 99) / 100)
               + ((year + 400) / 400 - (year + 399) / 400)
  {
    NextMultipleOf4(year);
    NextMultipleOf100(year);
    NextMultipleOf400(year);
    MultiplesOfMultiples(year);
  }

  lemma NextMultipleOf4(year: int)
    ensures (year + 4) / 4 - (year + 3) / 4 == if year % 4 == 0 then 1 else 0
  {
    var q, r := year / 4, year % 4;
    assert year + 3 == 4 * q + (r + 3) && year + 4 == 4 * (q + 1) + r;
  }

  lemma NextMultipleOf100(year: int)
    ensures (year + 100) / 100 - (year + 99) / 100 == if year % 100 == 0 then 1 else 0
  {
    var q, r := year / 100, year % 100;
    assert year + 99 == 100 * q + (r + 99) && year + 100 == 100 * (q + 1) + r;
  }

  lemma NextMultipleOf400(year: int)
    ensures (year + 400) / 400 - (year + 399) / 400 == if year % 400 == 0 then 1 else 0
  {
    var q, r := year / 400, year % 400;
    assert year + 399 == 400 * q + (r + 399) && year + 400 == 400 * (q + 1) + r;
  }

  lemma MultiplesOfMultiples(year: int)
    ensures year % 100 == 0 ==> year % 4 == 0
    ensures year % 400 == 0 ==> year % 100 == 0
  {
    assert year == 100 * (year / 100) + year % 100 && 100 * (year / 100) == 4 * (25 * (year / 100));
    assert year == 400 * (year / 400) + year % 400 && 400 * (year / 400) == 100 * (4 * (year / 400));
  }

  /** The days before a month, in closed form: from March on, five months have 153 days. */
  lemma DaysBeforeMonthExactly(year: int, month: nat)
    requires 1 <= month <= 12
    ensures DaysBeforeMonth(year, month)
            == if month <= 2 then 31 * (month - 1)
               else (153 * (month - 3) + 2) / 5 + 59 + (YearLength(year) - 365)
  {
    assert DaysBeforeMonth(year, 2) == 31;
    assert DaysBeforeMonth(year, 3) == 31 + MonthLength(year, 2);
    assert DaysBeforeMonth(year, 4) == DaysBeforeMonth(year, 3) + 31;
    assert DaysBeforeMonth(year, 5) == DaysBeforeMonth(year, 4) + 30;
    assert DaysBeforeMonth(year, 6) == DaysBeforeMonth(year, 5) + 31;
    assert DaysBeforeMonth(year, 7) == DaysBeforeMonth(year, 6) + 30;
    assert DaysBeforeMonth(year, 8) == DaysBeforeMonth(year, 7) + 31;
    assert DaysBeforeMonth(year, 9) == DaysBeforeMonth(year, 8) + 31;
    assert DaysBeforeMonth(year, 10) == DaysBeforeMonth(year, 9) + 30;
    assert DaysBeforeMonth(year, 11) == DaysBeforeMonth(year, 10) + 31;
    assert DaysBeforeMonth(year, 12) == DaysBeforeMonth(year, 11) + 30;
  }

  /** The first day of 1970 is day 719528. */
  lemma UnixEpoch(day: int, year: int)
    requires day == 719528 && year == 1970
    ensures CivilDate(day) == Date(year, 1, 1)
  {
    DaysBeforeYearExactly(year);
    DateIsTheOnlyOne(day, Date(year, 1, 1));
  }

  /** The calendar date that counts back to a day is the date of that day. */
  lemma DateIsTheOnlyOne(day: int, d: Date)
    requires IsCalendarDate(d) && DayNumber(d) == day
    ensures CivilDate(day) == d
  {
    CivilDateIsInverse(day);
    OneDatePerDay(CivilDate(day), d);
  }

  /** Two calendar dates with the same day number are the same date. */
  lemma OneDatePerDay(a: Date, b: Date)
    requires IsCalendarDate(a) && IsCalendarDate(b) && DayNumber(a) == DayNumber(b)
    ensures a == b
  {
    hide DaysBeforeYear, DaysBeforeMonth, MonthLength;
    WithinItsYear(a);
    WithinItsYear(b);
    if a.year < b.year { YearsAscend(a.year + 1, b.year); }
    if b.year < a.year { YearsAscend(b.year + 1, a.year); }
    if a.month < b.month { MonthsAscend(a.year, a.month + 1, b.month); }
    if b.month < a.month { MonthsAscend(a.year, b.month + 1, a.month); }
    MonthAfter(a.year, a.month);
    MonthAfter(b.year, b.month);
  }

  lemma MonthAfter(year: int, month: nat)
    requires month >= 1
    ensures DaysBeforeMonth(year, month + 1) == DaysBeforeMonth(year, month) + MonthLength(year, month)
  {
  }

  lemma {:induction false} MonthsAscend(year: int, a: nat, b: nat)
    requires 1 <= a <= b
    ensures DaysBeforeMonth(year, a) <= DaysBeforeMonth(year, b)
  {
    if a < b { MonthsAscend(year, a, b - 1); }
  }

  lemma WithinItsYear(d: Date)
    requires IsCalendarDate(d)
    ensures DaysBeforeYear(d.year) <= DayNumber(d) < DaysBeforeYear(d.year + 1)
  {
    DaysBeforeMonthExactly(d.year, d.month);
    assert DaysBeforeYear(d.year + 1) == DaysBeforeYear(d.year) + YearLength(d.year);
  }

  lemma {:induction false} YearsAscend(a: int, b: int)
    requires a <= b
    ensures DaysBeforeYear(a) <= DaysBeforeYear(b)
    decreases b - a
  {
    if a < b {
      YearsAscend(a, b - 1);
      assert DaysBeforeYear(b) == DaysBeforeYear(b - 1) + YearLength(b - 1);
    }
  }

  /** A printed date has four digits for its year, up to year 9999, and two for its month and its day. */
  lemma FormatDateShape(d: Date)
    requires IsCalendarDate(d) && 0 <= d.year <= 9999
    ensures var s := FormatDate(d);
            |s| == 10 && s[4] == '-' && s[7] == '-' && ParseDecimal(s[..4]) == d.year
            && ParseDecimal(s[5..7]) == d.month && ParseDecimal(s[8..]) == d.day
  {
    var y := d.year;
    assert |Decimal(y)| <= 4 by {
      assert |Decimal(y / 1000)| == 1;
      assert y >= 10 ==> |Decimal(y)| == |Decimal(y / 10)| + 1;
      assert y >= 100 ==> |Decimal(y / 10)| == |Decimal(y / 10 / 10)| + 1;
      assert y >= 1000 ==> |Decimal(y / 10 / 10)| == |Decimal(y / 10 / 10 / 10)| + 1;
    }
    DecimalRoundTrip(y);
    PadZeroKeepsValue(Decimal(y), 4);
    TwoDigits(d.month);
    TwoDigits(d.day);
    hide Decimal, PadZero, ParseDecimal;
    var a, b, c := PadZero(Decimal(y), 4), PadZero(Decimal(d.month), 2), PadZero(Decimal(d.day), 2);
    assert FormatDate(d)[..4] == a && FormatDate(d)[5..7] == b && FormatDate(d)[8..] == c;
  }
}
