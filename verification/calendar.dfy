/** Day-of-year to calendar date, as `set_date` does it with Python's
    `strptime('%Y%j')` and `strftime('%Y%m%d')`, and the month number and
    day-of-month read back from the eight-character date. */
module Calendar {
  import opened Outcomes
  import opened Text

  type Month = m: int | 1 <= m <= 12 witness 1

  type DayOfMonth = d: int | 1 <= d <= 31 witness 1

  /** Gregorian leap-year rule. */
  predicate IsLeap(y: int) {
    y % 4 == 0 && (y % 100 != 0 || y % 400 == 0)
  }

  /** Days in a year, leap or not. */
  function YearLength(leap: bool): nat {
    if leap then 366 else 365
  }

  function DaysInYear(y: int): nat {
    YearLength(IsLeap(y))
  }

  /** Days in month `m` of a year, leap or not. */
  function MonthLength(leap: bool, m: Month): nat {
    if m == 2 then (if leap then 29 else 28)
    else if m == 4 || m == 6 || m == 9 || m == 11 then 30
    else 31
  }

  /** Days of a year, leap or not, before the first of month `m` (`m` = 13:
      the whole year). */
  function DaysBefore(leap: bool, m: int): nat
    requires 1 <= m <= 13
  {
    if m == 1 then 0 else DaysBefore(leap, m - 1) + MonthLength(leap, m - 1)
  }

  lemma YearEnd(leap: bool)
    ensures DaysBefore(leap, 13) == YearLength(leap)
  {
    var extra := if leap then 1 else 0;
    assert DaysBefore(leap, 2) == 31;
    assert DaysBefore(leap, 3) == 59 + extra;
    assert DaysBefore(leap, 4) == 90 + extra;
    assert DaysBefore(leap, 5) == 120 + extra;
    assert DaysBefore(leap, 6) == 151 + extra;
    assert DaysBefore(leap, 7) == 181 + extra;
    assert DaysBefore(leap, 8) == 212 + extra;
    assert DaysBefore(leap, 9) == 243 + extra;
    assert DaysBefore(leap, 10) == 273 + extra;
    assert DaysBefore(leap, 11) == 304 + extra;
    assert DaysBefore(leap, 12) == 334 + extra;
  }

  /** Later months start later: every month before `b`, from `a` on, is whole. */
  lemma {:induction false} DaysBeforeGrows(leap: bool, a: Month, b: int)
    requires a < b <= 13
    ensures DaysBefore(leap, a) + MonthLength(leap, a) <= DaysBefore(leap, b)
    decreases b - a
  {
    if a + 1 < b {
      DaysBeforeGrows(leap, a, b - 1);
    }
  }

  /** The day of year `rem` days into month `m`, as (month, day of month). */
  function Locate(leap: bool, m: Month, rem: int): (md: (Month, int))
    requires 1 <= rem && DaysBefore(leap, m) + rem <= YearLength(leap)
    ensures m <= md.0 && 1 <= md.1 <= MonthLength(leap, md.0)
    ensures DaysBefore(leap, md.0) + md.1 == DaysBefore(leap, m) + rem
    decreases 12 - m
  {
    YearEnd(leap);
    if rem <= MonthLength(leap, m) then (m, rem)
    else Locate(leap, m + 1, rem - MonthLength(leap, m))
  }

  /** A calendar date, as `strftime` spells it. */
  datatype Date = Date(year: int, month: int, day: int)

  predicate ValidDate(d: Date) {
    1 <= d.month <= 12 && 1 <= d.day <= MonthLength(IsLeap(d.year), d.month)
  }

  /** Position of a date in its year, January 1 being 1. */
  function DayOfYear(d: Date): nat
    requires ValidDate(d)
  {
    DaysBefore(IsLeap(d.year), d.month) + d.day
  }

  /** The `doy`-th day of year `y`. */
  function DateOf(y: int, doy: int): (d: Date)
    requires 1 <= doy <= DaysInYear(y)
    ensures d.year == y && ValidDate(d) && DayOfYear(d) == doy
  {
    var md := Locate(IsLeap(y), 1, doy);
    Date(y, md.0, md.1)
  }

  /** A valid date falls within its year. */
  lemma DayOfYearBound(d: Date)
    requires ValidDate(d)
    ensures DayOfYear(d) <= DaysInYear(d.year)
  {
    YearEnd(IsLeap(d.year));
    DaysBeforeGrows(IsLeap(d.year), d.month, 13);
  }

  /** Two valid dates of one year at the same position are the same date. */
  lemma DayOfYearInjective(a: Date, b: Date)
    requires ValidDate(a) && ValidDate(b) && a.year == b.year
    requires DayOfYear(a) == DayOfYear(b)
    ensures a == b
  {
    var leap := IsLeap(a.year);
    if a.month < b.month {
      DaysBeforeGrows(leap, a.month, b.month);
    } else if b.month < a.month {
      DaysBeforeGrows(leap, b.month, a.month);
    }
  }

  /** Every date of a year is the `DayOfYear`-th day of that year. */
  lemma DateOfDayOfYear(d: Date)
    requires ValidDate(d)
    ensures DayOfYear(d) <= DaysInYear(d.year)
    ensures DateOf(d.year, DayOfYear(d)) == d
  {
    DayOfYearBound(d);
    DayOfYearInjective(DateOf(d.year, DayOfYear(d)), d);
  }

  /** `strftime('%Y%m%d')` of a date with a four-digit year. */
  function Ymd(d: Date): string
    requires 0 <= d.year && 0 <= d.month && 0 <= d.day
  {
    ZeroPad(d.year, 4) + ZeroPad(d.month, 2) + ZeroPad(d.day, 2)
  }

  predicate IsYmd(s: string) {
    |s| == 8 && AllDigits(s)
  }

  /** `int(x[:4])`: the year of an eight-character date. */
  function YearNum(s: string): nat
    requires IsYmd(s)
  {
    ParseNat(s[..4])
  }

  /** `int(x[4:6])`: the month number of an eight-character date. */
  function MonthNum(s: string): nat
    requires IsYmd(s)
  {
    ParseNat(s[4..6])
  }

  /** `int(x[6:8])`: the day of month of an eight-character date. */
  function DayNum(s: string): nat
    requires IsYmd(s)
  {
    ParseNat(s[6..8])
  }

  /** The three digit fields of an eight-character date sit at 0..4, 4..6
      and 6..8. */
  lemma FieldSlices(y: string, m: string, d: string)
    requires AllDigits(y) && AllDigits(m) && AllDigits(d)
    requires |y| == 4 && |m| == 2 && |d| == 2
    ensures IsYmd(y + m + d)
    ensures (y + m + d)[..4] == y && (y + m + d)[4..6] == m && (y + m + d)[6..8] == d
  {
    var s := y + m + d;
    assert s[..4] == y;
    assert s[4..6] == m;
    assert s[6..8] == d;
  }

  /** Reading the fields back from a formatted date gives the date. */
  lemma YmdFields(d: Date)
    requires 1000 <= d.year <= 9999 && 1 <= d.month <= 12 && 1 <= d.day <= 31
    ensures IsYmd(Ymd(d))
    ensures YearNum(Ymd(d)) == d.year && MonthNum(Ymd(d)) == d.month && DayNum(Ymd(d)) == d.day
  {
    assert Pow10(4) == 10000 && Pow10(2) == 100;
    DigitsWithin(d.year, 4);
    DigitsWithin(d.month, 2);
    DigitsWithin(d.day, 2);
    FieldSlices(ZeroPad(d.year, 4), ZeroPad(d.month, 2), ZeroPad(d.day, 2));
  }

  /** `set_date(year, day)`: the `YYYYMMDD` text of day `day` of `year`.
      `strptime` rejects day numbers outside 1..366; a day 366 of a common
      year is read as January 1 of the next year, which does not exist
      past year 9999. */
  function SetDate(year: int, day: int): (r: Result<string>)
    requires 1000 <= year <= 9999
    ensures r.Ok? <==> 1 <= day <= DaysInYear(year) || (day == 366 && year < 9999)
    ensures r.Err? ==> r.fault == ValueError
    ensures r.Ok? ==> IsYmd(r.value)
    ensures 1 <= day <= DaysInYear(year) ==>
      && r.Ok?
      && YearNum(r.value) == year
      && 1 <= MonthNum(r.value) <= 12
      && 1 <= DayNum(r.value) <= MonthLength(IsLeap(year), MonthNum(r.value))
      && DaysBefore(IsLeap(year), MonthNum(r.value)) + DayNum(r.value) == day
    ensures DaysInYear(year) < day == 366 && year < 9999 ==>
      r.Ok? && YearNum(r.value) == year + 1 && MonthNum(r.value) == 1 && DayNum(r.value) == 1
  {
    if day < 1 || day > 366 then Err(ValueError)
    else if day > DaysInYear(year) then
      if year == 9999 then Err(ValueError)
      else
        YmdFields(Date(year + 1, 1, 1));
        Ok(Ymd(Date(year + 1, 1, 1)))
    else
      var d := DateOf(year, day);
      YmdFields(d);
      Ok(Ymd(d))
  }

  /** The month and day read back from `set_date` name the date whose day of
      year was asked for: the conversion inverts `DayOfYear`. */
  lemma SetDateInvertsDayOfYear(d: Date)
    requires ValidDate(d) && 1000 <= d.year <= 9999
    ensures SetDate(d.year, DayOfYear(d)).Ok?
    ensures MonthNum(SetDate(d.year, DayOfYear(d)).value) == d.month
    ensures DayNum(SetDate(d.year, DayOfYear(d)).value) == d.day
  {
    DateOfDayOfYear(d);
    YmdFields(d);
  }

  /** Day 1 is January 1; in a leap year day 366 is December 31; in a common
      year day 366 rolls over into January 1 of the following year. */
  lemma SetDateEdges(year: int)
    requires 1000 <= year < 9999
    ensures MonthNum(SetDate(year, 1).value) == 1 && DayNum(SetDate(year, 1).value) == 1
    ensures IsLeap(year) ==>
      MonthNum(SetDate(year, 366).value) == 12 && DayNum(SetDate(year, 366).value) == 31
    ensures !IsLeap(year) ==>
      YearNum(SetDate(year, 366).value) == year + 1 && MonthNum(SetDate(year, 366).value) == 1
  {
    var s := SetDate(year, 1).value;
    if MonthNum(s) > 1 {
      DaysBeforeGrows(IsLeap(year), 1, MonthNum(s));
    }
    if IsLeap(year) {
      var t := SetDate(year, 366).value;
      YearEnd(true);
      if MonthNum(t) < 12 {
        DaysBeforeGrows(true, MonthNum(t), 12);
      }
    }
  }

  /** The day column name `'dayval%s' % n` of the daily table. */
  function DayLabel(d: nat): string {
    "dayval" + Digits(d)
  }

  /** Distinct days of the month name distinct day columns. */
  lemma DayLabelInjective(a: nat, b: nat)
    requires DayLabel(a) == DayLabel(b)
    ensures a == b
  {
    assert DayLabel(a)[6..] == Digits(a);
    assert DayLabel(b)[6..] == Digits(b);
  }
}
