/** The slice of `java.time` the core relies on: proleptic Gregorian dates
    (`LocalDate`), minute-of-day times, date-times and the month enum.
    Instants are minute counts, `Ordinal(date) * 1440 + minuteOfDay`, so
    "24 hours later" is `+ 1440` and "7 days later" is `+ 10080`. */
module Calendar {

  const MinutesPerDay: int := 1440
  const MinutesPerWeek: int := 7 * 1440

  predicate IsLeapYear(y: int) {
    y % 4 == 0 && (y % 100 != 0 || y % 400 == 0)
  }

  /** `YearMonth.lengthOfMonth()`. */
  function DaysInMonth(y: int, m: int): (n: int)
    requires 1 <= m <= 12
    ensures 28 <= n <= 31
    ensures m == 2 ==> (n == 29 <==> IsLeapYear(y))
  {
    if m == 2 then (if IsLeapYear(y) then 29 else 28)
    else if m == 4 || m == 6 || m == 9 || m == 11 then 30
    else 31
  }

  function YearLength(y: int): int {
    if IsLeapYear(y) then 366 else 365
  }

  datatype CalendarDate = CalendarDate(year: int, month: int, day: int)

  /** A `LocalDate`: a year, a month 1..12 and a day that exists in that month. */
  type Date = d: CalendarDate | 1 <= d.month <= 12 && 1 <= d.day <= DaysInMonth(d.year, d.month)
    witness CalendarDate(2000, 1, 1)

  /** `LocalDate.isBefore`: chronological, i.e. lexicographic on (year, month, day). */
  predicate Before(a: Date, b: Date) {
    a.year < b.year
    || (a.year == b.year && a.month < b.month)
    || (a.year == b.year && a.month == b.month && a.day < b.day)
  }

  function DaysBeforeMonth(y: int, m: int): (n: int)
    requires 1 <= m <= 12
    ensures 0 <= n && n + DaysInMonth(y, m) <= YearLength(y)
  {
    [0, 31, 59, 90, 120, 151, 181, 212, 243, 273, 304, 334][m - 1]
    + (if m > 2 && IsLeapYear(y) then 1 else 0)
  }

  /** Days from an arbitrary fixed origin to January 1st of `y`; floor
      division makes the leap-year count right for every integer year. */
  function YearStart(y: int): int {
    365 * y + (y - 1) / 4 - (y - 1) / 100 + (y - 1) / 400
  }

  lemma DaysBeforeMonthStep(y: int, m: int)
    requires 1 <= m < 12
    ensures DaysBeforeMonth(y, m + 1) == DaysBeforeMonth(y, m) + DaysInMonth(y, m)
  {
  }

  lemma Div4Step(y: int)
    ensures y / 4 - (y - 1) / 4 == (if y % 4 == 0 then 1 else 0)
  {
  }

  lemma Div100Step(y: int)
    ensures y / 100 - (y - 1) / 100 == (if y % 100 == 0 then 1 else 0)
  {
  }

  lemma Div400Step(y: int)
    ensures y / 400 - (y - 1) / 400 == (if y % 400 == 0 then 1 else 0)
  {
  }

  lemma YearStartStep(y: int)
    ensures YearStart(y + 1) == YearStart(y) + YearLength(y)
  {
    Div4Step(y);
    Div100Step(y);
    Div400Step(y);
    assert y % 400 == 0 ==> y % 100 == 0 && y % 4 == 0;
    assert y % 100 == 0 ==> y % 4 == 0;
  }

  lemma {:induction false} YearStartMonotone(y1: int, y2: int)
    requires y1 < y2
    ensures YearStart(y1) + YearLength(y1) <= YearStart(y2)
    decreases y2 - y1
  {
    YearStartStep(y1);
    if y1 + 1 < y2 {
      YearStartMonotone(y1 + 1, y2);
    }
  }

  /** The day number of a date (`toEpochDay` up to a constant). */
  function Ordinal(d: Date): int {
    YearStart(d.year) + DaysBeforeMonth(d.year, d.month) + d.day - 1
  }

  lemma {:induction false} DaysBeforeMonthMonotone(y: int, m1: int, m2: int)
    requires 1 <= m1 < m2 <= 12
    ensures DaysBeforeMonth(y, m1) + DaysInMonth(y, m1) <= DaysBeforeMonth(y, m2)
    decreases m2 - m1
  {
    DaysBeforeMonthStep(y, m1);
    if m1 + 1 < m2 {
      DaysBeforeMonthMonotone(y, m1 + 1, m2);
    }
  }

  /** The ordinal orders dates exactly as `isBefore` does. */
  lemma OrdinalOrder(a: Date, b: Date)
    ensures Before(a, b) <==> Ordinal(a) < Ordinal(b)
    ensures a == b <==> Ordinal(a) == Ordinal(b)
  {
    if a.year < b.year {
      YearStartMonotone(a.year, b.year);
    } else if b.year < a.year {
      YearStartMonotone(b.year, a.year);
    } else if a.month < b.month {
      DaysBeforeMonthMonotone(a.year, a.month, b.month);
    } else if b.month < a.month {
      DaysBeforeMonthMonotone(a.year, b.month, a.month);
    }
  }

  /** A point in local time at minute granularity (`LocalDateTime` with the
      seconds dropped). */
  datatype DateTime = DateTime(date: Date, minuteOfDay: MinuteOfDay)

  /** A `LocalTime` at minute granularity: 00:00 is 0, 23:59 is 1439. */
  type MinuteOfDay = m: int | 0 <= m < 1440

  function Instant(t: DateTime): int {
    Ordinal(t.date) * MinutesPerDay + t.minuteOfDay
  }

  /** `now.minusMonths(1)` reduced to its year and month. */
  function PreviousMonth(year: int, month: int): (r: (int, int))
    requires 1 <= month <= 12
    ensures 1 <= r.1 <= 12
    ensures r.0 * 12 + r.1 == year * 12 + month - 1
  {
    if month == 1 then (year - 1, 12) else (year, month - 1)
  }

  /** `Month.name()`: the English month name in capitals. */
  function MonthName(m: int): (s: string)
    requires 1 <= m <= 12
    ensures 3 <= |s| <= 9
    ensures forall i :: 0 <= i < |s| ==> 'A' <= s[i] <= 'Z'
  {
    if m == 1 then "JANUARY" else if m == 2 then "FEBRUARY"
    else if m == 3 then "MARCH" else if m == 4 then "APRIL"
    else if m == 5 then "MAY" else if m == 6 then "JUNE"
    else if m == 7 then "JULY" else if m == 8 then "AUGUST"
    else if m == 9 then "SEPTEMBER" else if m == 10 then "OCTOBER"
    else if m == 11 then "NOVEMBER" else "DECEMBER"
  }

  /** `Month.valueOf(name).getValue()`, with 0 for a text that names no month. */
  function MonthOfName(s: string): int {
    if s == "JANUARY" then 1 else if s == "FEBRUARY" then 2
    else if s == "MARCH" then 3 else if s == "APRIL" then 4
    else if s == "MAY" then 5 else if s == "JUNE" then 6
    else if s == "JULY" then 7 else if s == "AUGUST" then 8
    else if s == "SEPTEMBER" then 9 else if s == "OCTOBER" then 10
    else if s == "NOVEMBER" then 11 else if s == "DECEMBER" then 12
    else 0
  }

  lemma MonthNameRoundTrip(m: int)
    requires 1 <= m <= 12
    ensures MonthOfName(MonthName(m)) == m
  {
    if m == 1 {} else if m == 2 {} else if m == 3 {} else if m == 4 {}
    else if m == 5 {} else if m == 6 {} else if m == 7 {} else if m == 8 {}
    else if m == 9 {} else if m == 10 {} else if m == 11 {} else {}
  }

  lemma MonthNameInjective(m1: int, m2: int)
    requires 1 <= m1 <= 12 && 1 <= m2 <= 12
    requires MonthName(m1) == MonthName(m2)
    ensures m1 == m2
  {
    MonthNameRoundTrip(m1);
    MonthNameRoundTrip(m2);
  }
}
