/** Calendar dates, the timestamps built from a date and an hour of the day,
    and the calendar month a timestamp falls in. */
module Calendar {

  /** A proleptic Gregorian calendar date. */
  datatype Date = Date(year: int, month: int, day: int)

  /** A date with an hour of the day in 0..23 (minutes are always zero here). */
  datatype Timestamp = Timestamp(date: Date, hour: int)

  /** A calendar month as (year, month-of-year): the bin of a monthly group-by. */
  type Month = (int, int)

  predicate IsLeapYear(y: int)
  {
    y % 4 == 0 && (y % 100 != 0 || y % 400 == 0)
  }

  function DaysInMonth(y: int, m: int): (n: int)
    requires 1 <= m <= 12
    ensures 28 <= n <= 31
    ensures n == 29 <==> m == 2 && IsLeapYear(y)
    ensures n == 28 <==> m == 2 && !IsLeapYear(y)
  {
    if m == 2 then (if IsLeapYear(y) then 29 else 28)
    else if m == 4 || m == 6 || m == 9 || m == 11 then 30
    else 31
  }

  predicate ValidDate(d: Date)
  {
    1 <= d.month <= 12 && 1 <= d.day <= DaysInMonth(d.year, d.month)
  }

  /** Chronological order of dates (strict). */
  predicate Before(a: Date, b: Date)
  {
    a.year < b.year
    || (a.year == b.year && a.month < b.month)
    || (a.year == b.year && a.month == b.month && a.day < b.day)
  }

  /** The day after `d`: rolls over into the next month and the next year. */
  function NextDay(d: Date): (e: Date)
    requires ValidDate(d)
    ensures ValidDate(e) && Before(d, e)
    ensures e.day == 1 <==> d.day == DaysInMonth(d.year, d.month)
  {
    if d.day < DaysInMonth(d.year, d.month) then Date(d.year, d.month, d.day + 1)
    else if d.month < 12 then Date(d.year, d.month + 1, 1)
    else Date(d.year + 1, 1, 1)
  }

  /** No valid date lies strictly between a date and the day after it. */
  lemma NextDayIsSuccessor(d: Date, x: Date)
    requires ValidDate(d) && ValidDate(x)
    ensures !(Before(d, x) && Before(x, NextDay(d)))
  {
  }

  /** `d` plus `h` hours, for h in 1..24: hour 24 is midnight of the next day. */
  function AddHours(d: Date, h: int): (t: Timestamp)
    requires ValidDate(d) && 1 <= h <= 24
    ensures ValidDate(t.date) && 0 <= t.hour <= 23
    ensures h < 24 ==> t == Timestamp(d, h)
    ensures h == 24 ==> t == Timestamp(NextDay(d), 0)
  {
    if h < 24 then Timestamp(d, h) else Timestamp(NextDay(d), 0)
  }

  /** The calendar month a timestamp falls in. */
  function MonthOf(t: Timestamp): (m: Month)
  {
    (t.date.year, t.date.month)
  }

  /** Months in chronological order. */
  predicate MonthBefore(a: Month, b: Month)
  {
    a.0 < b.0 || (a.0 == b.0 && a.1 < b.1)
  }

  /** Adding 1..24 hours to a date stays in its month, except that hour 24 of
      the last day of a month falls in the following month (and year). */
  lemma AddHoursMonth(d: Date, h: int)
    requires ValidDate(d) && 1 <= h <= 24
    ensures var m := MonthOf(AddHours(d, h));
      if h == 24 && d.day == DaysInMonth(d.year, d.month) then
        m == (if d.month == 12 then (d.year + 1, 1) else (d.year, d.month + 1))
      else m == (d.year, d.month)
  {
  }
}
