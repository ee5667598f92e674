/**
 * Broken-down UTC time, after "Seconds Since the Epoch" (section 4.16 of POSIX.1-2017 Base
 * Definitions), extended to all integers.
 */
module Calendar {

  const DAY := 86400

  predicate Leap(year: int) {
    year % 4 == 0 && (year % 100 != 0 || year % 400 == 0)
  }

  /** Days from the Epoch to the first of January of a year. */
  function DaysBeforeYear(year: int): int {
    365 * (year - 1970) + (year - 1969) / 4 - (year - 1901) / 100 + (year - 1601) / 400
  }

  lemma YearLength(year: int)
    ensures DaysBeforeYear(year + 1) == DaysBeforeYear(year) + (if Leap(year) then 366 else 365)
  {
    var y := year;
    assert (y + 1 - 1969) / 4 == (y - 1969) / 4 + (if y % 4 == 0 then 1 else 0);
    assert (y + 1 - 1901) / 100 == (y - 1901) / 100 + (if y % 100 == 0 then 1 else 0);
    assert (y + 1 - 1601) / 400 == (y - 1601) / 400 + (if y % 400 == 0 then 1 else 0);
    assert y % 400 == 0 ==> y % 100 == 0;
    assert y % 100 == 0 ==> y % 4 == 0;
  }

  /** Days of a common year before a month. */
  function CommonDaysToMonth(m: int): int
    requires 1 <= m <= 13
  {
    [0, 31, 59, 90, 120, 151, 181, 212, 243, 273, 304, 334, 365][m - 1]
  }

  function DaysToMonth(m: int, leap: bool): int
    requires 1 <= m <= 13
  {
    CommonDaysToMonth(m) + (if leap && m > 2 then 1 else 0)
  }

  function MonthLength(m: int, leap: bool): (n: int)
    requires 1 <= m <= 12
    ensures n == DaysToMonth(m + 1, leap) - DaysToMonth(m, leap)
  {
    if m == 2 then (if leap then 29 else 28)
    else if m == 4 || m == 6 || m == 9 || m == 11 then 30
    else 31
  }

  /** The year a day falls into, searched upwards. */
  function YearFrom(days: int, y: int): (r: int)
    requires DaysBeforeYear(y) <= days
    ensures DaysBeforeYear(r) <= days < DaysBeforeYear(r + 1)
    decreases days - DaysBeforeYear(y)
  {
    YearLength(y);
    if days < DaysBeforeYear(y + 1) then y else YearFrom(days, y + 1)
  }

  lemma StartYear(days: int)
    ensures DaysBeforeYear(1970 + (if days >= 0 then days / 366 else days / 365)) <= days
  {
  }

  function YearOf(days: int): (y: int)
    ensures DaysBeforeYear(y) <= days < DaysBeforeYear(y + 1)
  {
    StartYear(days);
    YearFrom(days, 1970 + (if days >= 0 then days / 366 else days / 365))
  }

  /** The month a day of the year falls into, searched upwards. */
  function MonthFrom(yday: int, leap: bool, m: int): (r: int)
    requires 1 <= m <= 12 && DaysToMonth(m, leap) <= yday < DaysToMonth(13, leap)
    ensures 1 <= r <= 12 && DaysToMonth(r, leap) <= yday < DaysToMonth(r + 1, leap)
    decreases 12 - m
  {
    if yday < DaysToMonth(m + 1, leap) then m else MonthFrom(yday, leap, m + 1)
  }

  datatype Date = Date(year: int, mon: int, mday: int)

  /** A day's number counted from the Epoch. */
  function DayNumber(d: Date): int
    requires 1 <= d.mon <= 12
  {
    DaysBeforeYear(d.year) + DaysToMonth(d.mon, Leap(d.year)) + d.mday - 1
  }

  ghost predicate ProperDate(d: Date) {
    1 <= d.mon <= 12 && 1 <= d.mday <= MonthLength(d.mon, Leap(d.year))
  }

  /** The proper date of a day. */
  function DateOf(days: int): (d: Date)
    ensures ProperDate(d)
  {
    var year := YearOf(days);
    YearLength(year);
    var yday := days - DaysBeforeYear(year);
    var mon := MonthFrom(yday, Leap(year), 1);
    Date(year, mon, yday - DaysToMonth(mon, Leap(year)) + 1)
  }

  lemma DateOfDay(days: int)
    ensures DayNumber(DateOf(days)) == days
  {
    YearLength(YearOf(days));
  }

  /** Month and day are counted from 1, the year is the full year, wday 0 is Sunday. */
  datatype Tm = Tm(sec: int, min: int, hour: int, date: Date, wday: int)

  function SecondOfDay(t: Tm): int {
    t.hour * 3600 + t.min * 60 + t.sec
  }

  lemma ClockFields(s: int)
    requires 0 <= s < DAY
    ensures s == s / 3600 * 3600 + s / 60 % 60 * 60 + s % 60
    ensures 0 <= s / 3600 <= 23
  {
    assert s / 60 / 60 == s / 3600;
  }

  /** Broken-down time as POSIX relates it to seconds since the Epoch. */
  ghost predicate BrokenDown(t: int, r: Tm) {
    && 0 <= r.sec <= 59 && 0 <= r.min <= 59 && 0 <= r.hour <= 23
    && SecondOfDay(r) == t % DAY
    && ProperDate(r.date) && DayNumber(r.date) == t / DAY
    && r.wday == (t / DAY + 4) % 7
  }

  /** What is known of the library's conversion. */
  ghost predicate IsGmTime(gm: int -> Tm) {
    forall t :: BrokenDown(t, gm(t))
  }

  function GmTime(t: int): Tm {
    var s := t % DAY;
    Tm(s % 60, s / 60 % 60, s / 3600, DateOf(t / DAY), (t / DAY + 4) % 7)
  }

  /** There is such a conversion. */
  lemma GmTimeIsGmTime()
    ensures IsGmTime(GmTime)
  {
    forall t ensures BrokenDown(t, GmTime(t)) {
      ClockFields(t % DAY);
      DateOfDay(t / DAY);
    }
  }

  /** Years do not overlap. */
  lemma {:induction false} YearsOrdered(a: int, b: int)
    requires a <= b
    ensures DaysBeforeYear(a) + 365 * (b - a) <= DaysBeforeYear(b)
    decreases b - a
  {
    if a < b {
      YearLength(b - 1);
      YearsOrdered(a, b - 1);
    }
  }

  lemma MonthsOrdered(m: int, n: int, leap: bool)
    requires 1 <= m < n <= 13
    ensures DaysToMonth(m, leap) + 28 <= DaysToMonth(n, leap)
  {
  }

  /** Proper dates are in the order of their day numbers. */
  lemma DatesOrdered(a: Date, b: Date)
    requires ProperDate(a) && ProperDate(b)
    requires a.year < b.year || (a.year == b.year && (a.mon < b.mon || (a.mon == b.mon && a.mday < b.mday)))
    ensures DayNumber(a) < DayNumber(b)
  {
    if a.year < b.year {
      YearLength(a.year);
      YearsOrdered(a.year + 1, b.year);
      MonthEnds(a);
    } else if a.mon < b.mon {
      MonthEnds(a);
      if a.mon + 1 < b.mon {
        MonthsOrdered(a.mon + 1, b.mon, Leap(a.year));
      }
    }
  }

  lemma MonthEnds(d: Date)
    requires ProperDate(d)
    ensures DaysToMonth(d.mon, Leap(d.year)) + d.mday <= DaysToMonth(d.mon + 1, Leap(d.year))
    ensures DaysToMonth(d.mon + 1, Leap(d.year)) <= if Leap(d.year) then 366 else 365
  {
  }

  /** A day has one proper date. */
  lemma DateIsUnique(d: Date)
    requires ProperDate(d)
    ensures DateOf(DayNumber(d)) == d
  {
    var e := DateOf(DayNumber(d));
    DateOfDay(DayNumber(d));
    if d.year != e.year || d.mon != e.mon || d.mday != e.mday {
      if d.year < e.year || (d.year == e.year && (d.mon < e.mon || (d.mon == e.mon && d.mday < e.mday))) {
        DatesOrdered(d, e);
      } else {
        DatesOrdered(e, d);
      }
    }
  }
}
