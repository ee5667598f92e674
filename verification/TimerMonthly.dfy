/**
 * A timer for one time of day on one day of the month and chosen weekdays, Friday the 13th for
 * one: the next time is always the earliest accepted one, as the search reaches every month.
 */
module TimerMonthly {
  import opened Calendar
  import opened Timer
  import opened TimerDates
  import opened TimerExact
  import opened TimerChain

  /** One time of day, a day that every month has, every month and year. */
  predicate Monthly(td: TimerDef) {
    && OnceADay(td) && 1 <= td.days.lo == td.days.hi <= 28
    && td.month == ByteRange(1, 12) && td.years == WordRange(0, 0xFFFF)
  }

  // ---- months counted on ----

  function MonthOf(d: Date): int {
    12 * d.year + d.mon - 1
  }

  /** Day d of a month counted from January of year 0. */
  function DateIn(d: int, month: int): (r: Date)
    ensures 1 <= r.mon <= 12 && MonthOf(r) == month
  {
    Date(month / 12, month % 12 + 1, d)
  }

  lemma DateInIs(d: int, month: int, year: int, mon: int)
    requires month == 12 * year + mon - 1 && 1 <= mon <= 12
    ensures DateIn(d, month) == Date(year, mon, d)
  {
  }

  function DayIn(d: int, month: int): int {
    DayNumber(DateIn(d, month))
  }

  lemma MonthsGoOn(d: int, m: int, n: int)
    requires 1 <= d <= 28 && m < n
    ensures DayIn(d, m) < DayIn(d, n)
  {
    DatesOrdered(DateIn(d, m), DateIn(d, n));
  }

  /** `at` gives day d of each month; its values stay folded where they are only compared. */
  ghost predicate MonthDays(at: int -> int, d: int) {
    forall m {:trigger DayIn(d, m)} :: at(m) == DayIn(d, m)
  }

  /** A search that started on day `start` and has come to day d of a month. */
  function MonthPos(d: int, month: int, off: int): Pos {
    Pos(d, month % 12 + 1, month / 12, off)
  }

  lemma RetryIsNextMonth(td: TimerDef, month: int, start: int)
    requires Monthly(td) && 0 <= month && month + 1 < 12 * 0x1_0000
    ensures Retry(td, Search(MonthPos(td.days.lo, month, DayIn(td.days.lo, month) - start), false))
         == Search(MonthPos(td.days.lo, month + 1, DayIn(td.days.lo, month + 1) - start), true)
  {
    var year, mon := month / 12, month % 12 + 1;
    assert year % 0x1_0000 == year;
    YearLength(year);
    assert Step(mon, td.month, 1, 12) == (if mon < 12 then 1 else -11);
    assert Step(td.days.lo, td.days, 1, LengthOfMonth(mon, year)) == 0;
    assert (month + 1) / 12 == if mon < 12 then year else year + 1;
  }

  /** The month of the first date tried. */
  function FirstMonth(td: TimerDef, tm: Tm, done: bool): int {
    var here := tm.date.mday < td.days.lo || (tm.date.mday == td.days.lo && done);
    MonthOf(tm.date) + (if here then 0 else 1)
  }

  lemma RetryIsFirstMonth(td: TimerDef, tm: Tm, done: bool)
    requires Monthly(td) && ProperDate(tm.date) && 0 <= tm.date.year < 0xFFFF
    ensures
      var first := FirstMonth(td, tm, done);
      Retry(td, Search(StartPos(tm), done))
      == Search(MonthPos(td.days.lo, first, DayIn(td.days.lo, first) - DayNumber(tm.date)), true)
  {
    var year, mon := tm.date.year, tm.date.mon;
    assert year % 0x1_0000 == year;
    YearLength(year);
    assert Step(mon, td.month, 1, 12) == (if mon < 12 then 1 else -11);
    assert Step(tm.date.mday, td.days, 1, LengthOfMonth(mon, year)) == td.days.lo - tm.date.mday;
    var month := FirstMonth(td, tm, done);
    if month == MonthOf(tm.date) {
      DateInIs(td.days.lo, month, year, mon);
    } else if mon < 12 {
      DateInIs(td.days.lo, month, year, mon + 1);
    } else {
      DateInIs(td.days.lo, month, year + 1, 1);
    }
  }

  function Months(d: int, at: int -> int, first: int, start: int): nat -> Pos {
    i => MonthPos(d, first + i, at(first + i) - start)
  }

  lemma MonthLink(td: TimerDef, at: int -> int, first: nat, start: int, i: nat)
    requires Monthly(td) && MonthDays(at, td.days.lo) && first + i + 1 < 12 * 0x1_0000
    ensures Linked(Retrying(td), Months(td.days.lo, at, first, start), i)
  {
    NextMonth(td, at, first + i, first + (i + 1), start);
  }

  lemma NextMonth(td: TimerDef, at: int -> int, month: int, next: int, start: int)
    requires Monthly(td) && MonthDays(at, td.days.lo) && 0 <= month && next == month + 1 < 12 * 0x1_0000
    ensures Retrying(td)(Search(MonthPos(td.days.lo, month, at(month) - start), false))
         == Search(MonthPos(td.days.lo, next, at(next) - start), true)
  {
    assert at(month) == DayIn(td.days.lo, month) && at(next) == DayIn(td.days.lo, next);
    RetryIsNextMonth(td, month, start);
  }

  lemma MonthlyStart(td: TimerDef, at: int -> int, tm: Tm, done: bool, first: nat, start: int)
    requires Monthly(td) && MonthDays(at, td.days.lo) && ProperDate(tm.date) && 0 <= tm.date.year < 0xFFFF
    requires start == DayNumber(tm.date) && first == FirstMonth(td, tm, done)
    ensures Retrying(td)(Search(StartPos(tm), done)) == Search(Months(td.days.lo, at, first, start)(0), true)
  {
    FirstTried(td, at, tm, done, first, start);
    MonthAtTry(td.days.lo, at, first, start, 0);
  }

  lemma FirstTried(td: TimerDef, at: int -> int, tm: Tm, done: bool, first: nat, start: int)
    requires Monthly(td) && MonthDays(at, td.days.lo) && ProperDate(tm.date) && 0 <= tm.date.year < 0xFFFF
    requires start == DayNumber(tm.date) && first == FirstMonth(td, tm, done)
    ensures Retry(td, Search(StartPos(tm), done)) == Search(MonthPos(td.days.lo, first, at(first) - start), true)
  {
    assert at(first) == DayIn(td.days.lo, first);
    RetryIsFirstMonth(td, tm, done);
  }

  lemma MonthlyChain(td: TimerDef, at: int -> int, tm: Tm, done: bool, first: nat, start: int, k: nat)
    requires Monthly(td) && MonthDays(at, td.days.lo) && ProperDate(tm.date) && 0 <= tm.date.year < 0xFFFF
    requires start == DayNumber(tm.date) && first == FirstMonth(td, tm, done) && first + k < 12 * 0x1_0000
    ensures Chain(Retrying(td), Search(StartPos(tm), done), Months(td.days.lo, at, first, start), 0, k)
  {
    MonthlyStart(td, at, tm, done, first, start);
    forall i | 0 <= i < k ensures Linked(Retrying(td), Months(td.days.lo, at, first, start), i) {
      MonthLink(td, at, first, start, i);
    }
  }

  // ---- weekdays ----

  /** How far a month's first day is from the first of January, in weekdays. */
  function Offset(mon: int, leap: bool): int
    requires 1 <= mon <= 12
  {
    DaysToMonth(mon, leap) % 7
  }

  /** A month whose days are r weekdays after those of January. */
  function MonthAt(r: int, leap: bool): int
    requires 0 <= r < 7
  {
    if leap then [1, 10, 5, 2, 3, 6, 9][r] else [1, 5, 8, 2, 6, 9, 4][r]
  }

  lemma MonthAtOffset(r: int, leap: bool)
    requires 0 <= r < 7
    ensures 1 <= MonthAt(r, leap) <= 12 && Offset(MonthAt(r, leap), leap) == r
  {
  }

  /** Every year has each weekday on day d of some month. */
  lemma EveryYear(d: int, year: int, wday: int) returns (mon: int)
    requires 0 <= wday < 7
    ensures 1 <= mon <= 12 && WeekdayOf(DayNumber(Date(year, mon, d))) == wday
  {
    var first := DaysBeforeYear(year) + d - 1;
    var r := (wday - first - 4) % 7;
    MonthAtOffset(r, Leap(year));
    mon := MonthAt(r, Leap(year));
    SameWeekday(first + 4, DaysToMonth(mon, Leap(year)), r, wday);
  }

  lemma SameWeekday(x: int, y: int, r: int, wday: int)
    requires 0 <= wday < 7 && y % 7 == r == (wday - x) % 7
    ensures (x + y) % 7 == wday
  {
  }

  // ---- the first day that fits ----

  /** The days that fit are those of some month that fall on a set weekday. */
  lemma FitsInMonth(td: TimerDef, day: int)
    requires Monthly(td) && DayFits(td, day)
    ensures day == DayIn(td.days.lo, MonthOf(DateOf(day)))
  {
    DateOfDay(day);
    SameMonth(DateOf(day), td.days.lo);
  }

  lemma MonthFits(td: TimerDef, month: int)
    requires Monthly(td)
    ensures DayFits(td, DayIn(td.days.lo, month)) <==> OnWeekday(td.wDay, WeekdayOf(DayIn(td.days.lo, month)))
  {
    DateIsUnique(DateIn(td.days.lo, month));
  }

  lemma SameMonth(date: Date, d: int)
    requires ProperDate(date)
    ensures DayIn(d, MonthOf(date)) == DayNumber(date) + d - date.mday
  {
    assert DateIn(d, MonthOf(date)) == date.(mday := d);
  }

  lemma MonthBefore(date: Date, d: int)
    requires ProperDate(date) && 1 <= d <= 28
    ensures DayIn(d, MonthOf(date) - 1) < DayNumber(date)
  {
    DatesOrdered(DateIn(d, MonthOf(date) - 1), date);
  }

  lemma MonthAfter(date: Date, d: int)
    requires ProperDate(date) && 1 <= d <= 28
    ensures DayNumber(date) < DayIn(d, MonthOf(date) + 1)
  {
    DatesOrdered(date, DateIn(d, MonthOf(date) + 1));
  }

  lemma MonthsIncrease(at: int -> int, d: int)
    requires 1 <= d <= 28 && MonthDays(at, d)
    ensures Increasing(at)
  {
    forall m, n | m < n ensures at(m) < at(n) {
      MonthsGoOn(d, m, n);
    }
  }

  lemma MonthsRound(td: TimerDef, at: int -> int) returns (round: int -> int)
    requires Monthly(td) && MonthDays(at, td.days.lo)
    ensures InRounds(FittingDays(td), at, round)
  {
    round := day => MonthOf(DateOf(day));
    forall day | FittingDays(td)(day) ensures at(round(day)) == day {
      FitsInMonth(td, day);
    }
  }

  /** The first date tried is the first one that is not over. */
  lemma FirstNotOver(at: int -> int, month: int, start: int, mday: int, d: int, done: bool, first: int)
    requires at(month) == start + d - mday && at(month - 1) < start < at(month + 1)
    requires first == month + (if mday < d || (mday == d && done) then 0 else 1)
    ensures at(first - 1) < start + (if done then 0 else 1) <= at(first)
  {
  }

  lemma MonthsAround(at: int -> int, date: Date, d: int)
    requires ProperDate(date) && 1 <= d <= 28 && MonthDays(at, d)
    ensures at(MonthOf(date)) == DayNumber(date) + d - date.mday
    ensures at(MonthOf(date) - 1) < DayNumber(date) < at(MonthOf(date) + 1)
  {
    SameMonth(date, d);
    MonthBefore(date, d);
    MonthAfter(date, d);
  }

  lemma FirstMonthBounds(td: TimerDef, at: int -> int, tm: Tm, done: bool, first: int, start: int)
    requires Monthly(td) && MonthDays(at, td.days.lo)
    requires ProperDate(tm.date) && start == DayNumber(tm.date) && first == FirstMonth(td, tm, done)
    ensures at(first - 1) < start + (if done then 0 else 1) <= at(first)
  {
    MonthsAround(at, tm.date, td.days.lo);
    FirstNotOver(at, MonthOf(tm.date), start, tm.date.mday, td.days.lo, done, first);
  }

  /** Of the rest of one year and all of the next, some month fits. */
  lemma SomeMonthFits(td: TimerDef, at: int -> int, first: int) returns (m: int)
    requires Monthly(td) && SomeWeekday(td) && MonthDays(at, td.days.lo)
    ensures first <= m <= first + 22 && m < 12 * ((first + 11) / 12 + 1) && FittingDays(td)(at(m))
  {
    var wday :| 0 <= wday < 7 && OnWeekday(td.wDay, wday);
    var year := (first + 11) / 12;
    var mon := EveryYear(td.days.lo, year, wday);
    m := 12 * year + mon - 1;
    MonthFits(td, m);
    assert DateIn(td.days.lo, m) == Date(year, mon, td.days.lo);
  }

  lemma MonthlyRounds(td: TimerDef, at: int -> int, tm: Tm, done: bool, first: int, start: int)
    returns (round: int -> int, w: int)
    requires Monthly(td) && SomeWeekday(td) && MonthDays(at, td.days.lo)
    requires ProperDate(tm.date) && start == DayNumber(tm.date) && first == FirstMonth(td, tm, done)
    ensures w <= first + 22 && w < 12 * ((first + 11) / 12 + 1)
    ensures Rounds(FittingDays(td), at, round, start, if done then 0 else 1, first, w)
  {
    w := SomeMonthFits(td, at, first);
    MonthsIncrease(at, td.days.lo);
    round := MonthsRound(td, at);
    FirstMonthBounds(td, at, tm, done, first, start);
  }

  lemma MonthsTry(d: int, at: int -> int, first: int, start: int)
    ensures Tries(Months(d, at, first, start), 0, at, first, start)
  {
    forall i: nat ensures Months(d, at, first, start)(i).offDays == at(first + i - 0) - start {
      MonthAtTry(d, at, first, start, i);
    }
  }

  lemma MonthAtTry(d: int, at: int -> int, first: int, start: int, i: nat)
    ensures Months(d, at, first, start)(i) == MonthPos(d, first + i, at(first + i) - start)
  {
  }

  lemma SomeMonthDays(d: int) returns (at: int -> int)
    ensures MonthDays(at, d)
  {
    at := m => DayIn(d, m);
  }

  lemma MonthlyTries(td: TimerDef, at: int -> int, tm: Tm, done: bool, first: nat, start: int, k: nat)
    returns (pos: nat -> Pos)
    requires Monthly(td) && MonthDays(at, td.days.lo) && ProperDate(tm.date) && 0 <= tm.date.year < 0xFFFF
    requires start == DayNumber(tm.date) && first == FirstMonth(td, tm, done) && first + k < 12 * 0x1_0000
    ensures Chain(Retrying(td), Search(StartPos(tm), done), pos, 0, k) && Tries(pos, 0, at, first, start)
  {
    pos := Months(td.days.lo, at, first, start);
    MonthlyChain(td, at, tm, done, first, start, k);
    MonthsTry(td.days.lo, at, first, start);
  }

  lemma MonthlyDays(gm: int -> Tm, td: TimerDef, at: int -> int, tm: Tm, done: bool, first: int, start: int)
    returns (days: int -> bool, round: int -> int, w: int)
    requires IsGmTime(gm) && Monthly(td) && SomeWeekday(td) && MonthDays(at, td.days.lo)
    requires ProperDate(tm.date) && start == DayNumber(tm.date) && first == FirstMonth(td, tm, done)
    ensures FiresOn(Check(gm, td), days, ZoneOffset(td), FiringSecond(td))
    ensures w <= first + 22 && w < 12 * ((first + 11) / 12 + 1)
    ensures Rounds(days, at, round, start, if done then 0 else 1, first, w)
  {
    days := FittingDays(td);
    OnceFires(gm, td);
    round, w := MonthlyRounds(td, at, tm, done, first, start);
  }

  /** What the search for a month starts from and where it ends. */
  lemma MonthlySearch(gm: int -> Tm, td: TimerDef, tm: Tm, done: bool, start: int)
    returns (days: int -> bool, at: int -> int, round: int -> int, pos: nat -> Pos, first: int, m: int)
    requires IsGmTime(gm) && Monthly(td) && SomeWeekday(td)
    requires ProperDate(tm.date) && start == DayNumber(tm.date) && 0 <= tm.date.year < 0xFFFF
    ensures FiresOn(Check(gm, td), days, ZoneOffset(td), FiringSecond(td))
    ensures Rounds(days, at, round, start, if done then 0 else 1, first, m) && m <= first + 22
    ensures RoundsMiss(days, at, first, m)
    ensures Chain(Retrying(td), Search(StartPos(tm), done), pos, 0, m - first) && Tries(pos, 0, at, first, start)
  {
    first := FirstMonth(td, tm, done);
    at := SomeMonthDays(td.days.lo);
    var w: int;
    days, round, w := MonthlyDays(gm, td, at, tm, done, first, start);
    assert first <= w < 12 * 0x1_0000;
    m := LeastRound(days, at, first, w);
    pos := MonthlyTries(td, at, tm, done, first, start, m - first);
  }

  lemma NextFromMonthly(gm: int -> Tm, last: Timespec, td: TimerDef, tm: Tm, c: Clock)
    requires IsGmTime(gm) && Monthly(td) && SomeWeekday(td)
    requires tm == ZonedTime(gm, last.sec, td) && c == HourStep(td, tm) && 0 <= tm.date.year < 0xFFFF
    ensures
      var r := NextFrom(Retrying(td), Check(gm, td), last, tm, c);
      r.nsec == last.nsec && Earliest(Check(gm, td), last.sec, r.sec)
  {
    OnceStart(gm, last.sec, td, tm, c);
    var days, at, round, pos, first, m := MonthlySearch(gm, td, tm, c.done, DayNumber(tm.date));
    NextFromRounds(Retrying(td), Check(gm, td), days, ZoneOffset(td), FiringSecond(td), last, tm, c,
                   at, round, pos, 0, first, m);
  }

  /**
   * A timer for one time of day on a day from 1 to 28 of every month, if that falls on a set
   * weekday, fires next at the earliest accepted time after any last time.
   */
  lemma MonthlyIsEarliest(gm: int -> Tm, last: Timespec, td: TimerDef)
    requires IsGmTime(gm) && Monthly(td) && SomeWeekday(td)
    requires 0 <= ZonedTime(gm, last.sec, td).date.year < 0xFFFF
    ensures NextTime(gm, last, td).nsec == last.nsec
    ensures Earliest(Check(gm, td), last.sec, NextTime(gm, last, td).sec)
  {
    var tm := ZonedTime(gm, last.sec, td);
    NextFromMonthly(gm, last, td, tm, HourStep(td, tm));
  }
}
