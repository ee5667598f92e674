/**
 * A timer for one time of day on the 29th of February and chosen weekdays. The search moves one
 * year a turn, and forty years hold every weekday, so its limit of turns suffices, except for the
 * turns it spends on the days of a common year's February.
 */
module TimerLeapDay {
  import opened Calendar
  import opened Timer
  import opened TimerDates
  import opened TimerExact
  import opened TimerChain

  predicate LeapDay(td: TimerDef) {
    && OnceADay(td) && td.days == ByteRange(29, 29) && td.month == ByteRange(2, 2)
    && td.years == WordRange(0, 0xFFFF)
  }

  /** The day after the 28th of February. */
  function After28(year: int): int {
    DaysBeforeYear(year) + 59
  }

  predicate FitsYear(td: TimerDef, year: int) {
    Leap(year) && OnWeekday(td.wDay, WeekdayOf(After28(year)))
  }

  // ---- the weekdays of leap days ----

  lemma Mod4(x: int, q: int, r: int)
    requires x == 4 * q + r && 0 <= r < 4
    ensures x % 4 == r
  {
  }

  lemma Mod7(x: int, q: int, r: int)
    requires x == 7 * q + r && 0 <= r < 7
    ensures x % 7 == r
  {
  }

  lemma Mod25(x: int, q: int, r: int)
    requires x == 25 * q + r && 0 <= r < 25
    ensures x % 25 == r
  {
  }

  lemma Mod100(x: int, q: int, r: int)
    requires x == 100 * q + r && 0 <= r < 100
    ensures x % 100 == r
  {
  }

  lemma Mod400(x: int, q: int, r: int)
    requires x == 400 * q + r && 0 <= r < 400
    ensures x % 400 == r
  {
  }

  /** Leap years and the days after the 28ths of February, as functions whose values stay folded. */
  ghost predicate Years28(days: int -> int, leap: int -> bool) {
    && (forall y {:trigger leap(y)} :: days(y + 1) == days(y) + (if leap(y) then 366 else 365))
    && (forall y {:trigger Leap(y)} :: leap(y) == Leap(y))
    && (forall y {:trigger After28(y)} :: days(y) == After28(y))
  }

  lemma SomeYears28() returns (days: int -> int, leap: int -> bool)
    ensures Years28(days, leap)
  {
    days, leap := y => After28(y), y => Leap(y);
    forall y ensures After28(y + 1) == After28(y) + (if Leap(y) then 366 else 365) {
      YearLength(y);
    }
  }

  lemma NotLeap(days: int -> int, leap: int -> bool, year: int, n: int, r: int)
    requires Years28(days, leap) && year == 4 * n + r && 1 <= r <= 3
    ensures !leap(year)
  {
    Mod4(year, n, r);
    assert !Leap(year);
  }

  lemma FourLength(days: int -> int, leap: int -> bool, year: int, n: int)
    requires Years28(days, leap) && year == 4 * n
    ensures days(year + 4) == days(year) + (if leap(year) then 1461 else 1460)
  {
    NotLeap(days, leap, year + 1, n, 1);
    NotLeap(days, leap, year + 2, n, 2);
    NotLeap(days, leap, year + 3, n, 3);
  }

  lemma FourIsLeap(days: int -> int, leap: int -> bool, year: int, n: int)
    requires Years28(days, leap) && year == 4 * n
    ensures leap(year) <==> n % 25 != 0 || n % 100 == 0
  {
    Mod4(year, n, 0);
    Mod100(year, n / 25, 4 * (n % 25));
    Mod400(year, n / 100, 4 * (n % 100));
    assert leap(year) == Leap(year);
  }

  lemma NextMultiple(n: int, g: int, m: int)
    requires n <= g < n + 25 && g % 25 == 0 && n <= m <= n + 10
    ensures m % 25 == 0 <==> m == g
  {
    var q := g / 25;
    if m < g {
      Mod25(m, q - 1, m - g + 25);
    } else {
      Mod25(m, q, m - g);
    }
  }

  /** Of eleven multiples of 4 in a row, the n-th on, at most the c-th is not a leap year. */
  ghost predicate OneCommon(leap: int -> bool, n: int, c: int) {
    forall m {:trigger Four(m)} :: n <= m <= n + 10 ==> (leap(Four(m)) <==> m != c)
  }

  function Four(n: int): int {
    4 * n
  }

  lemma FindCommon(days: int -> int, leap: int -> bool, n: int) returns (c: int)
    requires Years28(days, leap)
    ensures OneCommon(leap, n, c) && n <= c
  {
    var g := (n + 24) / 25 * 25;
    Mod25(g, (n + 24) / 25, 0);
    c := if g % 100 == 0 then n + 25 else g;
    forall m | n <= m <= n + 10 ensures leap(Four(m)) <==> m != c {
      NextMultiple(n, g, m);
      FourIsLeap(days, leap, Four(m), m);
    }
  }

  /** The number of days over j fours. */
  lemma {:induction false} FourSteps(days: int -> int, leap: int -> bool, n: int, c: int, j: nat)
    requires Years28(days, leap) && OneCommon(leap, n, c) && n <= c && j <= 10
    ensures days(Four(n + j)) == days(Four(n)) + 1461 * j - (if c < n + j then 1 else 0)
  {
    if j > 0 {
      FourSteps(days, leap, n, c, j - 1);
      FourLength(days, leap, Four(n + (j - 1)), n + (j - 1));
      assert leap(Four(n + (j - 1))) <==> n + (j - 1) != c;
    }
  }

  lemma WeekdayOfFour(x: int, wday: int, u: int)
    requires 0 <= wday < 7 && u == 3 * (wday - WeekdayOf(x)) % 7
    ensures WeekdayOf(x + 1461 * u) == wday && WeekdayOf(x + 1461 * (u + 3) - 1) == wday
  {
    var w, q, p := WeekdayOf(x), (x + 4) / 7, 3 * (wday - WeekdayOf(x)) / 7;
    WeekSum(x, w, q, p, u, wday);
    Mod7(x + 1461 * u + 4, q + 208 * u + 2 * (wday - w) - 5 * p, wday);
    Mod7(x + 1461 * (u + 3) - 1 + 4, q + 208 * u + 2 * (wday - w) - 5 * p + 626, wday);
  }

  lemma WeekSum(x: int, w: int, q: int, p: int, u: int, wday: int)
    requires x + 4 == 7 * q + w && 3 * (wday - w) == 7 * p + u
    ensures x + 1461 * u + 4 == 7 * (q + 208 * u + 2 * (wday - w) - 5 * p) + wday
    ensures x + 1461 * (u + 3) - 1 + 4 == 7 * (q + 208 * u + 2 * (wday - w) - 5 * p + 626) + wday
  {
  }

  /** Of ten fours each weekday is the one of a leap day. */
  lemma WeekdayAmongTen(days: int -> int, leap: int -> bool, n: int, c: int, wday: int) returns (j: nat)
    requires Years28(days, leap) && OneCommon(leap, n, c) && n <= c && 0 <= wday < 7
    ensures j <= 9 && leap(Four(n + j)) && WeekdayOf(days(Four(n + j))) == wday
  {
    var u := 3 * (wday - WeekdayOf(days(Four(n)))) % 7;
    WeekdayOfFour(days(Four(n)), wday, u);
    j := if n + u < c then u else u + 3;
    FourSteps(days, leap, n, c, j);
  }

  /** Forty years hold a leap day of each weekday. */
  lemma FortyYears(first: int, wday: int) returns (year: int)
    requires 0 <= wday < 7
    ensures first <= year <= first + 39 && Leap(year) && WeekdayOf(After28(year)) == wday
  {
    var n := (first + 3) / 4;
    var days, leap := SomeYears28();
    var c := FindCommon(days, leap, n);
    var j := WeekdayAmongTen(days, leap, n, c, wday);
    year := Four(n + j);
    RealYear(days, leap, year);
  }

  lemma RealYear(days: int -> int, leap: int -> bool, year: int)
    requires Years28(days, leap)
    ensures leap(year) == Leap(year) && days(year) == After28(year)
  {
  }

  // ---- the dates tried ----

  /** `at` gives the day after the 28th of February; its values stay folded where they are only compared. */
  ghost predicate YearDays(at: int -> int) {
    forall y {:trigger After28(y)} :: at(y) == After28(y)
  }

  function YearPos(year: int, off: int): Pos {
    Pos(29, 2, year, off)
  }

  lemma RetryIsNextYear(td: TimerDef, year: int, start: int)
    requires LeapDay(td) && 0 <= year < 0xFFFF
    ensures Retry(td, Search(YearPos(year, After28(year) - start), false))
         == Search(YearPos(year + 1, After28(year + 1) - start), true)
  {
    assert year % 0x1_0000 == year;
    YearLength(year);
  }

  predicate CommonFebruary(d: Date) {
    d.mon == 2 && !Leap(d.year)
  }

  /** Turns spent on days of February that are not the 29th. */
  function Detour(d: Date): int {
    if CommonFebruary(d) then 28 - d.mday else 0
  }

  /** The year of the first 29th of February tried, real or not. */
  function FirstYear(d: Date, done: bool): int {
    if d.mon > 2 || (d.mon == 2 && d.mday == 29 && !done) then d.year + 1 else d.year
  }

  lemma RetryIsFirstYear(td: TimerDef, tm: Tm, done: bool)
    requires LeapDay(td) && ProperDate(tm.date) && 0 <= tm.date.year < 0xFFFF && Detour(tm.date) == 0
    ensures
      var first := FirstYear(tm.date, done);
      Retry(td, Search(StartPos(tm), done)) == Search(YearPos(first, After28(first) - DayNumber(tm.date)), true)
  {
    assert tm.date.year % 0x1_0000 == tm.date.year;
    YearLength(tm.date.year);
    assert Step(tm.date.mon, td.month, 1, 12) == 2 - tm.date.mon;
  }

  /** In a common year's February the search moves by days up to a 29th that is the 1st of March. */
  lemma RetryIsNextDayOfFebruary(td: TimerDef, day: int, year: int, off: int, done: bool)
    requires LeapDay(td) && 1 <= day <= 28 && 0 <= year <= 0xFFFF && !Leap(year)
    ensures Retry(td, Search(Pos(day, 2, year, off), done)) == Search(Pos(day + 1, 2, year, off + 1), true)
  {
    assert year % 0x1_0000 == year;
  }

  function Years(at: int -> int, pre: nat, first: int, start: int): nat -> Pos {
    i => if i < pre then Pos(29 - pre + i, 2, first, 1 + i) else YearPos(first + i - pre, at(first + i - pre) - start)
  }

  lemma NextYear(td: TimerDef, at: int -> int, year: int, next: int, start: int)
    requires LeapDay(td) && YearDays(at) && 0 <= year < 0xFFFF && next == year + 1
    ensures Retrying(td)(Search(YearPos(year, at(year) - start), false))
         == Search(YearPos(next, at(next) - start), true)
  {
    assert at(year) == After28(year) && at(next) == After28(next);
    RetryIsNextYear(td, year, start);
  }

  lemma YearAtTry(at: int -> int, pre: nat, first: int, start: int, i: nat)
    requires pre <= i
    ensures Years(at, pre, first, start)(i) == YearPos(first + i - pre, at(first + i - pre) - start)
  {
  }

  lemma YearLink(td: TimerDef, at: int -> int, pre: nat, first: int, start: int, i: nat)
    requires LeapDay(td) && YearDays(at) && 0 <= first && pre <= i && first + i - pre < 0xFFFF
    ensures Linked(Retrying(td), Years(at, pre, first, start), i)
  {
    NextYear(td, at, first + i - pre, first + (i + 1) - pre, start);
    YearAtTry(at, pre, first, start, i);
    YearAtTry(at, pre, first, start, i + 1);
  }

  /** Both as the last date of the detour and as the first of the years. */
  lemma DetourEnd(at: int -> int, d: Date, pre: nat, start: int)
    requires YearDays(at) && ProperDate(d) && start == DayNumber(d) && CommonFebruary(d) && pre == Detour(d)
    ensures at(d.year) - start == 1 + pre
  {
    assert at(d.year) == After28(d.year);
  }

  lemma DetourLink(td: TimerDef, at: int -> int, d: Date, pre: nat, start: int, i: nat)
    requires LeapDay(td) && YearDays(at) && ProperDate(d) && start == DayNumber(d) && 0 <= d.year <= 0xFFFF
    requires pre == Detour(d) && i < pre
    ensures Linked(Retrying(td), Years(at, pre, d.year, start), i)
  {
    RetryIsNextDayOfFebruary(td, 29 - pre + i, d.year, 1 + i, false);
    if i + 1 == pre {
      DetourEnd(at, d, pre, start);
      YearAtTry(at, pre, d.year, start, i + 1);
    }
  }

  lemma YearStart(td: TimerDef, at: int -> int, tm: Tm, done: bool, pre: nat, first: int, start: int)
    requires LeapDay(td) && YearDays(at) && ProperDate(tm.date) && start == DayNumber(tm.date)
    requires pre == Detour(tm.date) && first == FirstYear(tm.date, done) && 0 <= tm.date.year < 0xFFFF
    ensures Retrying(td)(Search(StartPos(tm), done)) == Search(Years(at, pre, first, start)(0), true)
  {
    if pre == 0 {
      assert at(first) == After28(first);
      RetryIsFirstYear(td, tm, done);
    } else {
      RetryIsNextDayOfFebruary(td, tm.date.mday, first, 0, done);
    }
  }

  lemma LeapDayChain(td: TimerDef, at: int -> int, tm: Tm, done: bool, pre: nat, first: int, start: int, k: nat)
    requires LeapDay(td) && YearDays(at) && ProperDate(tm.date) && start == DayNumber(tm.date)
    requires pre == Detour(tm.date) && first == FirstYear(tm.date, done)
    requires 0 <= tm.date.year < 0xFFFF && first + k - pre <= 0xFFFF
    ensures Chain(Retrying(td), Search(StartPos(tm), done), Years(at, pre, first, start), 0, k)
  {
    YearStart(td, at, tm, done, pre, first, start);
    forall i | 0 <= i < k ensures Linked(Retrying(td), Years(at, pre, first, start), i) {
      if i < pre {
        DetourLink(td, at, tm.date, pre, start, i);
      } else {
        YearLink(td, at, pre, first, start, i);
      }
    }
  }

  lemma YearsTry(at: int -> int, pre: nat, first: int, start: int)
    ensures Tries(Years(at, pre, first, start), pre, at, first, start)
  {
    forall i: nat | pre <= i ensures Years(at, pre, first, start)(i).offDays == at(first + i - pre) - start {
      YearAtTry(at, pre, first, start, i);
    }
  }

  // ---- the first day that fits ----

  lemma LeapDayFits(td: TimerDef, d: Date)
    requires LeapDay(td) && ProperDate(d)
    ensures DayFits(td, DayNumber(d)) <==> d.mon == 2 && d.mday == 29 && OnWeekday(td.wDay, WeekdayOf(DayNumber(d)))
  {
    DateIsUnique(d);
  }

  lemma YearFits(td: TimerDef, year: int)
    requires LeapDay(td)
    ensures DayFits(td, After28(year)) <==> FitsYear(td, year)
  {
    var d := if Leap(year) then Date(year, 2, 29) else Date(year, 3, 1);
    assert DayNumber(d) == After28(year);
    LeapDayFits(td, d);
  }

  lemma FitsInYear(td: TimerDef, day: int)
    requires LeapDay(td) && DayFits(td, day)
    ensures day == After28(DateOf(day).year)
  {
    DateOfDay(day);
  }

  lemma YearsRound(td: TimerDef, at: int -> int) returns (round: int -> int)
    requires LeapDay(td) && YearDays(at)
    ensures InRounds(FittingDays(td), at, round)
  {
    round := day => DateOf(day).year;
    forall day | FittingDays(td)(day) ensures at(round(day)) == day {
      FitsInYear(td, day);
    }
  }

  lemma YearsIncrease(at: int -> int)
    requires YearDays(at)
    ensures Increasing(at)
  {
    forall m, n | m < n ensures at(m) < at(n) {
      YearsOrdered(m, n);
      assert at(m) == After28(m) && at(n) == After28(n);
    }
  }

  lemma DetourMisfit(td: TimerDef, d: Date, n: int)
    requires LeapDay(td) && ProperDate(d) && DayNumber(d) < n <= DayNumber(d) + Detour(d)
    ensures !FittingDays(td)(n)
  {
    var e := d.(mday := d.mday + n - DayNumber(d));
    assert DayNumber(e) == n;
    LeapDayFits(td, e);
  }

  lemma DetourTries(days: int -> bool, at: int -> int, pre: nat, first: int, start: int)
    requires forall n :: start < n <= start + pre ==> !days(n)
    ensures NoneFits(days, start, Years(at, pre, first, start), pre)
  {
    forall i | 0 <= i < pre ensures Misfit(days, start, Years(at, pre, first, start)(i)) {
      assert Years(at, pre, first, start)(i).offDays == 1 + i;
    }
  }

  /** Days of February before the 29th do not fit. */
  lemma DetourMisses(td: TimerDef, at: int -> int, d: Date, pre: nat, first: int, start: int)
    requires LeapDay(td) && ProperDate(d) && start == DayNumber(d) && pre == Detour(d)
    ensures NoneFits(FittingDays(td), start, Years(at, pre, first, start), pre)
  {
    var days := FittingDays(td);
    forall n | start < n <= start + pre ensures !days(n) {
      DetourMisfit(td, d, n);
    }
    DetourTries(days, at, pre, first, start);
  }

  /** A date against the days after the 28ths of February around it. */
  lemma AroundAfter28(d: Date)
    requires ProperDate(d)
    ensures After28(d.year - 1) < DayNumber(d) < After28(d.year + 1)
    ensures d.mon < 2 || (d.mon == 2 && d.mday < 29) ==> DayNumber(d) < After28(d.year)
    ensures d.mon == 2 && d.mday == 29 ==> DayNumber(d) == After28(d.year)
    ensures d.mon > 2 ==> After28(d.year) < DayNumber(d) || (After28(d.year) == DayNumber(d) && !Leap(d.year))
  {
    YearLength(d.year - 1);
    YearLength(d.year);
    MonthEnds(d);
    if d.mon > 3 {
      MonthsOrdered(3, d.mon, Leap(d.year));
    }
  }

  lemma FirstYearNotOver(days: int -> bool, at: int -> int, d: Date, done: bool, start: int)
    requires at(d.year - 1) < start < at(d.year + 1) && (days(at(d.year)) ==> Leap(d.year))
    requires d.mon < 2 || (d.mon == 2 && d.mday < 29) ==> start < at(d.year)
    requires d.mon == 2 ==> d.mday <= 29
    requires d.mon == 2 && d.mday == 29 ==> start == at(d.year)
    requires d.mon > 2 ==> at(d.year) < start || (at(d.year) == start && !Leap(d.year))
    ensures
      var first, from := FirstYear(d, done), start + (if done then 0 else 1);
      && from <= at(first)
      && (at(first - 1) < from || (at(first - 1) == from && !days(at(first - 1))))
  {
  }

  lemma FirstYearBounds(td: TimerDef, at: int -> int, d: Date, done: bool, first: int, start: int)
    requires LeapDay(td) && YearDays(at) && ProperDate(d) && start == DayNumber(d) && first == FirstYear(d, done)
    ensures
      var from := start + (if done then 0 else 1);
      && from <= at(first)
      && (at(first - 1) < from || (at(first - 1) == from && !FittingDays(td)(at(first - 1))))
  {
    YearMayFit(td, at, d.year);
    AroundAt(at, d);
    FirstYearNotOver(FittingDays(td), at, d, done, start);
  }

  lemma YearMayFit(td: TimerDef, at: int -> int, year: int)
    requires LeapDay(td) && YearDays(at)
    ensures FittingDays(td)(at(year)) ==> Leap(year)
  {
    YearFits(td, year);
  }

  lemma AroundAt(at: int -> int, d: Date)
    requires ProperDate(d) && YearDays(at)
    ensures at(d.year - 1) < DayNumber(d) < at(d.year + 1)
    ensures d.mon < 2 || (d.mon == 2 && d.mday < 29) ==> DayNumber(d) < at(d.year)
    ensures d.mon == 2 ==> d.mday <= 29
    ensures d.mon == 2 && d.mday == 29 ==> DayNumber(d) == at(d.year)
    ensures d.mon > 2 ==> at(d.year) < DayNumber(d) || (at(d.year) == DayNumber(d) && !Leap(d.year))
  {
    AroundAfter28(d);
  }

  // ---- the next time ----

  lemma SomeYearDays() returns (at: int -> int)
    ensures YearDays(at)
  {
    at := y => After28(y);
  }

  lemma SomeYearFits(td: TimerDef, at: int -> int, first: int) returns (w: int)
    requires LeapDay(td) && SomeWeekday(td) && YearDays(at)
    ensures first <= w <= first + 39 && FittingDays(td)(at(w))
  {
    var wday :| 0 <= wday < 7 && OnWeekday(td.wDay, wday);
    w := FortyYears(first, wday);
    YearFits(td, w);
  }

  lemma MissedYear(td: TimerDef, at: int -> int, year: int)
    requires LeapDay(td) && YearDays(at)
    ensures FittingDays(td)(at(year)) <==> FitsYear(td, year)
  {
    YearFits(td, year);
  }

  /** Year e is the first one to fit. */
  ghost predicate FirstFit(td: TimerDef, first: int, e: int) {
    first <= e && FitsYear(td, e) && forall y :: first <= y < e ==> !FitsYear(td, y)
  }

  lemma LeapDayRounds(td: TimerDef, at: int -> int, d: Date, done: bool, first: int, start: int)
    returns (round: int -> int, e: int)
    requires LeapDay(td) && SomeWeekday(td) && YearDays(at)
    requires ProperDate(d) && start == DayNumber(d) && first == FirstYear(d, done)
    ensures Rounds(FittingDays(td), at, round, start, if done then 0 else 1, first, e) && e <= first + 39
    ensures RoundsMiss(FittingDays(td), at, first, e)
  {
    var w := SomeYearFits(td, at, first);
    e := LeastRound(FittingDays(td), at, first, w);
    YearsIncrease(at);
    round := YearsRound(td, at);
    FirstYearBounds(td, at, d, done, first, start);
  }

  lemma RoundsAreYears(td: TimerDef, at: int -> int, first: int, e: int)
    requires LeapDay(td) && YearDays(at)
    requires first <= e && FittingDays(td)(at(e)) && RoundsMiss(FittingDays(td), at, first, e)
    ensures FirstFit(td, first, e)
  {
    MissedYear(td, at, e);
    forall y | first <= y < e ensures !FitsYear(td, y) {
      assert !FittingDays(td)(at(y));
      MissedYear(td, at, y);
    }
  }

  lemma LeapDayTries(td: TimerDef, at: int -> int, tm: Tm, done: bool, pre: nat, first: int, start: int, k: nat)
    returns (pos: nat -> Pos)
    requires LeapDay(td) && YearDays(at) && ProperDate(tm.date) && start == DayNumber(tm.date)
    requires pre == Detour(tm.date) && first == FirstYear(tm.date, done)
    requires 0 <= tm.date.year < 0xFFFF && first + k - pre <= 0xFFFF
    ensures Chain(Retrying(td), Search(StartPos(tm), done), pos, 0, k)
    ensures Tries(pos, pre, at, first, start) && NoneFits(FittingDays(td), start, pos, pre)
  {
    pos := Years(at, pre, first, start);
    LeapDayChain(td, at, tm, done, pre, first, start, k);
    YearsTry(at, pre, first, start);
    DetourMisses(td, at, tm.date, pre, first, start);
  }

  /** The search for a year: the dates tried, k of them followed, and the first year to fit. */
  lemma LeapDaySearch(gm: int -> Tm, td: TimerDef, tm: Tm, done: bool, pre: nat, first: int, start: int)
    returns (days: int -> bool, at: int -> int, round: int -> int, pos: nat -> Pos, e: int)
    requires IsGmTime(gm) && LeapDay(td) && SomeWeekday(td) && ProperDate(tm.date) && start == DayNumber(tm.date)
    requires pre == Detour(tm.date) && first == FirstYear(tm.date, done) && 0 <= tm.date.year <= 0xFFFF - 40
    ensures FiresOn(Check(gm, td), days, ZoneOffset(td), FiringSecond(td))
    ensures Rounds(days, at, round, start, if done then 0 else 1, first, e) && e <= first + 39
    ensures RoundsMiss(days, at, first, e) && FirstFit(td, first, e)
    ensures Chain(Retrying(td), Search(StartPos(tm), done), pos, 0, pre + e - first)
    ensures Tries(pos, pre, at, first, start) && NoneFits(days, start, pos, pre)
  {
    at := SomeYearDays();
    days := FittingDays(td);
    OnceFires(gm, td);
    round, e := LeapDayRounds(td, at, tm.date, done, first, start);
    RoundsAreYears(td, at, first, e);
    pos := LeapDayTries(td, at, tm, done, pre, first, start, pre + e - first);
  }

  /** Among the dates tried before the first year to fit none fits. */
  lemma NoneInTime(days: int -> bool, at: int -> int, day: int, first: int, e: int, pos: nat -> Pos, pre: nat, n: nat)
    requires Tries(pos, pre, at, first, day) && NoneFits(days, day, pos, pre) && RoundsMiss(days, at, first, e)
    requires n <= pre + e - first
    ensures NoneFits(days, day, pos, n)
  {
    forall i | 0 <= i < n ensures Misfit(days, day, pos(i)) {
      if i < pre {
        assert Misfit(days, day, pos(i));
      } else {
        assert !days(at(first + i - pre));
      }
    }
  }

  lemma NextFromYears(retry: Search -> Search, accepts: int -> bool, days: int -> bool, zone: int, firing: int,
                      last: Timespec, tm: Tm, c: Clock,
                      at: int -> int, round: int -> int, pos: nat -> Pos, pre: nat, first: int, e: int)
    requires FiresOn(accepts, days, zone, firing) && ClockAt(last.sec, zone, firing, c)
    requires Rounds(days, at, round, (last.sec + zone) / DAY, if c.done then 0 else 1, first, e)
    requires RoundsMiss(days, at, first, e) && NoneFits(days, (last.sec + zone) / DAY, pos, pre)
    requires Chain(retry, Search(StartPos(tm), c.done), pos, 0, pre + e - first)
    requires Tries(pos, pre, at, first, (last.sec + zone) / DAY)
    ensures
      var r := NextFrom(retry, accepts, last, tm, c);
      if pre + e - first < 42 then r.nsec == last.nsec && Earliest(accepts, last.sec, r.sec) else r == NEVER
  {
    if pre + e - first < 42 {
      NextFromRounds(retry, accepts, days, zone, firing, last, tm, c, at, round, pos, pre, first, e);
    } else {
      NoneInTime(days, at, (last.sec + zone) / DAY, first, e, pos, pre, 42);
      NextFromNever(retry, accepts, days, zone, firing, last, tm, c, pos);
    }
  }

  lemma NextFromLeapDay(gm: int -> Tm, last: Timespec, td: TimerDef, tm: Tm, c: Clock, zone: int, firing: int,
                        pre: nat, first: int, start: int) returns (e: int)
    requires IsGmTime(gm) && LeapDay(td) && SomeWeekday(td) && 0 <= tm.date.year <= 0xFFFF - 40
    requires zone == ZoneOffset(td) && firing == FiringSecond(td) && ClockAt(last.sec, zone, firing, c)
    requires ProperDate(tm.date) && start == DayNumber(tm.date) == (last.sec + zone) / DAY
    requires pre == Detour(tm.date) && first == FirstYear(tm.date, c.done)
    ensures FirstFit(td, first, e) && e <= first + 39
    ensures
      var r := NextFrom(Retrying(td), Check(gm, td), last, tm, c);
      if pre + e - first < 42 then r.nsec == last.nsec && Earliest(Check(gm, td), last.sec, r.sec) else r == NEVER
  {
    var days, at, round, pos;
    days, at, round, pos, e := LeapDaySearch(gm, td, tm, c.done, pre, first, start);
    NextFromYears(Retrying(td), Check(gm, td), days, zone, firing, last, tm, c, at, round, pos, pre, first, e);
  }

  /**
   * A timer for the 29th of February at one time of day, if that falls on a set weekday: counting
   * the days of a common year's February and the years it has to pass, the next time is the
   * earliest accepted one if these are fewer than 42, and otherwise the timer is disarmed.
   */
  lemma LeapDayExact(gm: int -> Tm, last: Timespec, td: TimerDef) returns (e: int)
    requires IsGmTime(gm) && LeapDay(td) && SomeWeekday(td)
    requires 0 <= ZonedTime(gm, last.sec, td).date.year <= 0xFFFF - 40
    ensures
      var tm := ZonedTime(gm, last.sec, td);
      var first := FirstYear(tm.date, FiringSecond(td) > SecondOfDay(tm));
      && FirstFit(td, first, e) && e <= first + 39
      && (if Detour(tm.date) + e - first < 42
          then NextTime(gm, last, td).nsec == last.nsec && Earliest(Check(gm, td), last.sec, NextTime(gm, last, td).sec)
          else NextTime(gm, last, td) == NEVER)
  {
    var tm := ZonedTime(gm, last.sec, td);
    var c := HourStep(td, tm);
    assert BrokenDown(last.sec + ZoneOffset(td), tm);
    ClockIsExact(td, tm);
    OnceStart(gm, last.sec, td, tm, c);
    e := NextFromLeapDay(gm, last, td, tm, c, ZoneOffset(td), FiringSecond(td),
                         Detour(tm.date), FirstYear(tm.date, c.done), DayNumber(tm.date));
  }

  /** So outside a common year's February it always is the earliest one. */
  lemma LeapDayIsEarliest(gm: int -> Tm, last: Timespec, td: TimerDef)
    requires IsGmTime(gm) && LeapDay(td) && SomeWeekday(td)
    requires 0 <= ZonedTime(gm, last.sec, td).date.year <= 0xFFFF - 40
    requires !CommonFebruary(ZonedTime(gm, last.sec, td).date)
    ensures NextTime(gm, last, td).nsec == last.nsec
    ensures Earliest(Check(gm, td), last.sec, NextTime(gm, last, td).sec)
  {
    var e := LeapDayExact(gm, last, td);
  }

  lemma Mondays()
    ensures WeekdayOf(After28(2004)) != 1 && WeekdayOf(After28(2008)) != 1 && WeekdayOf(After28(2012)) != 1
    ensures Leap(2016) && WeekdayOf(After28(2016)) == 1
  {
  }

  lemma FirstMonday(td: TimerDef, e: int)
    requires td.wDay == {0} && FirstFit(td, 2001, e)
    ensures e == 2016
  {
    Mondays();
    assert FitsYear(td, 2016);
  }

  /** From any time of the 1st of February 2001 a timer for leap days on a Monday is disarmed. */
  lemma LeapDayGivesUp(gm: int -> Tm, last: Timespec, td: TimerDef)
    requires IsGmTime(gm) && LeapDay(td) && td.wDay == {0}
    requires ZonedTime(gm, last.sec, td).date == Date(2001, 2, 1)
    ensures NextTime(gm, last, td) == NEVER
  {
    assert OnWeekday(td.wDay, 1);
    var e := LeapDayExact(gm, last, td);
    FirstMonday(td, e);
  }
}
