/**
 * Timer definitions and the computation of a timer's next firing time (src/timer.c).
 */
module Timer {
  import opened Calendar

  type uint8 = x: int | 0 <= x < 0x100
  type uint16 = x: int | 0 <= x < 0x1_0000

  datatype ByteRange = ByteRange(lo: uint8, hi: uint8)
  datatype WordRange = WordRange(lo: uint16, hi: uint16)

  /** The weekday mask is the set of its bits, bit 0 for Monday to bit 6 for Sunday. */
  datatype TimerDef = TimerDef(
    wDay: set<int>, years: WordRange, month: ByteRange, days: ByteRange,
    hours: ByteRange, minutes: ByteRange, seconds: ByteRange,
    tzHour: int, tzMin: int)

  datatype Timespec = Timespec(sec: int, nsec: int)

  /** A zero time disarms the timer. */
  const NEVER := Timespec(0, 0)

  predicate CC(start: int, test: int, end: int) { start <= test <= end }
  predicate CO(start: int, test: int, end: int) { start <= test < end }
  predicate OC(start: int, test: int, end: int) { start < test <= end }

  function ZoneOffset(td: TimerDef): int {
    td.tzHour * 3600 + td.tzMin * 60
  }

  /** `gm` is the library's conversion to broken-down UTC time. */
  function ZonedTime(gm: int -> Tm, t: int, td: TimerDef): Tm {
    gm(t + ZoneOffset(td))
  }

  /** A range with lo > hi wraps around. */
  predicate Within(lo: int, x: int, hi: int) {
    CC(lo, x, hi) || CO(x, hi, lo) || OC(hi, lo, x)
  }

  predicate OnWeekday(mask: set<int>, wday: int) {
    (wday + 6) % 7 in mask
  }

  /** The wrap-around clause for minutes has its bounds the other way round. */
  predicate MinuteWithin(lo: int, x: int, hi: int) {
    CC(lo, x, hi) || CO(x, hi, lo) || OC(lo, hi, x)
  }

  /** So the test accepts minutes above a plain range and refuses the upper part of a wrapping one. */
  lemma MinuteTestDiffers(lo: int, x: int, hi: int)
    ensures MinuteWithin(lo, x, hi) && !Within(lo, x, hi) <==> lo < hi < x
    ensures Within(lo, x, hi) && !MinuteWithin(lo, x, hi) <==> hi < lo <= x
  {
  }

  predicate Fits(td: TimerDef, tm: Tm) {
    && Within(td.seconds.lo, tm.sec, td.seconds.hi)
    && MinuteWithin(td.minutes.lo, tm.min, td.minutes.hi)
    && Within(td.hours.lo, tm.hour, td.hours.hi)
    && Within(td.days.lo, tm.date.mday, td.days.hi)
    && Within(td.month.lo, tm.date.mon, td.month.hi)
    && Within(td.years.lo, tm.date.year % 0x1_0000, td.years.hi)
    && OnWeekday(td.wDay, tm.wday)
  }

  predicate Accepts(gm: int -> Tm, td: TimerDef, t: int) {
    Fits(td, ZonedTime(gm, t, td))
  }

  /** The code keeps years in sixteen bits for its leap year test. */
  predicate LeapYear(year: int) {
    Leap(year % 0x1_0000)
  }

  function LengthOfMonth(m: int, year: int): int {
    if 1 <= m <= 12 then MonthLength(m, LeapYear(year)) else -1
  }

  function DaysBefore(m: int, year: int): int {
    if 1 <= m <= 12 then DaysToMonth(m, LeapYear(year)) else -1
  }

  /** How far a field moves to its next value; the field is settled when it moves forward. */
  function Step(last: int, r: ByteRange, start: int, limit: int): int {
    var lo := if start <= r.lo then r.lo else start;
    var hi := if r.hi <= limit then r.hi else limit;
    if lo == hi then lo - last
    else if lo < hi then (if CO(lo, last, hi) then 1 else lo - last)
    else if CO(hi, last, lo) then lo - last
    else if last == limit then start - limit
    else 1
  }

  predicate Admissible(x: int, r: ByteRange, start: int, limit: int) {
    start <= x <= limit && Within(r.lo, x, r.hi)
  }

  /**
   * A field moves to its least admissible value above the last one, and otherwise back to the
   * least admissible value of all, not settled.
   */
  lemma StepIsCyclicSuccessor(last: int, r: ByteRange, start: int, limit: int, x: int)
    requires 0 <= start <= last <= limit && r.lo <= limit && start <= r.hi
    requires Admissible(x, r, start, limit)
    ensures
      var next := last + Step(last, r, start, limit);
      && Admissible(next, r, start, limit)
      && (next > last ==> (x > last ==> next <= x))
      && (next <= last ==> next <= x <= last)
  {
  }

  /** Where the search stands: the date it has reached and how many days that moved it. */
  datatype Pos = Pos(day: int, month: int, year: int, offDays: int)

  datatype Search = Search(pos: Pos, done: bool)

  predicate LeapDayTimer(td: TimerDef, day: int) {
    td.days == ByteRange(29, 29) && td.month == ByteRange(2, 2) && day == 29
  }

  function DayStep(td: TimerDef, s: Search): Search {
    var p := s.pos;
    if s.done && CC(td.days.lo, p.day, td.days.hi) then s
    else if LeapDayTimer(td, p.day) then Search(p, false)
    else
      var off := Step(p.day, td.days, 1, LengthOfMonth(p.month, p.year));
      Search(p.(day := p.day + off, offDays := p.offDays + off), off > 0)
  }

  function MonthStep(td: TimerDef, s: Search): Search {
    var p := s.pos;
    if s.done && CC(td.month.lo, p.month, td.month.hi) then s
    else
      var m := p.month + Step(p.month, td.month, 1, 12);
      Search(p.(month := m, offDays := p.offDays + DaysBefore(m, p.year) - DaysBefore(p.month, p.year)),
             m > p.month)
  }

  predicate YearCanAdvance(last: int, r: WordRange) {
    if r.lo == r.hi then false
    else if r.lo < r.hi then CO(r.lo, last, r.hi)
    else last < r.hi || last >= r.lo
  }

  /** A year that cannot advance ends the search, so its position no longer matters. */
  function YearStep(td: TimerDef, s: Search): Search {
    var p := s.pos;
    if s.done && CC(td.years.lo, p.year, td.years.hi) then s
    else if YearCanAdvance(p.year, td.years) then
      Search(p.(year := p.year + 1, offDays := p.offDays + 365 + (if LeapYear(p.year) then 1 else 0)), true)
    else Search(p, false)
  }

  function Retry(td: TimerDef, s: Search): Search {
    YearStep(td, MonthStep(td, DayStep(td, s)))
  }

  const MAX_TRIES := 40

  function At(base: int, p: Pos): int {
    base + p.offDays * DAY
  }

  /** Retries until a candidate is accepted, the date cannot move on or the tries are used up. */
  function SearchFrom(retry: Search -> Search, accepts: int -> bool, base: int, nsec: int, s: Search, tries: nat)
    : Timespec
    decreases MAX_TRIES + 1 - tries, base
  {
    var s' := retry(s);
    if !s'.done then NEVER
    else if accepts(At(base, s'.pos)) then Timespec(At(base, s'.pos), nsec)
    else if tries <= MAX_TRIES then SearchFrom(retry, accepts, base, nsec, Search(s'.pos, false), tries + 1)
    else NEVER
  }

  datatype Clock = Clock(off: int, done: bool)

  function SecondStep(td: TimerDef, tm: Tm): Clock {
    var off := Step(tm.sec, td.seconds, 0, 59);
    Clock(off, off > 0)
  }

  function MinuteStep(td: TimerDef, tm: Tm): Clock {
    var c := SecondStep(td, tm);
    if c.done && CC(td.minutes.lo, tm.min, td.minutes.hi) then c
    else var off := Step(tm.min, td.minutes, 0, 59); Clock(c.off + 60 * off, off > 0)
  }

  function HourStep(td: TimerDef, tm: Tm): Clock {
    var c := MinuteStep(td, tm);
    if c.done && CC(td.hours.lo, tm.hour, td.hours.hi) then c
    else var off := Step(tm.hour, td.hours, 0, 23); Clock(c.off + 3600 * off, off > 0)
  }

  function StartPos(tm: Tm): Pos {
    Pos(tm.date.mday, tm.date.mon, tm.date.year, 0)
  }

  function Retrying(td: TimerDef): Search -> Search {
    s => Retry(td, s)
  }

  function Check(gm: int -> Tm, td: TimerDef): int -> bool {
    t => Accepts(gm, td, t)
  }

  function NextFrom(retry: Search -> Search, accepts: int -> bool, last: Timespec, tm: Tm, c: Clock): Timespec {
    SearchFrom(retry, accepts, last.sec + c.off, last.nsec, Search(StartPos(tm), c.done), 0)
  }

  function NextTime(gm: int -> Tm, last: Timespec, td: TimerDef): Timespec {
    var tm := ZonedTime(gm, last.sec, td);
    NextFrom(Retrying(td), Check(gm, td), last, tm, HourStep(td, tm))
  }

  /** The seconds, minutes and hours part of the computation. */
  method TimeOfDay(td: TimerDef, tm: Tm) returns (c: Clock)
    ensures c == HourStep(td, tm)
  {
    var offSec, offMin, offHour := Step(tm.sec, td.seconds, 0, 59), 0, 0;
    var done := offSec > 0;
    if !done || !CC(td.minutes.lo, tm.min, td.minutes.hi) {
      offMin := Step(tm.min, td.minutes, 0, 59);
      done := offMin > 0;
    }
    if !done || !CC(td.hours.lo, tm.hour, td.hours.hi) {
      offHour := Step(tm.hour, td.hours, 0, 23);
      done := offHour > 0;
    }
    c := Clock(offSec + offMin * 60 + offHour * 3600, done);
  }

  /** One turn of the retry loop, before the candidate is checked. */
  method NextDate(td: TimerDef, s: Search) returns (n: Search)
    ensures n == Retry(td, s)
  {
    var day, month, year, offDays := s.pos.day, s.pos.month, s.pos.year, s.pos.offDays;
    var done := s.done;
    if !done || !CC(td.days.lo, day, td.days.hi) {
      if LeapDayTimer(td, day) {
        done := false;
      } else {
        var off := Step(day, td.days, 1, LengthOfMonth(month, year));
        day, offDays, done := day + off, offDays + off, off > 0;
      }
    }
    ghost var s1 := Search(Pos(day, month, year, offDays), done);
    assert s1 == DayStep(td, s);
    if !done || !CC(td.month.lo, month, td.month.hi) {
      var previous := month;
      var off := Step(previous, td.month, 1, 12);
      month, done := previous + off, off > 0;
      offDays := offDays + DaysBefore(month, year) - DaysBefore(previous, year);
    }
    assert Search(Pos(day, month, year, offDays), done) == MonthStep(td, s1);
    if !done || !CC(td.years.lo, year, td.years.hi) {
      done := YearCanAdvance(year, td.years);
      if done {
        offDays := offDays + 365 + (if LeapYear(year) then 1 else 0);
        year := year + 1;
      }
    }
    n := Search(Pos(day, month, year, offDays), done);
  }

  /** The retry loop. */
  method FindDate(td: TimerDef, accepts: int -> bool, last: Timespec, tm: Tm, c: Clock) returns (next: Timespec)
    ensures next == NextFrom(Retrying(td), accepts, last, tm, c)
  {
    var base, s, tries := last.sec + c.off, Search(StartPos(tm), c.done), 0;
    ghost var retry, goal := Retrying(td), NextFrom(Retrying(td), accepts, last, tm, c);
    while true
      invariant SearchFrom(retry, accepts, base, last.nsec, s, tries) == goal
      decreases MAX_TRIES + 1 - tries
    {
      var n := NextDate(td, s);
      assert n == retry(s);
      if !n.done {
        return NEVER;
      }
      next := Timespec(At(base, n.pos), last.nsec);
      if accepts(next.sec) {
        return;
      }
      if tries > MAX_TRIES {
        return NEVER;
      }
      s, tries := Search(n.pos, false), tries + 1;
    }
  }

  /** The computation as the code performs it. */
  method ComputeNextTime(gm: int -> Tm, last: Timespec, td: TimerDef) returns (next: Timespec)
    ensures next == NextTime(gm, last, td)
  {
    var tm := ZonedTime(gm, last.sec, td);
    var c := TimeOfDay(td, tm);
    next := FindDate(td, Check(gm, td), last, tm, c);
  }
}
