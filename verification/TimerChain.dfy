/**
 * The search for the date of a timer with one time of day, as a chain of the dates it tries.
 */
module TimerChain {
  import opened Calendar
  import opened Timer
  import opened TimerDates
  import opened TimerExact

  // ---- the search along a chain of dates ----

  /** A retry from date i of the chain leads to the next one. */
  ghost predicate Linked(retry: Search -> Search, pos: nat -> Pos, i: nat) {
    retry(Search(pos(i), false)) == Search(pos(i + 1), true)
  }

  /** From search state `s` on, the retries lead to pos(j), pos(j + 1) and so on up to pos(n). */
  ghost predicate Chain(retry: Search -> Search, s: Search, pos: nat -> Pos, j: nat, n: nat) {
    retry(s) == Search(pos(j), true) && forall i :: j <= i < n ==> Linked(retry, pos, i)
  }

  ghost predicate Refused(accepts: int -> bool, base: int, p: Pos) {
    !accepts(At(base, p))
  }

  /** The first accepted date of the chain is found if it is among those still tried. */
  lemma {:induction false} ChainFinds(retry: Search -> Search, accepts: int -> bool, base: int, nsec: int,
                                      s: Search, pos: nat -> Pos, j: nat, k: nat)
    requires j <= k <= MAX_TRIES + 1 && Chain(retry, s, pos, j, k)
    requires !Refused(accepts, base, pos(k)) && forall i :: j <= i < k ==> Refused(accepts, base, pos(i))
    ensures SearchFrom(retry, accepts, base, nsec, s, j) == Timespec(At(base, pos(k)), nsec)
    decreases k - j
  {
    if j < k {
      assert Refused(accepts, base, pos(j));
      assert Linked(retry, pos, j);
      ChainFinds(retry, accepts, base, nsec, Search(pos(j), false), pos, j + 1, k);
    }
  }

  /** With no accepted date among those tried the search gives up. */
  lemma {:induction false} ChainFails(retry: Search -> Search, accepts: int -> bool, base: int, nsec: int,
                                      s: Search, pos: nat -> Pos, j: nat)
    requires j <= MAX_TRIES + 1 && Chain(retry, s, pos, j, MAX_TRIES + 1)
    requires forall i :: j <= i <= MAX_TRIES + 1 ==> Refused(accepts, base, pos(i))
    ensures SearchFrom(retry, accepts, base, nsec, s, j) == NEVER
    decreases MAX_TRIES + 1 - j
  {
    assert Refused(accepts, base, pos(j));
    if j < MAX_TRIES + 1 {
      assert Linked(retry, pos, j);
      ChainFails(retry, accepts, base, nsec, Search(pos(j), false), pos, j + 1);
    }
  }

  // ---- one time of day ----

  predicate OnceADay(td: TimerDef) {
    && td.seconds.lo == td.seconds.hi <= 59
    && td.minutes.lo == td.minutes.hi <= 59
    && td.hours.lo == td.hours.hi <= 23
  }

  function FiringSecond(td: TimerDef): int {
    td.hours.lo * 3600 + td.minutes.lo * 60 + td.seconds.lo
  }

  /** The clock goes to the firing second of the same day and is settled if that is still to come. */
  lemma ClockIsExact(td: TimerDef, tm: Tm)
    requires OnceADay(td) && OnClock(tm)
    ensures HourStep(td, tm) == Clock(FiringSecond(td) - SecondOfDay(tm), FiringSecond(td) > SecondOfDay(tm))
  {
    var s := SecondStep(td, tm);
    assert s == Clock(td.seconds.lo - tm.sec, td.seconds.lo > tm.sec);
    var m := MinuteStep(td, tm);
    assert m.off == (td.minutes.lo - tm.min) * 60 + td.seconds.lo - tm.sec;
    assert m.done <==> m.off > 0;
  }

  /** The day fits the definition's dates and weekdays. */
  predicate DayFits(td: TimerDef, day: int) {
    var d := DateOf(day);
    && Within(td.days.lo, d.mday, td.days.hi) && Within(td.month.lo, d.mon, td.month.hi)
    && Within(td.years.lo, d.year % 0x1_0000, td.years.hi) && OnWeekday(td.wDay, WeekdayOf(day))
  }

  function FittingDays(td: TimerDef): int -> bool {
    day => DayFits(td, day)
  }

  lemma ClockFits(td: TimerDef, tm: Tm)
    requires OnceADay(td) && OnClock(tm)
    ensures SecondOfDay(tm) == FiringSecond(td) <==>
            && Within(td.seconds.lo, tm.sec, td.seconds.hi) && MinuteWithin(td.minutes.lo, tm.min, td.minutes.hi)
            && Within(td.hours.lo, tm.hour, td.hours.hi)
  {
  }

  lemma DateFits(td: TimerDef, tm: Tm, day: int)
    requires ProperDate(tm.date) && DayNumber(tm.date) == day && tm.wday == WeekdayOf(day)
    ensures DayFits(td, day) <==>
            && Within(td.days.lo, tm.date.mday, td.days.hi) && Within(td.month.lo, tm.date.mon, td.month.hi)
            && Within(td.years.lo, tm.date.year % 0x1_0000, td.years.hi) && OnWeekday(td.wDay, tm.wday)
  {
    DateIsUnique(tm.date);
  }

  lemma OnceFits(td: TimerDef, tm: Tm, day: int)
    requires OnceADay(td) && OnClock(tm)
    requires ProperDate(tm.date) && DayNumber(tm.date) == day && tm.wday == WeekdayOf(day)
    ensures Fits(td, tm) <==> SecondOfDay(tm) == FiringSecond(td) && DayFits(td, day)
  {
    ClockFits(td, tm);
    DateFits(td, tm, day);
  }

  lemma OnceAccepts(gm: int -> Tm, td: TimerDef, t: int)
    requires IsGmTime(gm) && OnceADay(td)
    ensures
      var local := t + ZoneOffset(td);
      Accepts(gm, td, t) <==> local % DAY == FiringSecond(td) && DayFits(td, local / DAY)
  {
    var local := t + ZoneOffset(td);
    assert BrokenDown(local, ZonedTime(gm, t, td));
    OnceFits(td, ZonedTime(gm, t, td), local / DAY);
  }

  /** Times are accepted at the firing second of the days that fit. */
  ghost predicate FiresOn(accepts: int -> bool, days: int -> bool, zone: int, firing: int) {
    forall t :: accepts(t) <==> (t + zone) % DAY == firing && days((t + zone) / DAY)
  }

  lemma OnceFires(gm: int -> Tm, td: TimerDef)
    requires IsGmTime(gm) && OnceADay(td)
    ensures FiresOn(Check(gm, td), FittingDays(td), ZoneOffset(td), FiringSecond(td))
  {
    forall t
      ensures Accepts(gm, td, t) <==>
              (t + ZoneOffset(td)) % DAY == FiringSecond(td) && FittingDays(td)((t + ZoneOffset(td)) / DAY)
    {
      OnceAccepts(gm, td, t);
    }
  }

  // ---- the earliest time ----

  /** The clock goes to the firing second. */
  predicate ClockAt(last: int, zone: int, firing: int, c: Clock) {
    var s := (last + zone) % DAY;
    0 <= firing < DAY && c == Clock(firing - s, firing > s)
  }

  lemma DayAccepted(accepts: int -> bool, days: int -> bool, zone: int, firing: int, last: int, c: Clock, k: int)
    requires FiresOn(accepts, days, zone, firing) && ClockAt(last, zone, firing, c)
    ensures accepts(Candidate(last + c.off, k)) <==> days((last + zone) / DAY + k)
  {
    var s, day := (last + zone) % DAY, (last + zone) / DAY;
    assert Candidate(last + c.off, k) + zone == (day + k) * DAY + firing;
    DayAndSecond(day + k, firing);
  }

  /** Day k from the last time's day is the first one to fit. */
  ghost predicate FirstDay(days: int -> bool, day: int, from: int, k: int) {
    from <= k && days(day + k) && forall n :: day + from <= n < day + k ==> !days(n)
  }

  lemma FirstDayIsEarliest(accepts: int -> bool, days: int -> bool, zone: int, firing: int, last: int, c: Clock, k: int)
    requires FiresOn(accepts, days, zone, firing) && ClockAt(last, zone, firing, c)
    requires FirstDay(days, (last + zone) / DAY, if c.done then 0 else 1, k)
    ensures Earliest(accepts, last, Candidate(last + c.off, k))
  {
    var s, day := (last + zone) % DAY, (last + zone) / DAY;
    DayAccepted(accepts, days, zone, firing, last, c, k);
    forall u | last < u && accepts(u) ensures Candidate(last + c.off, k) <= u {
      var n := (u + zone) / DAY - day;
      assert u + zone == (day + n) * DAY + firing && last + zone == day * DAY + s;
      assert days(day + n);
    }
  }

  /** The dates tried, and the first of them that fits. */
  ghost predicate FitsFirst(days: int -> bool, day: int, pos: nat -> Pos, k: nat) {
    days(day + pos(k).offDays) && NoneFits(days, day, pos, k)
  }

  ghost predicate NoneFits(days: int -> bool, day: int, pos: nat -> Pos, k: nat) {
    forall i :: 0 <= i < k ==> Misfit(days, day, pos(i))
  }

  ghost predicate Misfit(days: int -> bool, day: int, p: Pos) {
    !days(day + p.offDays)
  }

  /** A chain whose first fitting date comes in time gives that date. */
  lemma NextFromChain(retry: Search -> Search, accepts: int -> bool, days: int -> bool, zone: int, firing: int,
                      last: Timespec, tm: Tm, c: Clock, pos: nat -> Pos, k: nat)
    requires FiresOn(accepts, days, zone, firing) && ClockAt(last.sec, zone, firing, c)
    requires k <= MAX_TRIES + 1 && Chain(retry, Search(StartPos(tm), c.done), pos, 0, k)
    requires FitsFirst(days, (last.sec + zone) / DAY, pos, k)
    ensures NextFrom(retry, accepts, last, tm, c) == Timespec(Candidate(last.sec + c.off, pos(k).offDays), last.nsec)
  {
    var base := last.sec + c.off;
    DayAccepted(accepts, days, zone, firing, last.sec, c, pos(k).offDays);
    forall i | 0 <= i < k ensures Refused(accepts, base, pos(i)) {
      DayAccepted(accepts, days, zone, firing, last.sec, c, pos(i).offDays);
      assert Misfit(days, (last.sec + zone) / DAY, pos(i));
    }
    ChainFinds(retry, accepts, base, last.nsec, Search(StartPos(tm), c.done), pos, 0, k);
  }

  /** A chain without a fitting date among those tried disarms the timer. */
  lemma NextFromNever(retry: Search -> Search, accepts: int -> bool, days: int -> bool, zone: int, firing: int,
                      last: Timespec, tm: Tm, c: Clock, pos: nat -> Pos)
    requires FiresOn(accepts, days, zone, firing) && ClockAt(last.sec, zone, firing, c)
    requires Chain(retry, Search(StartPos(tm), c.done), pos, 0, MAX_TRIES + 1)
    requires NoneFits(days, (last.sec + zone) / DAY, pos, MAX_TRIES + 2)
    ensures NextFrom(retry, accepts, last, tm, c) == NEVER
  {
    var base := last.sec + c.off;
    forall i | 0 <= i <= MAX_TRIES + 1 ensures Refused(accepts, base, pos(i)) {
      DayAccepted(accepts, days, zone, firing, last.sec, c, pos(i).offDays);
      assert Misfit(days, (last.sec + zone) / DAY, pos(i));
    }
    ChainFails(retry, accepts, base, last.nsec, Search(StartPos(tm), c.done), pos, 0);
  }

  // ---- days that come in rounds ----

  ghost predicate Increasing(at: int -> int) {
    forall m, n :: m < n ==> at(m) < at(n)
  }

  /** A day that fits is the day of its round. */
  ghost predicate InRounds(days: int -> bool, at: int -> int, round: int -> int) {
    forall day :: days(day) ==> at(round(day)) == day
  }

  ghost predicate RoundsMiss(days: int -> bool, at: int -> int, a: int, b: int) {
    forall m :: a <= m < b ==> !days(at(m))
  }

  /** The first round to fit from a given day on has the first day to fit. */
  lemma FirstRound(days: int -> bool, at: int -> int, round: int -> int, day: int, from: int, a: int, b: int)
    requires Increasing(at) && InRounds(days, at, round) && a <= b
    requires at(a - 1) < day + from || (at(a - 1) == day + from && !days(at(a - 1)))
    requires day + from <= at(a) && days(at(b)) && RoundsMiss(days, at, a, b)
    ensures FirstDay(days, day, from, at(b) - day)
  {
    assert a < b ==> at(a) < at(b);
    forall n | day + from <= n && days(n) ensures at(b) <= n {
      var m := round(n);
      assert at(m) == n;
      assert m < a - 1 ==> at(m) < at(a - 1);
      assert b < m ==> at(b) < at(m);
    }
  }

  /** Rounds up to one that fits have a first one that does. */
  lemma LeastRound(days: int -> bool, at: int -> int, a: int, w: int) returns (b: int)
    requires a <= w && days(at(w))
    ensures a <= b <= w && days(at(b)) && RoundsMiss(days, at, a, b)
  {
    b := a;
    while !days(at(b))
      invariant a <= b <= w && RoundsMiss(days, at, a, b)
      decreases w - b
    {
      b := b + 1;
    }
  }

  /** The days that fit come in rounds, the first of them still to come is `first`, and round w fits. */
  ghost predicate Rounds(days: int -> bool, at: int -> int, round: int -> int, day: int, from: int,
                         first: int, w: int) {
    && Increasing(at) && InRounds(days, at, round)
    && (at(first - 1) < day + from || (at(first - 1) == day + from && !days(at(first - 1))))
    && day + from <= at(first) && first <= w && days(at(w))
  }

  /** After its first `pre` dates the chain tries one round after the other. */
  ghost predicate Tries(pos: nat -> Pos, pre: nat, at: int -> int, first: int, day: int) {
    forall i: nat :: pre <= i ==> pos(i).offDays == at(first + i - pre) - day
  }

  /** The search along the rounds ends at the first one that fits. */
  lemma RoundsTried(days: int -> bool, at: int -> int, round: int -> int, day: int, from: int, first: int, m: int,
                    w: int, pos: nat -> Pos, pre: nat)
    requires Rounds(days, at, round, day, from, first, w) && Tries(pos, pre, at, first, day)
    requires NoneFits(days, day, pos, pre)
    requires first <= m && days(at(m)) && RoundsMiss(days, at, first, m)
    ensures FitsFirst(days, day, pos, pre + m - first) && FirstDay(days, day, from, pos(pre + m - first).offDays)
  {
    FirstRound(days, at, round, day, from, first, m);
  }

  /** A timer whose search tries one round after the other finds the earliest time. */
  lemma NextFromRounds(retry: Search -> Search, accepts: int -> bool, days: int -> bool, zone: int, firing: int,
                       last: Timespec, tm: Tm, c: Clock,
                       at: int -> int, round: int -> int, pos: nat -> Pos, pre: nat, first: int, m: int)
    requires FiresOn(accepts, days, zone, firing) && ClockAt(last.sec, zone, firing, c)
    requires Rounds(days, at, round, (last.sec + zone) / DAY, if c.done then 0 else 1, first, m)
    requires RoundsMiss(days, at, first, m) && NoneFits(days, (last.sec + zone) / DAY, pos, pre)
    requires pre + m - first <= MAX_TRIES + 1 && Chain(retry, Search(StartPos(tm), c.done), pos, 0, pre + m - first)
    requires Tries(pos, pre, at, first, (last.sec + zone) / DAY)
    ensures
      var r := NextFrom(retry, accepts, last, tm, c);
      r.nsec == last.nsec && Earliest(accepts, last.sec, r.sec)
  {
    var k := pre + m - first;
    RoundsTried(days, at, round, (last.sec + zone) / DAY, if c.done then 0 else 1, first, m, m, pos, pre);
    NextFromChain(retry, accepts, days, zone, firing, last, tm, c, pos, k);
    FirstDayIsEarliest(accepts, days, zone, firing, last.sec, c, pos(k).offDays);
  }

  /** The last time as the search sees it. */
  lemma OnceStart(gm: int -> Tm, last: int, td: TimerDef, tm: Tm, c: Clock)
    requires IsGmTime(gm) && OnceADay(td) && tm == ZonedTime(gm, last, td) && c == HourStep(td, tm)
    ensures ClockAt(last, ZoneOffset(td), FiringSecond(td), c)
    ensures ProperDate(tm.date) && DayNumber(tm.date) == (last + ZoneOffset(td)) / DAY
  {
    assert BrokenDown(last + ZoneOffset(td), tm);
    ClockIsExact(td, tm);
  }
}
