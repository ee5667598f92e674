/**
 * A timer's next time is later than its last one, so the times a timer is armed with strictly
 * increase until it is disarmed.
 */
module TimerAdvance {
  import opened Calendar
  import opened Timer

  lemma ClockBounds(td: TimerDef, tm: Tm)
    requires 0 <= tm.sec <= 59 && 0 <= tm.min <= 59 && 0 <= tm.hour <= 23
    ensures var c := HourStep(td, tm); c.off > -DAY && (c.done ==> c.off > 0)
  {
    var s := SecondStep(td, tm);
    assert s.off >= -59 && (s.done ==> s.off > 0);
    var m := MinuteStep(td, tm);
    assert m.off >= -59 * 60 - 59 && (m.done ==> m.off > 0);
  }

  /** Both positions belong to one search, which started at `a` and has come to `b`. */
  ghost predicate Reached(a: Pos, b: Pos) {
    && 1 <= a.month <= 12 && 1 <= b.month <= 12
    && 1 <= b.day && a.year <= b.year
    && b.offDays >= 365 * (b.year - a.year) + CommonDaysToMonth(b.month) - CommonDaysToMonth(a.month)
                    + b.day - a.day
    && (a.year == b.year ==>
          b.offDays == DaysBefore(b.month, a.year) - DaysBefore(a.month, a.year) + b.day - a.day)
  }

  predicate Later(a: Pos, b: Pos) {
    || b.year > a.year
    || (b.year == a.year && b.month > a.month)
    || (b.year == a.year && b.month == a.month && b.day > a.day)
  }

  lemma DayReached(td: TimerDef, a: Pos, s: Search)
    requires Reached(a, s.pos)
    ensures
      var n := DayStep(td, s);
      && Reached(a, n.pos) && n.pos.month == s.pos.month && n.pos.year == s.pos.year
      && (n.done ==> n == s || n.pos.day > s.pos.day)
  {
  }

  ghost predicate Moves(a: Pos, s: Search, n: Search) {
    n.done ==>
      && Reached(a, n.pos)
      && ((n.pos == s.pos && s.done) || Later(s.pos, n.pos))
      && (n.pos.year == s.pos.year ==> 0 <= s.pos.year <= 0xFFFF)
  }

  /** A month that goes back is followed by a year that goes forward. */
  lemma DateReached(td: TimerDef, a: Pos, s: Search)
    requires Reached(a, s.pos) && td.month.lo <= 12
    ensures
      var n := YearStep(td, MonthStep(td, s));
      Moves(a, s, n) && n.pos.day == s.pos.day
  {
    var n := MonthStep(td, s);
    assert 1 <= n.pos.month <= 12;
    var y := s.pos.year;
    assert DaysBefore(n.pos.month, y) - DaysBefore(s.pos.month, y)
        >= CommonDaysToMonth(n.pos.month) - CommonDaysToMonth(s.pos.month)
           - (if n.pos.month < s.pos.month && LeapYear(y) then 1 else 0);
  }

  lemma RetryReached(td: TimerDef, a: Pos, s: Search)
    requires Reached(a, s.pos) && td.month.lo <= 12
    ensures Moves(a, s, Retry(td, s))
  {
    DayReached(td, a, s);
    DateReached(td, a, DayStep(td, s));
  }

  ghost predicate ProperPos(p: Pos) {
    p.offDays == 0 && ProperDate(Date(p.year, p.month, p.day))
  }

  lemma LaterMovesDays(a: Pos, b: Pos)
    requires ProperPos(a) && Reached(a, b) && Later(a, b)
    requires b.year == a.year ==> 0 <= a.year <= 0xFFFF
    ensures b.offDays >= 1
  {
    if b.year == a.year {
      assert a.year % 0x1_0000 == a.year;
    } else {
      assert 0 <= CommonDaysToMonth(b.month) && CommonDaysToMonth(a.month) <= 334;
    }
  }

  /** The search from `a` has come to `s`: at the start, or past it with nothing settled. */
  ghost predicate Underway(a: Pos, s: Search) {
    && ProperPos(a) && Reached(a, s.pos)
    && (s.pos == a || (!s.done && Later(a, s.pos)))
  }

  /** Every retry of the search from `a` ends the search or moves it on. */
  ghost predicate MovesOn(retry: Search -> Search, a: Pos) {
    forall s: Search :: Reached(a, s.pos) ==> Moves(a, s, retry(s))
  }

  lemma {:induction false} SearchAdvances(retry: Search -> Search, accepts: int -> bool, base: int, nsec: int,
                                          a: Pos, s: Search, tries: nat, last: int)
    requires Underway(a, s) && MovesOn(retry, a)
    requires base > last - DAY
    requires s.done ==> base > last
    ensures
      var r := SearchFrom(retry, accepts, base, nsec, s, tries);
      r != NEVER ==> r.sec > last && r.nsec == nsec && accepts(r.sec)
    decreases MAX_TRIES + 1 - tries
  {
    var n := retry(s);
    if n.done {
      if n.pos != a {
        LaterMovesDays(a, n.pos);
      }
      if !accepts(At(base, n.pos)) && tries <= MAX_TRIES {
        SearchAdvances(retry, accepts, base, nsec, a, Search(n.pos, false), tries + 1, last);
      }
    }
  }

  lemma RetryMovesOn(td: TimerDef, a: Pos)
    requires td.month.lo <= 12
    ensures MovesOn(Retrying(td), a)
  {
    forall s: Search | Reached(a, s.pos) ensures Moves(a, s, Retry(td, s)) {
      RetryReached(td, a, s);
    }
  }

  lemma NextFromAdvances(retry: Search -> Search, accepts: int -> bool, last: Timespec, tm: Tm, c: Clock)
    requires MovesOn(retry, StartPos(tm)) && ProperDate(tm.date)
    requires c.off > -DAY && (c.done ==> c.off > 0)
    ensures
      var r := NextFrom(retry, accepts, last, tm, c);
      r != NEVER ==> r.sec > last.sec && r.nsec == last.nsec && accepts(r.sec)
  {
    var a := StartPos(tm);
    SearchAdvances(retry, accepts, last.sec + c.off, last.nsec, a, Search(a, c.done), 0, last.sec);
  }

  /**
   * A next time other than zero is strictly later than the last time and is one the timer's
   * definition accepts, whatever the definition's ranges are.
   */
  lemma NextTimeAdvances(gm: int -> Tm, last: Timespec, td: TimerDef)
    requires IsGmTime(gm)
    requires td.month.lo <= 12
    ensures
      var r := NextTime(gm, last, td);
      r != NEVER ==> r.sec > last.sec && r.nsec == last.nsec && Accepts(gm, td, r.sec)
  {
    var tm := ZonedTime(gm, last.sec, td);
    ClockBounds(td, tm);
    RetryMovesOn(td, StartPos(tm));
    NextFromAdvances(Retrying(td), Check(gm, td), last, tm, HourStep(td, tm));
  }

  /** When a timer fires it is armed again with the time computed from the one it fired at. */
  ghost predicate Rearmed(gm: int -> Tm, td: TimerDef, times: seq<Timespec>, i: int)
    requires 0 < i < |times|
  {
    times[i - 1] != NEVER && times[i] == NextTime(gm, times[i - 1], td)
  }

  predicate Forward(a: Timespec, b: Timespec) {
    a != NEVER && (b != NEVER ==> a.sec < b.sec)
  }

  lemma {:induction false} ForwardThroughout(times: seq<Timespec>, i: nat, j: nat)
    requires i < j < |times| && times[j] != NEVER
    requires forall k :: 0 <= k < j ==> Forward(times[k], times[k + 1])
    ensures times[i].sec < times[j].sec
  {
    assert Forward(times[j - 1], times[j - 1 + 1]);
    if i < j - 1 {
      ForwardThroughout(times, i, j - 1);
    }
  }

  lemma RearmedForward(gm: int -> Tm, td: TimerDef, times: seq<Timespec>, i: int)
    requires IsGmTime(gm)
    requires td.month.lo <= 12 && 0 < i < |times| && Rearmed(gm, td, times, i)
    ensures Forward(times[i - 1], times[i])
    ensures times[i] != NEVER ==> Accepts(gm, td, times[i].sec)
  {
    NextTimeAdvances(gm, times[i - 1], td);
  }

  /**
   * Of the times a timer is armed with, none comes twice and none goes back, and every one after
   * the first is accepted by the definition, until the timer is disarmed.
   */
  lemma ArmedTimesIncrease(gm: int -> Tm, td: TimerDef, times: seq<Timespec>, i: nat, j: nat)
    requires IsGmTime(gm)
    requires td.month.lo <= 12 && forall k :: 0 < k < |times| ==> Rearmed(gm, td, times, k)
    requires i < j < |times| && times[j] != NEVER
    ensures times[i].sec < times[j].sec && Accepts(gm, td, times[j].sec)
  {
    forall k | 0 <= k < j ensures Forward(times[k], times[k + 1]) {
      RearmedForward(gm, td, times, k + 1);
    }
    ForwardThroughout(times, i, j);
    RearmedForward(gm, td, times, j);
  }
}
