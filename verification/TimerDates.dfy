/**
 * The search for a date of a timer with unrestricted dates: every retry is the next calendar day,
 * so the search ends at the first day its check accepts.
 */
module TimerDates {
  import opened Calendar
  import opened Timer

  predicate AnyDate(td: TimerDef) {
    td.days == ByteRange(1, 31) && td.month == ByteRange(1, 12) && td.years == WordRange(0, 0xFFFF)
  }

  /** The date a search has reached, as a day count within its own years. */
  function Ordinal(p: Pos): int
    requires 1 <= p.month <= 12
  {
    DayNumber(Date(p.year, p.month, p.day))
  }

  ghost predicate OnCalendar(p: Pos) {
    ProperDate(Date(p.year, p.month, p.day)) && 0 <= p.year <= 0xFFFF
  }

  /** The search moved on by one calendar day. */
  ghost predicate NextDay(p: Pos, n: Search) {
    && n.done && OnCalendar(p) && OnCalendar(n.pos)
    && n.pos.offDays == p.offDays + 1
    && Ordinal(n.pos) == Ordinal(p) + 1
  }

  predicate YearsLeft(p: Pos) {
    p.year < 0xFFFF || p.month < 12 || p.day < 31
  }

  lemma RetryIsNextDay(td: TimerDef, p: Pos)
    requires AnyDate(td) && OnCalendar(p) && YearsLeft(p)
    ensures NextDay(p, Retry(td, Search(p, false)))
  {
    assert p.year % 0x1_0000 == p.year;
    YearLength(p.year);
    assert Step(p.month, td.month, 1, 12) == (if p.month < 12 then 1 else -11);
    var l := MonthLength(p.month, Leap(p.year));
    assert Step(p.day, td.days, 1, l) == (if p.day < l then 1 else 1 - l);
  }

  lemma SettledStays(td: TimerDef, p: Pos)
    requires AnyDate(td) && OnCalendar(p)
    ensures Retry(td, Search(p, true)) == Search(p, true)
  {
  }

  /** Days until the last one of year 65535, negative where the calendar is left. */
  ghost function DaysLeft(p: Pos): int {
    if OnCalendar(p) then DaysBeforeYear(0x1_0000) - 1 - Ordinal(p) else -1
  }

  /** Every retry moves on by one day while days are left, and a settled date stays. */
  ghost predicate StepsDaily(retry: Search -> Search, left: Pos -> int) {
    && (forall p {:trigger retry(Search(p, false))} :: left(p) > 0 ==>
          var n := retry(Search(p, false));
          n.done && n.pos.offDays == p.offDays + 1 && left(n.pos) == left(p) - 1)
    && (forall p {:trigger retry(Search(p, true))} :: left(p) >= 0 ==>
          retry(Search(p, true)) == Search(p, true))
  }

  lemma DaysLeftStep(td: TimerDef, p: Pos)
    requires AnyDate(td) && DaysLeft(p) > 0
    ensures
      var n := Retry(td, Search(p, false));
      n.done && n.pos.offDays == p.offDays + 1 && DaysLeft(n.pos) == DaysLeft(p) - 1
  {
    assert YearsLeft(p) by {
      YearLength(0xFFFF);
    }
    RetryIsNextDay(td, p);
  }

  lemma AnyDateStepsDaily(td: TimerDef)
    requires AnyDate(td)
    ensures StepsDaily(Retrying(td), DaysLeft)
  {
    forall p | DaysLeft(p) > 0
      ensures
        var n := Retry(td, Search(p, false));
        n.done && n.pos.offDays == p.offDays + 1 && DaysLeft(n.pos) == DaysLeft(p) - 1
    {
      DaysLeftStep(td, p);
    }
    forall p | DaysLeft(p) >= 0 ensures Retry(td, Search(p, true)) == Search(p, true) {
      SettledStays(td, p);
    }
  }

  lemma YearBefore(p: Pos)
    requires OnCalendar(p) && p.year < 0xFFFF
    ensures DaysLeft(p) >= 365
  {
    YearsOrdered(p.year + 1, 0x1_0000);
    YearLength(p.year);
  }

  function Candidate(base: int, k: int): int {
    base + k * DAY
  }

  /** The candidate `k` days on is the first one after `from` that is accepted. */
  ghost predicate FirstAccepted(accepts: int -> bool, base: int, from: int, k: int) {
    && from <= k && accepts(Candidate(base, k))
    && forall i :: from <= i < k ==> !accepts(Candidate(base, i))
  }

  /** With an accepted candidate `w` within reach, the search ends at the first accepted one. */
  lemma {:induction false} SearchFindsFirst(retry: Search -> Search, left: Pos -> int, accepts: int -> bool,
                                            base: int, nsec: int, p: Pos, tries: nat, w: int) returns (k: int)
    requires StepsDaily(retry, left)
    requires p.offDays < w && accepts(Candidate(base, w))
    requires w - p.offDays <= left(p) && tries + w - p.offDays <= MAX_TRIES
    ensures FirstAccepted(accepts, base, p.offDays + 1, k)
    ensures SearchFrom(retry, accepts, base, nsec, Search(p, false), tries) == Timespec(Candidate(base, k), nsec)
    decreases w - p.offDays
  {
    var n := retry(Search(p, false)).pos;
    k := n.offDays;
    if !accepts(Candidate(base, k)) {
      k := SearchFindsFirst(retry, left, accepts, base, nsec, n, tries + 1, w);
    }
  }

  lemma NextFromFindsFirst(retry: Search -> Search, left: Pos -> int, accepts: int -> bool,
                           last: Timespec, tm: Tm, c: Clock, w: int) returns (k: int)
    requires StepsDaily(retry, left) && left(StartPos(tm)) >= 7
    requires
      var from := if c.done then 0 else 1;
      from <= w < from + 7 && accepts(Candidate(last.sec + c.off, w))
    ensures FirstAccepted(accepts, last.sec + c.off, if c.done then 0 else 1, k)
    ensures NextFrom(retry, accepts, last, tm, c) == Timespec(Candidate(last.sec + c.off, k), last.nsec)
  {
    var a := StartPos(tm);
    var base := last.sec + c.off;
    if c.done {
      assert retry(Search(a, true)) == Search(a, true);
      k := 0;
      if !accepts(Candidate(base, 0)) {
        k := SearchFindsFirst(retry, left, accepts, base, last.nsec, a, 1, w);
      }
    } else {
      k := SearchFindsFirst(retry, left, accepts, base, last.nsec, a, 0, w);
    }
  }
}
