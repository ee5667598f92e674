/**
 * When a timer's next time is the earliest later time its definition accepts. For unrestricted
 * dates, some weekdays and a minute range that does not wrap, the exact condition is one on the
 * last time of day: a field that moves must find the smaller ones on their first values, and
 * neither accepted minutes above the minute range nor the rest of an accepted hour of a wrapping
 * range may be passed over.
 */
module TimerExact {
  import opened Calendar
  import opened Timer
  import opened TimerAdvance
  import opened TimerDates

  /** Ranges of values of their fields, minutes from low to high, every date. */
  predicate Regular(td: TimerDef) {
    && td.seconds.lo <= 59 && td.seconds.hi <= 59
    && td.minutes.lo <= td.minutes.hi <= 59
    && td.hours.lo <= 23 && td.hours.hi <= 23
    && AnyDate(td)
  }

  predicate OnClock(tm: Tm) {
    0 <= tm.sec <= 59 && 0 <= tm.min <= 59 && 0 <= tm.hour <= 23
  }

  // ---- the condition ----

  predicate Wraps(r: ByteRange) {
    r.lo > r.hi
  }

  /** The first value of a field. */
  function FirstOf(r: ByteRange): int {
    if Wraps(r) then 0 else r.lo
  }

  /** A field has a value above this one. */
  predicate HasLater(x: int, r: ByteRange, limit: int) {
    if Wraps(r) then x < limit else x < r.hi
  }

  /** The value of a field after it moves. */
  function Moved(x: int, r: ByteRange, limit: int): int {
    if !HasLater(x, r, limit) then FirstOf(r)
    else if x < r.lo && (Wraps(r) ==> r.hi <= x) then r.lo
    else x + 1
  }

  predicate MinuteMoves(td: TimerDef, tm: Tm) {
    !HasLater(tm.sec, td.seconds, 59) || !CC(td.minutes.lo, tm.min, td.minutes.hi)
  }

  /** The minutes run out. */
  predicate HourEnds(td: TimerDef, tm: Tm) {
    MinuteMoves(td, tm) && !HasLater(tm.min, td.minutes, 59)
  }

  predicate HourMoves(td: TimerDef, tm: Tm) {
    HourEnds(td, tm) || !CC(td.hours.lo, tm.hour, td.hours.hi)
  }

  /** The hours run out, so the clock is not settled. */
  predicate DayEnds(td: TimerDef, tm: Tm) {
    HourMoves(td, tm) && !HasLater(tm.hour, td.hours, 23)
  }

  predicate DayMoves(td: TimerDef, tm: Tm) {
    DayEnds(td, tm) || !OnWeekday(td.wDay, tm.wday)
  }

  /** The time of day the computation lands on. */
  function Landed(td: TimerDef, tm: Tm): Tm {
    tm.(sec := Moved(tm.sec, td.seconds, 59),
        min := if MinuteMoves(td, tm) then Moved(tm.min, td.minutes, 59) else tm.min,
        hour := if HourMoves(td, tm) then Moved(tm.hour, td.hours, 23) else tm.hour)
  }

  /** A field that moves finds all smaller fields on their first values. */
  predicate Resets(td: TimerDef, tm: Tm) {
    var n, f := Landed(td, tm), First(td);
    && (MinuteMoves(td, tm) ==> n.sec == f.sec)
    && (HourMoves(td, tm) ==> n.sec == f.sec && n.min == f.min)
    && (DayMoves(td, tm) ==> n.sec == f.sec && n.min == f.min && n.hour == f.hour)
  }

  /** An hour of a day, both accepted. */
  predicate HourTaken(td: TimerDef, tm: Tm) {
    OnWeekday(td.wDay, tm.wday) && Within(td.hours.lo, tm.hour, td.hours.hi)
  }

  /**
   * The check accepts minutes above the range, which the computation never goes to, and there is
   * such a minute still to come.
   */
  predicate PassesMinutes(td: TimerDef, tm: Tm) {
    && td.minutes.lo < td.minutes.hi
    && (if HasLater(tm.sec, td.seconds, 59) then td.minutes.hi < tm.min else td.minutes.hi <= tm.min < 59)
  }

  /** An hour of a wrapping range always moves, even if its minutes have not run out. */
  predicate LeavesHour(td: TimerDef, tm: Tm) {
    Wraps(td.hours) && !HourEnds(td, tm)
  }

  predicate CarriesOver(td: TimerDef, tm: Tm) {
    Resets(td, tm) && !(HourTaken(td, tm) && (PassesMinutes(td, tm) || LeavesHour(td, tm)))
  }

  // ---- the clock, field by field ----

  lemma FieldStep(x: int, r: ByteRange, limit: int)
    requires 0 <= x <= limit && r.lo <= limit && r.hi <= limit
    ensures x + Step(x, r, 0, limit) == Moved(x, r, limit) && (Moved(x, r, limit) > x <==> HasLater(x, r, limit))
  {
  }

  lemma ClockLands(td: TimerDef, tm: Tm)
    requires Regular(td) && OnClock(tm)
    ensures HourStep(td, tm) == Clock(SecondOfDay(Landed(td, tm)) - SecondOfDay(tm), !DayEnds(td, tm))
    ensures OnClock(Landed(td, tm)) && Taken(td, Landed(td, tm))
  {
    FieldStep(tm.sec, td.seconds, 59);
    FieldStep(tm.min, td.minutes, 59);
    FieldStep(tm.hour, td.hours, 23);
    var n := Landed(td, tm);
    assert MinuteStep(td, tm) == Clock(60 * (n.min - tm.min) + n.sec - tm.sec, !HourEnds(td, tm));
  }

  /** The check accepts this time of day. */
  predicate Taken(td: TimerDef, tm: Tm) {
    && Within(td.seconds.lo, tm.sec, td.seconds.hi)
    && (CC(td.minutes.lo, tm.min, td.minutes.hi) || td.minutes.lo < td.minutes.hi <= tm.min)
    && Within(td.hours.lo, tm.hour, td.hours.hi)
  }

  lemma RegularFits(td: TimerDef, tm: Tm)
    requires Regular(td) && OnClock(tm) && ProperDate(tm.date)
    ensures Fits(td, tm) <==> Taken(td, tm) && OnWeekday(td.wDay, tm.wday)
  {
    assert tm.date.mday <= 31;
  }

  /** Earlier by hour, then minute, then second. */
  predicate Before(u: Tm, v: Tm) {
    u.hour < v.hour || (u.hour == v.hour && (u.min < v.min || (u.min == v.min && u.sec < v.sec)))
  }

  lemma BeforeSeconds(u: Tm, v: Tm)
    requires OnClock(u) && OnClock(v)
    ensures Before(u, v) <==> SecondOfDay(u) < SecondOfDay(v)
  {
  }

  function First(td: TimerDef): Tm {
    Tm(FirstOf(td.seconds), FirstOf(td.minutes), FirstOf(td.hours), Date(1970, 1, 1), 4)
  }

  lemma FirstIsFirst(td: TimerDef, v: Tm)
    requires Regular(td) && OnClock(v) && Taken(td, v)
    ensures OnClock(First(td)) && Taken(td, First(td)) && !Before(v, First(td))
  {
  }

  /** The clock is settled exactly if it lands later on the day. */
  lemma SettledIsLater(td: TimerDef, tm: Tm)
    requires Regular(td) && OnClock(tm)
    ensures Before(tm, Landed(td, tm)) <==> !DayEnds(td, tm)
  {
  }

  /** An accepted time of day after the last one, and before the one landed on if that is today. */
  predicate Skipped(td: TimerDef, tm: Tm, v: Tm) {
    OnClock(v) && Taken(td, v) && Before(tm, v) && (DayEnds(td, tm) || Before(v, Landed(td, tm)))
  }

  lemma CarriesSkipNone(td: TimerDef, tm: Tm, v: Tm)
    requires Regular(td) && OnClock(tm) && OnWeekday(td.wDay, tm.wday)
    requires CarriesOver(td, tm)
    ensures !Skipped(td, tm, v)
  {
  }

  /** A field that is not reset leaves out its first values. */
  lemma UnresetSkips(td: TimerDef, tm: Tm) returns (v: Tm)
    requires Regular(td) && OnClock(tm) && !DayMoves(td, tm) && !Resets(td, tm)
    ensures Skipped(td, tm, v)
  {
    var n := Landed(td, tm);
    v := n.(sec := FirstOf(td.seconds), min := if HourMoves(td, tm) then FirstOf(td.minutes) else n.min);
  }

  lemma PassedIsSkipped(td: TimerDef, tm: Tm) returns (v: Tm)
    requires Regular(td) && OnClock(tm) && HourTaken(td, tm) && (PassesMinutes(td, tm) || LeavesHour(td, tm))
    ensures Skipped(td, tm, v)
  {
    v := if LeavesHour(td, tm) then Landed(td, tm).(hour := tm.hour)
         else if HasLater(tm.sec, td.seconds, 59) then tm.(sec := Moved(tm.sec, td.seconds, 59))
         else tm.(sec := FirstOf(td.seconds), min := tm.min + 1);
  }

  // ---- times of day as seconds ----

  function TmAt(s: int): Tm
    requires 0 <= s < DAY
  {
    Tm(s % 60, s / 60 % 60, s / 3600, Date(1970, 1, 1), 4)
  }

  lemma TmAtSecond(s: int)
    requires 0 <= s < DAY
    ensures OnClock(TmAt(s)) && SecondOfDay(TmAt(s)) == s
  {
    ClockFields(s);
  }

  function TakenSeconds(td: TimerDef): int -> bool {
    s => 0 <= s < DAY && Taken(td, TmAt(s))
  }

  lemma SameClock(u: Tm, v: Tm)
    requires OnClock(u) && OnClock(v) && SecondOfDay(u) == SecondOfDay(v)
    ensures u.sec == v.sec && u.min == v.min && u.hour == v.hour
  {
  }

  lemma TakenAt(td: TimerDef, tm: Tm)
    requires OnClock(tm)
    ensures 0 <= SecondOfDay(tm) < DAY && (TakenSeconds(td)(SecondOfDay(tm)) <==> Taken(td, tm))
  {
    var s := SecondOfDay(tm);
    TmAtSecond(s);
    SameClock(tm, TmAt(s));
  }

  /** The clock lands on a taken second of the day, settled if it is later than second s. */
  ghost predicate Lands(taken: int -> bool, s: int, c: Clock, first: int) {
    && 0 <= s < DAY && 0 <= s + c.off < DAY && 0 <= first < DAY
    && taken(s + c.off) && taken(first) && (forall u :: 0 <= u < DAY && taken(u) ==> first <= u)
    && (c.done <==> c.off > 0)
  }

  lemma FirstTaken(td: TimerDef)
    requires Regular(td)
    ensures var first := SecondOfDay(First(td));
            && 0 <= first < DAY && TakenSeconds(td)(first)
            && forall u :: 0 <= u < DAY && TakenSeconds(td)(u) ==> first <= u
  {
    FirstIsFirst(td, First(td));
    TakenAt(td, First(td));
    forall u | 0 <= u < DAY && TakenSeconds(td)(u) ensures SecondOfDay(First(td)) <= u {
      TmAtSecond(u);
      FirstIsFirst(td, TmAt(u));
      BeforeSeconds(TmAt(u), First(td));
    }
  }

  lemma LandsToday(td: TimerDef, tm: Tm)
    requires Regular(td) && OnClock(tm)
    ensures
      var s, c := SecondOfDay(tm), HourStep(td, tm);
      && 0 <= s < DAY && s + c.off == SecondOfDay(Landed(td, tm)) && TakenSeconds(td)(s + c.off)
      && (c.done <==> c.off > 0)
  {
    ClockLands(td, tm);
    SettledIsLater(td, tm);
    BeforeSeconds(tm, Landed(td, tm));
    TakenAt(td, tm);
    TakenAt(td, Landed(td, tm));
  }

  lemma RegularLands(td: TimerDef, tm: Tm)
    requires Regular(td) && OnClock(tm)
    ensures Lands(TakenSeconds(td), SecondOfDay(tm), HourStep(td, tm), SecondOfDay(First(td)))
  {
    LandsToday(td, tm);
    FirstTaken(td);
  }

  /**
   * Nothing is left out: today no taken second up to the one landed on, or to the end of the day;
   * on a later day no taken second before the one landed on.
   */
  ghost predicate NoneLeftOut(taken: int -> bool, today: bool, s: int, c: Clock, first: int) {
    && (today ==> forall u :: s < u < (if c.done then s + c.off else DAY) ==> !taken(u))
    && ((c.done && today) || s + c.off == first)
  }

  lemma LandedFirst(td: TimerDef, tm: Tm)
    requires Regular(td) && OnClock(tm)
    ensures
      var n, f := Landed(td, tm), First(td);
      SecondOfDay(n) == SecondOfDay(f) <==> n.sec == f.sec && n.min == f.min && n.hour == f.hour
  {
    ClockLands(td, tm);
    if SecondOfDay(Landed(td, tm)) == SecondOfDay(First(td)) {
      SameClock(Landed(td, tm), First(td));
    }
  }

  lemma SkippedSecond(td: TimerDef, tm: Tm, u: int)
    requires Regular(td) && OnClock(tm) && 0 <= u < DAY
    ensures
      var s, c := SecondOfDay(tm), HourStep(td, tm);
      Skipped(td, tm, TmAt(u)) <==> s < u < (if c.done then s + c.off else DAY) && TakenSeconds(td)(u)
  {
    ClockLands(td, tm);
    TmAtSecond(u);
    BeforeSeconds(tm, TmAt(u));
    BeforeSeconds(TmAt(u), Landed(td, tm));
  }

  lemma SkippedClock(td: TimerDef, tm: Tm, v: Tm)
    requires Regular(td) && OnClock(tm) && Skipped(td, tm, v)
    ensures
      var s, c := SecondOfDay(tm), HourStep(td, tm);
      s < SecondOfDay(v) < (if c.done then s + c.off else DAY) && TakenSeconds(td)(SecondOfDay(v))
  {
    ClockLands(td, tm);
    TakenAt(td, v);
    BeforeSeconds(tm, v);
    BeforeSeconds(v, Landed(td, tm));
  }

  lemma CarriesLeaveNoneOut(td: TimerDef, tm: Tm)
    requires Regular(td) && OnClock(tm) && CarriesOver(td, tm)
    ensures NoneLeftOut(TakenSeconds(td), OnWeekday(td.wDay, tm.wday), SecondOfDay(tm), HourStep(td, tm),
                        SecondOfDay(First(td)))
  {
    var s, c := SecondOfDay(tm), HourStep(td, tm);
    ClockLands(td, tm);
    LandedFirst(td, tm);
    if OnWeekday(td.wDay, tm.wday) {
      TakenAt(td, tm);
      TakenAt(td, Landed(td, tm));
      forall u | s < u < (if c.done then s + c.off else DAY) ensures !TakenSeconds(td)(u) {
        SkippedSecond(td, tm, u);
        CarriesSkipNone(td, tm, TmAt(u));
      }
    }
  }

  lemma LeavingNoneOutCarries(td: TimerDef, tm: Tm)
    requires Regular(td) && OnClock(tm)
    requires NoneLeftOut(TakenSeconds(td), OnWeekday(td.wDay, tm.wday), SecondOfDay(tm), HourStep(td, tm),
                         SecondOfDay(First(td)))
    ensures CarriesOver(td, tm)
  {
    ClockLands(td, tm);
    LandedFirst(td, tm);
    if HourTaken(td, tm) && (PassesMinutes(td, tm) || LeavesHour(td, tm)) {
      var v := PassedIsSkipped(td, tm);
      SkippedClock(td, tm, v);
    }
    if !DayMoves(td, tm) && !Resets(td, tm) {
      var v := UnresetSkips(td, tm);
      SkippedClock(td, tm, v);
    }
  }

  // ---- times ----

  ghost predicate Earliest(accepts: int -> bool, last: int, t: int) {
    last < t && accepts(t) && forall u :: last < u < t ==> !accepts(u)
  }

  /** A time is accepted if its second of the day is taken and its day is set. */
  ghost predicate Splits(accepts: int -> bool, taken: int -> bool, days: int -> bool, zone: int) {
    forall t :: accepts(t) <==> taken((t + zone) % DAY) && days((t + zone) / DAY)
  }

  lemma DayAndSecond(day: int, s: int)
    requires 0 <= s < DAY
    ensures (day * DAY + s) / DAY == day && (day * DAY + s) % DAY == s
  {
  }

  /** Second b of the day i days after that of the last time. */
  lemma SecondAccepted(accepts: int -> bool, taken: int -> bool, days: int -> bool, zone: int,
                       last: int, i: int, b: int)
    requires Splits(accepts, taken, days, zone) && 0 <= b < DAY
    ensures
      var s, day := (last + zone) % DAY, (last + zone) / DAY;
      accepts(last + i * DAY + b - s) <==> taken(b) && days(day + i)
  {
    var s, day := (last + zone) % DAY, (last + zone) / DAY;
    assert last + i * DAY + b - s + zone == (day + i) * DAY + b;
    DayAndSecond(day + i, b);
  }

  /** What the clock and the search for a day have found. */
  ghost predicate Found(accepts: int -> bool, taken: int -> bool, days: int -> bool, zone: int,
                        last: int, c: Clock, first: int, k: int) {
    && Splits(accepts, taken, days, zone) && Lands(taken, (last + zone) % DAY, c, first)
    && FirstAccepted(accepts, last + c.off, if c.done then 0 else 1, k)
  }

  /** The search ends today exactly if the clock is settled and today is set. */
  lemma EndsToday(accepts: int -> bool, taken: int -> bool, days: int -> bool, zone: int,
                  last: int, c: Clock, first: int, k: int)
    requires Found(accepts, taken, days, zone, last, c, first, k)
    ensures k == 0 <==> c.done && days((last + zone) / DAY)
  {
    var s := (last + zone) % DAY;
    SecondAccepted(accepts, taken, days, zone, last, 0, s + c.off);
    assert Candidate(last + c.off, 0) == last + 0 * DAY + (s + c.off) - s;
  }

  /** With nothing left out, no later accepted time comes before the one found. */
  lemma NoneBefore(accepts: int -> bool, taken: int -> bool, days: int -> bool, zone: int,
                   last: int, c: Clock, first: int, k: int, u: int)
    requires Found(accepts, taken, days, zone, last, c, first, k)
    requires NoneLeftOut(taken, days((last + zone) / DAY), (last + zone) % DAY, c, first)
    requires last < u && accepts(u)
    ensures Candidate(last + c.off, k) <= u
  {
    var s, day := (last + zone) % DAY, (last + zone) / DAY;
    var s', i := (u + zone) % DAY, (u + zone) / DAY - day;
    assert u + zone == (day + i) * DAY + s' && last + zone == day * DAY + s;
    EndsToday(accepts, taken, days, zone, last, c, first, k);
    SecondAccepted(accepts, taken, days, zone, last, i, s + c.off);
    assert Candidate(last + c.off, i) == last + i * DAY + (s + c.off) - s;
    assert 0 <= i && days(day + i);
  }

  lemma LeftOutIsEarlier(accepts: int -> bool, taken: int -> bool, days: int -> bool, zone: int,
                         last: int, c: Clock, first: int, k: int)
    requires Found(accepts, taken, days, zone, last, c, first, k)
    requires Earliest(accepts, last, Candidate(last + c.off, k))
    ensures NoneLeftOut(taken, days((last + zone) / DAY), (last + zone) % DAY, c, first)
  {
    var s, today := (last + zone) % DAY, days((last + zone) / DAY);
    EndsToday(accepts, taken, days, zone, last, c, first, k);
    if today {
      forall u | s < u < (if c.done then s + c.off else DAY) ensures !taken(u) {
        SecondAccepted(accepts, taken, days, zone, last, 0, u);
        assert !accepts(last + 0 * DAY + u - s);
      }
    }
    if k > 0 {
      SecondAccepted(accepts, taken, days, zone, last, k, s + c.off);
      SecondAccepted(accepts, taken, days, zone, last, k, first);
      assert accepts(last + k * DAY + first - s);
    }
  }

  lemma EarliestIffNoneLeftOut(accepts: int -> bool, taken: int -> bool, days: int -> bool, zone: int,
                               last: int, c: Clock, first: int, k: int)
    requires Found(accepts, taken, days, zone, last, c, first, k)
    ensures Earliest(accepts, last, Candidate(last + c.off, k)) <==>
            NoneLeftOut(taken, days((last + zone) / DAY), (last + zone) % DAY, c, first)
  {
    if Earliest(accepts, last, Candidate(last + c.off, k)) {
      LeftOutIsEarlier(accepts, taken, days, zone, last, c, first, k);
    }
    if NoneLeftOut(taken, days((last + zone) / DAY), (last + zone) % DAY, c, first) {
      forall u | last < u && accepts(u) ensures Candidate(last + c.off, k) <= u {
        NoneBefore(accepts, taken, days, zone, last, c, first, k, u);
      }
    }
  }

  // ---- the next time ----

  function WeekdayOf(day: int): int {
    (day + 4) % 7
  }

  function SetDays(td: TimerDef): int -> bool {
    d => OnWeekday(td.wDay, WeekdayOf(d))
  }

  ghost predicate SomeWeekday(td: TimerDef) {
    exists wday :: 0 <= wday < 7 && OnWeekday(td.wDay, wday)
  }

  lemma RegularAccepts(gm: int -> Tm, td: TimerDef, t: int)
    requires IsGmTime(gm) && Regular(td)
    ensures
      var local := t + ZoneOffset(td);
      Accepts(gm, td, t) <==> TakenSeconds(td)(local % DAY) && SetDays(td)(local / DAY)
  {
    var local, tm := t + ZoneOffset(td), ZonedTime(gm, t, td);
    assert BrokenDown(local, tm);
    RegularFits(td, tm);
    TakenAt(td, tm);
  }

  lemma RegularSplits(gm: int -> Tm, td: TimerDef)
    requires IsGmTime(gm) && Regular(td)
    ensures Splits(Check(gm, td), TakenSeconds(td), SetDays(td), ZoneOffset(td))
  {
    forall t
      ensures Accepts(gm, td, t) <==>
              TakenSeconds(td)((t + ZoneOffset(td)) % DAY) && SetDays(td)((t + ZoneOffset(td)) / DAY)
    {
      RegularAccepts(gm, td, t);
    }
  }

  /** In any seven days there is one that is set. */
  lemma SetWithin(td: TimerDef, day: int) returns (w: int)
    requires SomeWeekday(td)
    ensures 0 <= w < 7 && SetDays(td)(day + w)
  {
    var wday :| 0 <= wday < 7 && OnWeekday(td.wDay, wday);
    w := (wday - day - 4) % 7;
    assert WeekdayOf(day + w) == wday;
  }

  /** The first day that is set is found. */
  lemma NextFromFound(retry: Search -> Search, left: Pos -> int, accepts: int -> bool, taken: int -> bool,
                      days: int -> bool, zone: int, last: Timespec, tm: Tm, c: Clock, first: int, w: int)
    returns (k: int)
    requires StepsDaily(retry, left) && left(StartPos(tm)) >= 7
    requires Splits(accepts, taken, days, zone) && Lands(taken, (last.sec + zone) % DAY, c, first)
    requires
      var from := if c.done then 0 else 1;
      from <= w < from + 7 && days((last.sec + zone) / DAY + w)
    ensures Found(accepts, taken, days, zone, last.sec, c, first, k)
    ensures NextFrom(retry, accepts, last, tm, c) == Timespec(Candidate(last.sec + c.off, k), last.nsec)
  {
    var s := (last.sec + zone) % DAY;
    SecondAccepted(accepts, taken, days, zone, last.sec, w, s + c.off);
    assert Candidate(last.sec + c.off, w) == last.sec + w * DAY + (s + c.off) - s;
    k := NextFromFindsFirst(retry, left, accepts, last, tm, c, w);
  }

  /** What the clock has settled for the search: a day is set within a week, and whether anything is left out. */
  ghost predicate Decided(accepts: int -> bool, taken: int -> bool, days: int -> bool, zone: int,
                          last: int, c: Clock, first: int, w: int, exact: bool) {
    var from := if c.done then 0 else 1;
    && Splits(accepts, taken, days, zone) && Lands(taken, (last + zone) % DAY, c, first)
    && from <= w < from + 7 && days((last + zone) / DAY + w)
    && (NoneLeftOut(taken, days((last + zone) / DAY), (last + zone) % DAY, c, first) <==> exact)
  }

  lemma NextFromExact(retry: Search -> Search, left: Pos -> int, accepts: int -> bool, taken: int -> bool,
                      days: int -> bool, zone: int, last: Timespec, tm: Tm, c: Clock, first: int, w: int, exact: bool)
    requires StepsDaily(retry, left) && left(StartPos(tm)) >= 7
    requires Decided(accepts, taken, days, zone, last.sec, c, first, w, exact)
    ensures
      var r := NextFrom(retry, accepts, last, tm, c);
      r.nsec == last.nsec && (Earliest(accepts, last.sec, r.sec) <==> exact)
  {
    var k := NextFromFound(retry, left, accepts, taken, days, zone, last, tm, c, first, w);
    EarliestIffNoneLeftOut(accepts, taken, days, zone, last.sec, c, first, k);
  }

  lemma NoneLeftOutIff(td: TimerDef, tm: Tm, today: bool, s: int)
    requires Regular(td) && OnClock(tm) && today == OnWeekday(td.wDay, tm.wday) && s == SecondOfDay(tm)
    ensures NoneLeftOut(TakenSeconds(td), today, s, HourStep(td, tm), SecondOfDay(First(td)))
            <==> CarriesOver(td, tm)
  {
    if CarriesOver(td, tm) {
      CarriesLeaveNoneOut(td, tm);
    }
    if NoneLeftOut(TakenSeconds(td), today, s, HourStep(td, tm), SecondOfDay(First(td))) {
      LeavingNoneOutCarries(td, tm);
    }
  }

  lemma LocalClock(gm: int -> Tm, t: int, td: TimerDef)
    requires IsGmTime(gm)
    ensures
      var tm, local := ZonedTime(gm, t, td), t + ZoneOffset(td);
      OnClock(tm) && SecondOfDay(tm) == local % DAY && SetDays(td)(local / DAY) == OnWeekday(td.wDay, tm.wday)
  {
    assert BrokenDown(t + ZoneOffset(td), ZonedTime(gm, t, td));
  }

  lemma NoneLeftOutFrom(gm: int -> Tm, last: int, td: TimerDef, tm: Tm, c: Clock, exact: bool)
    requires IsGmTime(gm) && Regular(td) && tm == ZonedTime(gm, last, td) && c == HourStep(td, tm)
    requires exact <==> CarriesOver(td, tm)
    ensures
      var local := last + ZoneOffset(td);
      NoneLeftOut(TakenSeconds(td), SetDays(td)(local / DAY), local % DAY, c, SecondOfDay(First(td))) <==> exact
  {
    LocalClock(gm, last, td);
    var local := last + ZoneOffset(td);
    NoneLeftOutIff(td, tm, SetDays(td)(local / DAY), local % DAY);
  }

  /** From the last time the clock lands, and nothing is left out if the condition holds. */
  lemma ClockFrom(gm: int -> Tm, last: int, td: TimerDef, tm: Tm, c: Clock, exact: bool)
    returns (taken: int -> bool, days: int -> bool, first: int)
    requires IsGmTime(gm) && Regular(td) && tm == ZonedTime(gm, last, td) && c == HourStep(td, tm)
    requires exact <==> CarriesOver(td, tm)
    ensures Splits(Check(gm, td), taken, days, ZoneOffset(td)) && days == SetDays(td)
    ensures
      var local := last + ZoneOffset(td);
      Lands(taken, local % DAY, c, first) && (NoneLeftOut(taken, days(local / DAY), local % DAY, c, first) <==> exact)
  {
    taken, days, first := TakenSeconds(td), SetDays(td), SecondOfDay(First(td));
    LocalClock(gm, last, td);
    RegularSplits(gm, td);
    RegularLands(td, tm);
    NoneLeftOutFrom(gm, last, td, tm, c, exact);
  }

  lemma RegularDecided(gm: int -> Tm, last: int, td: TimerDef, tm: Tm, c: Clock, exact: bool)
    returns (taken: int -> bool, days: int -> bool, first: int, w: int)
    requires IsGmTime(gm) && Regular(td) && SomeWeekday(td)
    requires tm == ZonedTime(gm, last, td) && c == HourStep(td, tm)
    requires exact <==> CarriesOver(td, tm)
    ensures Decided(Check(gm, td), taken, days, ZoneOffset(td), last, c, first, w, exact)
  {
    taken, days, first := ClockFrom(gm, last, td, tm, c, exact);
    var from := if c.done then 0 else 1;
    w := SetWithin(td, (last + ZoneOffset(td)) / DAY + from);
    w := from + w;
  }

  lemma WeekLeft(gm: int -> Tm, last: int, td: TimerDef)
    requires IsGmTime(gm) && 0 <= ZonedTime(gm, last, td).date.year < 0xFFFF
    ensures DaysLeft(StartPos(ZonedTime(gm, last, td))) >= 7
  {
    assert BrokenDown(last + ZoneOffset(td), ZonedTime(gm, last, td));
    YearBefore(StartPos(ZonedTime(gm, last, td)));
  }

  lemma NextExact(gm: int -> Tm, last: Timespec, td: TimerDef, tm: Tm, c: Clock, exact: bool)
    requires IsGmTime(gm) && Regular(td) && SomeWeekday(td)
    requires tm == ZonedTime(gm, last.sec, td) && c == HourStep(td, tm) && 0 <= tm.date.year < 0xFFFF
    requires exact <==> CarriesOver(td, tm)
    ensures
      var r := NextFrom(Retrying(td), Check(gm, td), last, tm, c);
      r.nsec == last.nsec && (Earliest(Check(gm, td), last.sec, r.sec) <==> exact)
  {
    var taken, days, first, w := RegularDecided(gm, last.sec, td, tm, c, exact);
    AnyDateStepsDaily(td);
    WeekLeft(gm, last.sec, td);
    NextFromExact(Retrying(td), DaysLeft, Check(gm, td), taken, days, ZoneOffset(td), last, tm, c, first, w, exact);
  }

  lemma NothingAccepted(gm: int -> Tm, td: TimerDef, t: int)
    requires IsGmTime(gm) && !SomeWeekday(td)
    ensures !Accepts(gm, td, t)
  {
    assert BrokenDown(t + ZoneOffset(td), ZonedTime(gm, t, td));
  }

  lemma CarriedIsEarliest(gm: int -> Tm, last: Timespec, td: TimerDef)
    requires IsGmTime(gm) && Regular(td) && SomeWeekday(td)
    requires 0 <= ZonedTime(gm, last.sec, td).date.year < 0xFFFF
    ensures NextTime(gm, last, td).nsec == last.nsec
    ensures
      var tm := ZonedTime(gm, last.sec, td);
      Earliest(Check(gm, td), last.sec, NextTime(gm, last, td).sec) <==> CarriesOver(td, tm)
  {
    var tm := ZonedTime(gm, last.sec, td);
    NextExact(gm, last, td, tm, HourStep(td, tm), CarriesOver(td, tm));
  }

  /**
   * For any date and minutes that do not wrap, from any last time: the next time is the earliest
   * accepted one if and only if some weekday is set, every field that moves finds the smaller ones
   * on their first values, and no accepted minute above the range and no rest of an accepted hour
   * is passed over.
   */
  lemma EarliestIffCarriesOver(gm: int -> Tm, last: Timespec, td: TimerDef)
    requires IsGmTime(gm) && Regular(td)
    requires 0 <= ZonedTime(gm, last.sec, td).date.year < 0xFFFF
    ensures
      var tm := ZonedTime(gm, last.sec, td);
      Earliest(Check(gm, td), last.sec, NextTime(gm, last, td).sec)
      <==> SomeWeekday(td) && CarriesOver(td, tm)
  {
    if SomeWeekday(td) {
      CarriedIsEarliest(gm, last, td);
    } else {
      NothingAccepted(gm, td, NextTime(gm, last, td).sec);
    }
  }

  // ---- where the condition holds ----

  /** One time of day, every date. */
  predicate Daily(td: TimerDef) {
    && td.seconds.lo == td.seconds.hi <= 59
    && td.minutes.lo == td.minutes.hi <= 59
    && td.hours.lo == td.hours.hi <= 23
    && AnyDate(td)
  }

  /** A week from Monday to Sunday; the Epoch is a Thursday. */
  lemma WeeklySeconds(local: int, firing: int, bit: int)
    requires 0 <= bit < 7 && 0 <= firing < DAY
    ensures (local - (4 + bit) * DAY - firing) % (7 * DAY) == 0 <==>
            local % DAY == firing && (WeekdayOf(local / DAY) + 6) % 7 == bit
  {
    var day, s := local / DAY, local % DAY;
    var x := local - (4 + bit) * DAY - firing;
    assert x == (day - 4 - bit) * DAY + (s - firing);
    if x % (7 * DAY) == 0 {
      WeekOff(day - 4 - bit, s - firing, x / (7 * DAY));
    } else if s == firing && (WeekdayOf(day) + 6) % 7 == bit {
      WholeWeeks(day - 4 - bit);
    }
  }

  lemma WeekOff(days: int, r: int, q: int)
    requires days * DAY + r == q * (7 * DAY) && -DAY < r < DAY
    ensures r == 0 && days == 7 * q
  {
  }

  lemma WholeWeeks(days: int)
    requires days % 7 == 0
    ensures days * DAY % (7 * DAY) == 0
  {
    var q := days / 7;
    assert days * DAY == q * (7 * DAY);
  }

  /** In UTC: a daily timer for one weekday accepts one second of every week, moved by its zone. */
  lemma WeeklyAccepts(gm: int -> Tm, td: TimerDef, bit: int, t: int)
    requires IsGmTime(gm) && Daily(td) && 0 <= bit < 7 && td.wDay == {bit}
    ensures
      var firing := 3600 * td.hours.lo + 60 * td.minutes.lo + td.seconds.lo;
      Accepts(gm, td, t) <==>
      (t + 3600 * td.tzHour + 60 * td.tzMin - (4 + bit) * DAY - firing) % (7 * DAY) == 0
  {
    var local, firing := t + ZoneOffset(td), 3600 * td.hours.lo + 60 * td.minutes.lo + td.seconds.lo;
    RegularAccepts(gm, td, t);
    DailyTaken(td, local % DAY, firing);
    WeeklySeconds(local, firing, bit);
  }

  lemma DailyTaken(td: TimerDef, s: int, firing: int)
    requires Daily(td) && 0 <= s < DAY && firing == 3600 * td.hours.lo + 60 * td.minutes.lo + td.seconds.lo
    ensures 0 <= firing < DAY && (TakenSeconds(td)(s) <==> s == firing)
  {
    TmAtSecond(s);
    TakenAt(td, First(td));
    if TakenSeconds(td)(s) {
      assert TmAt(s).sec == td.seconds.lo && TmAt(s).min == td.minutes.lo && TmAt(s).hour == td.hours.lo;
    }
  }

  lemma DailyCarries(td: TimerDef, tm: Tm)
    requires Daily(td)
    ensures CarriesOver(td, tm)
  {
  }

  /**
   * A daily timer with some weekday set fires next at the earliest accepted time after the last
   * one, as long as the last one lies in a year the timer's sixteen bits can step on from.
   */
  lemma NextTimeIsEarliest(gm: int -> Tm, last: Timespec, td: TimerDef, wday: int)
    requires IsGmTime(gm)
    requires Daily(td) && 0 <= wday < 7 && OnWeekday(td.wDay, wday)
    requires 0 <= ZonedTime(gm, last.sec, td).date.year < 0xFFFF
    ensures NextTime(gm, last, td).nsec == last.nsec
    ensures Earliest(Check(gm, td), last.sec, NextTime(gm, last, td).sec)
  {
    DailyCarries(td, ZonedTime(gm, last.sec, td));
    CarriedIsEarliest(gm, last, td);
  }

  /** Hours that do not wrap; minutes a single one or up to 59, so that the check accepts no others. */
  predicate Plain(td: TimerDef) {
    Regular(td) && !Wraps(td.hours) && (td.minutes.lo == td.minutes.hi || td.minutes.hi == 59)
  }

  lemma AcceptedCarries(td: TimerDef, tm: Tm)
    requires Plain(td) && OnClock(tm) && Taken(td, tm) && OnWeekday(td.wDay, tm.wday)
    ensures CarriesOver(td, tm)
  {
  }

  /**
   * For such ranges, any date and any weekdays, the next time after a time the timer accepts is the
   * earliest accepted one after it.
   */
  lemma NextAfterAccepted(gm: int -> Tm, last: Timespec, td: TimerDef)
    requires IsGmTime(gm) && Plain(td) && Check(gm, td)(last.sec)
    requires 0 <= ZonedTime(gm, last.sec, td).date.year < 0xFFFF
    ensures NextTime(gm, last, td).nsec == last.nsec
    ensures Earliest(Check(gm, td), last.sec, NextTime(gm, last, td).sec)
  {
    var tm := ZonedTime(gm, last.sec, td);
    assert BrokenDown(last.sec + ZoneOffset(td), tm);
    RegularFits(td, tm);
    AcceptedCarries(td, tm);
    CarriedIsEarliest(gm, last, td);
  }

  /** So a timer that has fired and been rearmed skips no accepted time from then on. */
  lemma NoFiringSkipped(gm: int -> Tm, td: TimerDef, times: seq<Timespec>, i: nat)
    requires IsGmTime(gm) && Plain(td) && forall k :: 0 < k < |times| ==> Rearmed(gm, td, times, k)
    requires 0 < i < |times| - 1 && 0 <= ZonedTime(gm, times[i].sec, td).date.year < 0xFFFF
    ensures Earliest(Check(gm, td), times[i].sec, times[i + 1].sec)
  {
    RearmedForward(gm, td, times, i);
    assert Rearmed(gm, td, times, i + 1);
    NextAfterAccepted(gm, times[i], td);
  }

  // ---- where it does not ----

  /** Fires every second of the fifth minute of every hour. */
  function FifthMinute(wDay: set<int>): TimerDef {
    TimerDef(wDay, WordRange(0, 0xFFFF), ByteRange(1, 12), ByteRange(1, 31),
             ByteRange(0, 23), ByteRange(5, 5), ByteRange(0, 59), 0, 0)
  }

  lemma FifthMinuteClock(wDay: set<int>, tm: Tm)
    requires OnClock(tm) && SecondOfDay(tm) == 450
    ensures HourStep(FifthMinute(wDay), tm) == Clock(3481, true) && !Resets(FifthMinute(wDay), tm)
  {
    SameClock(tm, Tm(30, 7, 0, tm.date, tm.wday));
  }

  /** A settled clock on an accepted day is the result. */
  lemma SettledIsNext(retry: Search -> Search, accepts: int -> bool, last: Timespec, tm: Tm, off: int)
    requires retry(Search(StartPos(tm), true)) == Search(StartPos(tm), true) && accepts(last.sec + off)
    ensures NextFrom(retry, accepts, last, tm, Clock(off, true)) == Timespec(last.sec + off, last.nsec)
  {
  }

  /** It accepts 01:05:00 to 01:05:59 of a weekday that is set. */
  lemma FifthMinuteAccepts(gm: int -> Tm, wDay: set<int>, t: int)
    requires IsGmTime(gm) && 3900 <= t % DAY < 3960 && OnWeekday(wDay, WeekdayOf(t / DAY))
    ensures Check(gm, FifthMinute(wDay))(t)
  {
    TakenAt(FifthMinute(wDay), Tm(t % DAY - 3900, 5, 1, Date(1970, 1, 1), 4));
    RegularAccepts(gm, FifthMinute(wDay), t);
  }

  lemma FifthMinuteLater(gm: int -> Tm, wDay: set<int>, last: int, d: int)
    requires IsGmTime(gm)
    requires last % DAY == 450 && OnWeekday(wDay, WeekdayOf(last / DAY)) && 3450 <= d < 3510
    ensures Check(gm, FifthMinute(wDay))(last + d)
  {
    DayAndSecond(last / DAY, 450 + d);
    FifthMinuteAccepts(gm, wDay, last + d);
  }

  lemma FifthMinuteStart(gm: int -> Tm, wDay: set<int>, last: int)
    requires IsGmTime(gm) && last % DAY == 450 && 0 <= gm(last).date.year <= 0xFFFF
    ensures
      var td, tm := FifthMinute(wDay), gm(last);
      && ZonedTime(gm, last, td) == tm && !Resets(td, tm)
      && HourStep(td, tm) == Clock(3481, true)
  {
    assert BrokenDown(last, gm(last));
    FifthMinuteClock(wDay, gm(last));
  }

  lemma FifthMinuteFrom(gm: int -> Tm, wDay: set<int>, last: Timespec)
    requires IsGmTime(gm) && last.sec % DAY == 450 && 0 <= gm(last.sec).date.year <= 0xFFFF
    ensures
      var td := FifthMinute(wDay);
      NextTime(gm, last, td) == NextFrom(Retrying(td), Check(gm, td), last, gm(last.sec), Clock(3481, true))
  {
    FifthMinuteStart(gm, wDay, last.sec);
  }

  lemma FifthMinuteStays(gm: int -> Tm, wDay: set<int>, last: int)
    requires IsGmTime(gm) && 0 <= gm(last).date.year <= 0xFFFF
    ensures var s := Search(StartPos(gm(last)), true); Retrying(FifthMinute(wDay))(s) == s
  {
    assert BrokenDown(last, gm(last));
    SettledStays(FifthMinute(wDay), StartPos(gm(last)));
  }

  lemma FifthMinuteGoes(gm: int -> Tm, wDay: set<int>, last: Timespec)
    requires IsGmTime(gm) && last.sec % DAY == 450 && 0 <= gm(last.sec).date.year <= 0xFFFF
    requires Check(gm, FifthMinute(wDay))(last.sec + 3481)
    ensures NextTime(gm, last, FifthMinute(wDay)) == Timespec(last.sec + 3481, last.nsec)
  {
    FifthMinuteFrom(gm, wDay, last);
    FifthMinuteStays(gm, wDay, last.sec);
    SettledIsNext(Retrying(FifthMinute(wDay)), Check(gm, FifthMinute(wDay)), last, gm(last.sec), 3481);
  }

  lemma FifthMinuteArrives(gm: int -> Tm, wDay: set<int>, last: Timespec)
    requires IsGmTime(gm) && last.sec % DAY == 450 && 0 <= gm(last.sec).date.year <= 0xFFFF
    requires OnWeekday(wDay, WeekdayOf(last.sec / DAY))
    ensures NextTime(gm, last, FifthMinute(wDay)) == Timespec(last.sec + 3481, last.nsec)
  {
    FifthMinuteLater(gm, wDay, last.sec, 3481);
    FifthMinuteGoes(gm, wDay, last);
  }

  /**
   * With more than one second to choose from the result need not be the earliest: from any
   * 00:07:30 on a weekday that is set the timer goes to 01:05:31, and it also accepts 01:05:00.
   */
  lemma NotAlwaysEarliest(gm: int -> Tm, last: Timespec, wDay: set<int>)
    requires IsGmTime(gm)
    requires last.sec % DAY == 450 && OnWeekday(wDay, WeekdayOf(last.sec / DAY))
    requires 0 <= gm(last.sec).date.year <= 0xFFFF
    ensures NextTime(gm, last, FifthMinute(wDay)) == Timespec(last.sec + 3481, last.nsec)
    ensures Check(gm, FifthMinute(wDay))(last.sec + 3450)
  {
    assert Check(gm, FifthMinute(wDay))(last.sec + 3450) by {
      FifthMinuteLater(gm, wDay, last.sec, 3450);
    }
    assert NextTime(gm, last, FifthMinute(wDay)) == Timespec(last.sec + 3481, last.nsec) by {
      FifthMinuteArrives(gm, wDay, last);
    }
  }

  lemma Unreset(gm: int -> Tm, last: Timespec, td: TimerDef)
    requires IsGmTime(gm) && Regular(td) && 0 <= ZonedTime(gm, last.sec, td).date.year < 0xFFFF
    requires !Resets(td, ZonedTime(gm, last.sec, td))
    ensures !Earliest(Check(gm, td), last.sec, NextTime(gm, last, td).sec)
  {
    EarliestIffCarriesOver(gm, last, td);
  }

  /** It fails the condition there, whatever weekdays are set. */
  lemma FifthMinuteUnreset(gm: int -> Tm, wDay: set<int>, last: Timespec)
    requires IsGmTime(gm) && last.sec % DAY == 450 && 0 <= gm(last.sec).date.year < 0xFFFF
    ensures !Resets(FifthMinute(wDay), gm(last.sec))
    ensures !Earliest(Check(gm, FifthMinute(wDay)), last.sec, NextTime(gm, last, FifthMinute(wDay)).sec)
  {
    FifthMinuteStart(gm, wDay, last.sec);
    Unreset(gm, last, FifthMinute(wDay));
  }
}
