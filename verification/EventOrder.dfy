/**
 * A dispatcher announces what has happened: each of its events comes after it recorded the state
 * the event stands for.
 */
module EventOrder {
  import opened Options
  import opened Tasks
  import opened TaskDB
  import opened Scheduler

  /** The event of a dispatcher stands for its task being in this state. */
  ghost predicate StandsFor(x: Dispatcher, d: Dep, state: TaskState) {
    || (d == Dep(x.task, EVENT_SPAWN) && state == RUNNING)
    || (d == Dep(x.task, EVENT_WAIT) && state == DONE)
    || (d == Dep(x.task, EVENT_FAIL) && state == FAILED)
    || (d.name == PROVIDED && Provide(d.event, state) in x.copy.prv)
  }

  /** The state last recorded at a point of a dispatcher's work, where events are due. */
  function Announcing(pc: Pc): Option<TaskState> {
    match pc
    case FulfillingSpawn => Some(RUNNING)
    case ProvidingRunning(_) => Some(RUNNING)
    case FulfillingDone => Some(DONE)
    case ProvidingDone(_) => Some(DONE)
    case ClearingPidFailed => Some(FAILED)
    case BlockingFailed => Some(FAILED)
    case ReapingFailed => Some(FAILED)
    case FulfillingFailed => Some(FAILED)
    case ProvidingFailed(_) => Some(FAILED)
    case _ => None
  }

  lemma EventStandsFor(x: Dispatcher, d: Dep)
    requires DispatcherOp(x) == Some(Fulfil(d, None))
    ensures Announcing(x.pc).Some? && StandsFor(x, d, Announcing(x.pc).value)
  {
  }

  predicate StepBy(l: Label, d: nat) {
    l.Dispatch? && l.d == d
  }

  /** Step j is one of dispatcher d and records a state of the named task. */
  ghost predicate RecordsAt(ss: seq<Sys>, ls: seq<Label>, d: nat, j: nat, name: string, state: TaskState)
    requires |ss| == |ls| + 1 && j < |ls|
  {
    StepBy(ls[j], d) && Enabled(ss[j], ls[j]) && OpOf(ss[j], ls[j]) == Some(SetState(name, state))
  }

  /** Where announcing begins: at the step that records the state, and otherwise it goes on. */
  lemma AnnouncingAfter(s: Sys, x: Dispatcher, out: Outcome)
    requires DispatcherEnabled(s, x, out)
    ensures
      var y := DispatcherAfter(s, x, out);
      y.task == x.task && (Announcing(y.pc).Some? ==>
        if Announcing(x.pc).Some? then Announcing(x.pc) == Announcing(y.pc) && !RecordsState(x)
        else DispatcherOp(x) == Some(SetState(x.task, Announcing(y.pc).value)))
  {
  }

  predicate RecordsState(x: Dispatcher) {
    DispatcherOp(x).Some? && DispatcherOp(x).value.SetState?
  }

  /** A dispatcher that has read its task was there before the step, and only its own steps change it. */
  lemma DispatcherFrom(s: Sys, l: Label, d: nat)
    requires Enabled(s, l) && d < |Next(s, l).disp| && !Next(s, l).disp[d].pc.Copying?
    ensures d < |s.disp|
    ensures StepBy(l, d) ==>
              DispatcherEnabled(s, s.disp[d], l.out) && Next(s, l).disp[d] == DispatcherAfter(s, s.disp[d], l.out)
    ensures !StepBy(l, d) ==> Next(s, l).disp[d] == s.disp[d]
  {
    StepDisp(s, l);
  }

  /** A dispatcher with events due recorded the state they stand for, and nothing since. */
  lemma {:induction false} AnnouncesRecorded(ss: seq<Sys>, ls: seq<Label>, d: nat, k: nat) returns (j: nat)
    requires IsRun(ss, ls) && Initial(ss[0]) && k <= |ls|
    requires d < |ss[k].disp| && Announcing(ss[k].disp[d].pc).Some?
    ensures j < k && RecordsAt(ss, ls, d, j, ss[k].disp[d].task, Announcing(ss[k].disp[d].pc).value)
    ensures d < |ss[j].disp| && ss[j].disp[d].task == ss[k].disp[d].task
    ensures forall i :: j < i < k && StepBy(ls[i], d) ==> d < |ss[i].disp| && !RecordsState(ss[i].disp[d])
    decreases k
  {
    var s, l := ss[k - 1], ls[k - 1];
    assert StepAt(ss, ls, k - 1);
    DispatcherFrom(s, l, d);
    if StepBy(l, d) {
      AnnouncingAfter(s, s.disp[d], l.out);
    }
    if Announcing(s.disp[d].pc).Some? {
      j := AnnouncesRecorded(ss, ls, d, k - 1);
    } else {
      j := k - 1;
    }
  }

  /**
   * Whenever a dispatcher delivers an event, an earlier step of the same dispatcher recorded for its
   * task the state the event stands for: running for `spawn`, done for `wait`, failed for `fail`, and
   * for a feature the state the task offers it in; and the dispatcher recorded no state in between.
   */
  lemma EventFollowsState(ss: seq<Sys>, ls: seq<Label>, d: nat, k: nat, e: Dep) returns (j: nat, state: TaskState)
    requires IsRun(ss, ls) && Initial(ss[0]) && k < |ls| && StepBy(ls[k], d) && d < |ss[k].disp|
    requires Enabled(ss[k], ls[k]) && OpOf(ss[k], ls[k]) == Some(Fulfil(e, None))
    ensures j < k && RecordsAt(ss, ls, d, j, ss[k].disp[d].task, state) && StandsFor(ss[k].disp[d], e, state)
    ensures forall i :: j < i < k && StepBy(ls[i], d) ==> d < |ss[i].disp| && !RecordsState(ss[i].disp[d])
  {
    EventStandsFor(ss[k].disp[d], e);
    state := Announcing(ss[k].disp[d].pc).value;
    j := AnnouncesRecorded(ss, ls, d, k);
  }

  // ---- no event is left out ----

  function EventOf(state: TaskState): string {
    if state == RUNNING then EVENT_SPAWN else if state == DONE then EVENT_WAIT else EVENT_FAIL
  }

  /** The dispatcher is past the event for its state and on to its features. */
  predicate Providing(pc: Pc) {
    pc.ProvidingRunning? || pc.ProvidingDone? || pc.ProvidingFailed?
  }

  ghost predicate DeliversAt(ss: seq<Sys>, ls: seq<Label>, d: nat, m: nat, e: Dep)
    requires |ss| == |ls| + 1 && m < |ls|
  {
    StepBy(ls[m], d) && Enabled(ss[m], ls[m]) && OpOf(ss[m], ls[m]) == Some(Fulfil(e, None))
  }

  /** How a dispatcher comes to its features, and how a dispatcher comes to its end. */
  lemma ProvidingAfter(s: Sys, x: Dispatcher, out: Outcome)
    requires DispatcherEnabled(s, x, out)
    ensures
      var y := DispatcherAfter(s, x, out);
      && y.task == x.task
      && (Providing(y.pc) ==>
            Announcing(x.pc) == Announcing(y.pc) && (Providing(x.pc) || AnnouncesEvent(x)))
      && (y.pc.Exiting? ==>
            && (Announcing(x.pc) == Some(DONE) || Announcing(x.pc) == Some(FAILED))
            && (Providing(x.pc) || AnnouncesEvent(x)))
  {
  }

  predicate AnnouncesEvent(x: Dispatcher) {
    Announcing(x.pc).Some? && DispatcherOp(x) == Some(Fulfil(Dep(x.task, EventOf(Announcing(x.pc).value)), None))
  }

  /** A dispatcher on to its features has delivered the event for its state. */
  lemma {:induction false} ProvidingHasAnnounced(ss: seq<Sys>, ls: seq<Label>, d: nat, k: nat) returns (m: nat)
    requires IsRun(ss, ls) && Initial(ss[0]) && k <= |ls| && d < |ss[k].disp| && Providing(ss[k].disp[d].pc)
    ensures m < k && DeliversAt(ss, ls, d, m, Dep(ss[k].disp[d].task, EventOf(Announcing(ss[k].disp[d].pc).value)))
  {
    var s, l := ss[k - 1], ls[k - 1];
    assert StepAt(ss, ls, k - 1);
    DispatcherFrom(s, l, d);
    if StepBy(l, d) {
      ProvidingAfter(s, s.disp[d], l.out);
    }
    if Providing(s.disp[d].pc) {
      m := ProvidingHasAnnounced(ss, ls, d, k - 1);
    } else {
      m := k - 1;
    }
  }

  /** The last step of a dispatcher before it is about to exit. */
  lemma {:induction false} StepBeforeExit(ss: seq<Sys>, ls: seq<Label>, d: nat, k: nat) returns (n: nat)
    requires IsRun(ss, ls) && Initial(ss[0]) && k <= |ls| && d < |ss[k].disp| && ss[k].disp[d].pc.Exiting?
    ensures n < k && StepBy(ls[n], d) && d < |ss[n].disp| && DispatcherEnabled(ss[n], ss[n].disp[d], ls[n].out)
    ensures DispatcherAfter(ss[n], ss[n].disp[d], ls[n].out) == ss[k].disp[d]
  {
    assert StepAt(ss, ls, k - 1);
    DispatcherFrom(ss[k - 1], ls[k - 1], d);
    if StepBy(ls[k - 1], d) {
      n := k - 1;
    } else {
      n := StepBeforeExit(ss, ls, d, k - 1);
    }
  }

  /**
   * A dispatcher about to exit has recorded that its task is done or has failed, and has delivered
   * the `wait` or the `fail` event accordingly.
   */
  lemma ExitHasAnnounced(ss: seq<Sys>, ls: seq<Label>, d: nat, k: nat) returns (j: nat, m: nat, state: TaskState)
    requires IsRun(ss, ls) && Initial(ss[0]) && k <= |ls| && d < |ss[k].disp| && ss[k].disp[d].pc.Exiting?
    ensures j < k && m < k && (state == DONE || state == FAILED)
    ensures RecordsAt(ss, ls, d, j, ss[k].disp[d].task, state)
    ensures DeliversAt(ss, ls, d, m, Dep(ss[k].disp[d].task, EventOf(state)))
  {
    var n := StepBeforeExit(ss, ls, d, k);
    ProvidingAfter(ss[n], ss[n].disp[d], ls[n].out);
    assert StepAt(ss, ls, n);
    state := Announcing(ss[n].disp[d].pc).value;
    j := AnnouncesRecorded(ss, ls, d, n);
    if Providing(ss[n].disp[d].pc) {
      m := ProvidingHasAnnounced(ss, ls, d, n);
    } else {
      m := n;
    }
  }
}
