/**
 * What a dispatcher records is what its commands did: success after each of them was started and
 * ended well, in order, and failure right after one of them could not be started or failed.
 */
module CommandOrder {
  import opened Options
  import opened Tasks
  import opened TaskDB
  import opened Scheduler
  import opened EventOrder

  /** The number of commands that have ended well. */
  function Completed(x: Dispatcher): nat {
    match x.pc
    case Spawning(i) => i
    case SettingPid(i) => i
    case Waiting(i) => i
    case ClearingPid(i) => i + 1
    case Blocking(i) => i + 1
    case Reaping(i) => i + 1
    case SettingDone => if x.mode.Start? then x.copy.cmds else x.copy.stopCmds
    case _ => 0
  }

  /** The command that has been started and not yet waited for. */
  function UnderWay(pc: Pc): Option<nat> {
    match pc
    case SettingPid(i) => Some(i)
    case SettingRunning => Some(0)
    case FulfillingSpawn => Some(0)
    case ProvidingRunning(_) => Some(0)
    case Waiting(i) => Some(i)
    case _ => None
  }

  /** At step a dispatcher d starts command i as process pid. */
  ghost predicate SpawnsAt(ss: seq<Sys>, ls: seq<Label>, d: nat, a: nat, i: nat, pid: int)
    requires |ss| == |ls| + 1 && a < |ls|
  {
    ls[a] == Dispatch(d, Spawned(pid)) && d < |ss[a].disp| && ss[a].disp[d].pc == Spawning(i)
  }

  /** At step b dispatcher d learns that command i, process pid, has ended well. */
  ghost predicate EndsWellAt(ss: seq<Sys>, ls: seq<Label>, d: nat, b: nat, i: nat, pid: int)
    requires |ss| == |ls| + 1 && b < |ls|
  {
    ls[b] == Dispatch(d, Go) && d < |ss[b].disp| && ss[b].disp[d].pc == Waiting(i) && ss[b].disp[d].pid == pid
  }

  /** Indices of commands stay in range. */
  predicate InRange(x: Dispatcher) {
    !x.pc.Copying? ==>
      var n := if x.mode.Start? then x.copy.cmds else x.copy.stopCmds;
      Completed(x) <= n && (UnderWay(x.pc).Some? ==> UnderWay(x.pc).value < n) && (x.pc.Spawning? ==> x.pc.i < n)
  }

  /** One step of the dispatcher itself. */
  lemma OwnStep(s: Sys, x: Dispatcher, out: Outcome)
    requires DispatcherEnabled(s, x, out) && InRange(x)
    ensures
      var y := DispatcherAfter(s, x, out);
      && InRange(y)
      && (UnderWay(y.pc).Some? ==>
            if UnderWay(x.pc).Some? then UnderWay(y.pc) == UnderWay(x.pc) && y.pid == x.pid
            else x.pc == Spawning(UnderWay(y.pc).value) && out.Spawned? && y.pid == out.pid)
      && (Completed(y) > Completed(x) && !x.pc.Copying? ==>
            Completed(y) == Completed(x) + 1 && x.pc == Waiting(Completed(x)) && out.Go?)
      && (x.pc.Copying? ==> Completed(y) == 0)
  {
  }

  lemma {:induction false} RangeRun(ss: seq<Sys>, ls: seq<Label>, d: nat, k: nat)
    requires IsRun(ss, ls) && Initial(ss[0]) && k <= |ls| && d < |ss[k].disp|
    ensures InRange(ss[k].disp[d])
  {
    if k > 0 && !ss[k].disp[d].pc.Copying? {
      assert StepAt(ss, ls, k - 1);
      DispatcherFrom(ss[k - 1], ls[k - 1], d);
      RangeRun(ss, ls, d, k - 1);
      if StepBy(ls[k - 1], d) {
        OwnStep(ss[k - 1], ss[k - 1].disp[d], ls[k - 1].out);
      }
    }
  }

  /** A command under way was started, as the process the dispatcher has. */
  lemma {:induction false} UnderWayWasStarted(ss: seq<Sys>, ls: seq<Label>, d: nat, k: nat) returns (a: nat)
    requires IsRun(ss, ls) && Initial(ss[0]) && k <= |ls|
    requires d < |ss[k].disp| && UnderWay(ss[k].disp[d].pc).Some?
    ensures a < k && SpawnsAt(ss, ls, d, a, UnderWay(ss[k].disp[d].pc).value, ss[k].disp[d].pid)
  {
    var s, l := ss[k - 1], ls[k - 1];
    assert StepAt(ss, ls, k - 1);
    DispatcherFrom(s, l, d);
    RangeRun(ss, ls, d, k - 1);
    if StepBy(l, d) {
      OwnStep(s, s.disp[d], l.out);
    }
    if UnderWay(s.disp[d].pc).Some? {
      a := UnderWayWasStarted(ss, ls, d, k - 1);
    } else {
      a := k - 1;
    }
  }

  /** A completed command was started and ended well. */
  lemma {:induction false} CompletedHasRun(ss: seq<Sys>, ls: seq<Label>, d: nat, k: nat, i: nat)
    returns (a: nat, b: nat, pid: int)
    requires IsRun(ss, ls) && Initial(ss[0]) && k <= |ls|
    requires d < |ss[k].disp| && !ss[k].disp[d].pc.Copying? && i < Completed(ss[k].disp[d])
    ensures a < b < k && SpawnsAt(ss, ls, d, a, i, pid) && EndsWellAt(ss, ls, d, b, i, pid)
  {
    var s, l := ss[k - 1], ls[k - 1];
    assert StepAt(ss, ls, k - 1);
    DispatcherFrom(s, l, d);
    RangeRun(ss, ls, d, k - 1);
    if StepBy(l, d) {
      OwnStep(s, s.disp[d], l.out);
    }
    if i < Completed(s.disp[d]) && !s.disp[d].pc.Copying? {
      a, b, pid := CompletedHasRun(ss, ls, d, k - 1, i);
    } else {
      b, pid := k - 1, s.disp[d].pid;
      a := UnderWayWasStarted(ss, ls, d, k - 1);
    }
  }

  /**
   * A dispatcher about to record success has, for each of the task's commands, or stop commands in
   * stop mode, started it as a process and seen that process end well.
   */
  lemma DoneMeansAllRan(ss: seq<Sys>, ls: seq<Label>, d: nat, k: nat, i: nat) returns (a: nat, b: nat, pid: int)
    requires IsRun(ss, ls) && Initial(ss[0]) && k <= |ls| && d < |ss[k].disp|
    requires DispatcherOp(ss[k].disp[d]) == Some(SetState(ss[k].disp[d].task, DONE))
    requires i < if ss[k].disp[d].mode.Start? then ss[k].disp[d].copy.cmds else ss[k].disp[d].copy.stopCmds
    ensures a < b < k && SpawnsAt(ss, ls, d, a, i, pid) && EndsWellAt(ss, ls, d, b, i, pid)
  {
    a, b, pid := CompletedHasRun(ss, ls, d, k, i);
  }

  /** Commands are started one after the other, each when the ones before it have ended well. */
  lemma StartedInOrder(ss: seq<Sys>, ls: seq<Label>, d: nat, k: nat, j: nat, i: nat, pid: int)
    returns (a: nat, b: nat, pid': int)
    requires IsRun(ss, ls) && Initial(ss[0]) && k < |ls| && SpawnsAt(ss, ls, d, k, j, pid) && i < j
    ensures a < b < k && SpawnsAt(ss, ls, d, a, i, pid') && EndsWellAt(ss, ls, d, b, i, pid')
  {
    a, b, pid' := CompletedHasRun(ss, ls, d, k, i);
  }

  /** The dispatcher's step failed: its task could not be read, a command not be started, or it ended badly. */
  ghost predicate FailsAt(ss: seq<Sys>, ls: seq<Label>, d: nat, a: nat)
    requires |ss| == |ls| + 1 && a < |ls|
  {
    && ls[a] == Dispatch(d, Fail) && d < |ss[a].disp|
    && (ss[a].disp[d].pc.Copying? || ss[a].disp[d].pc.Spawning? || ss[a].disp[d].pc.Waiting?)
  }

  lemma FailsBefore(s: Sys, x: Dispatcher, out: Outcome)
    requires DispatcherEnabled(s, x, out) && DispatcherAfter(s, x, out).pc.SettingFailed?
    ensures out.Fail? && (x.pc.Copying? || x.pc.Spawning? || x.pc.Waiting?)
  {
  }

  /** A dispatcher about to record failure has just failed, and has not done anything since. */
  lemma {:induction false} FailedMeansFailure(ss: seq<Sys>, ls: seq<Label>, d: nat, k: nat) returns (a: nat)
    requires IsRun(ss, ls) && Initial(ss[0]) && k <= |ls| && d < |ss[k].disp|
    requires DispatcherOp(ss[k].disp[d]) == Some(SetState(ss[k].disp[d].task, FAILED))
    ensures a < k && FailsAt(ss, ls, d, a) && forall j :: a < j < k ==> !StepBy(ls[j], d)
  {
    assert StepAt(ss, ls, k - 1);
    DispatcherFrom(ss[k - 1], ls[k - 1], d);
    if StepBy(ls[k - 1], d) {
      FailsBefore(ss[k - 1], ss[k - 1].disp[d], ls[k - 1].out);
      a := k - 1;
    } else {
      a := FailedMeansFailure(ss, ls, d, k - 1);
    }
  }
}
