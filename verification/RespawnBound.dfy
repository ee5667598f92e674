/**
 * A respawning task with a retry limit is not started more often than the limit allows.
 */
module RespawnBound {
  import opened Options
  import opened Tasks
  import opened TaskDB
  import opened Scheduler
  import Single = SingleDispatcher

  /** Calm runs in which no client sets the state of the named task. */
  predicate RetryLabel(l: Label, name: string) {
    Single.CalmLabel(l) && !(l.Command? && l.op.SetState? && l.op.name == name)
  }

  ghost predicate Working(disp: seq<Dispatcher>, name: string) {
    exists d :: 0 <= d < |disp| && Single.AtWork(disp[d], name)
  }

  /** The task respawns without rearming and may be retried r times. */
  predicate Limited(t: Task, r: int) {
    t.respawn && !t.rearm && t.maxRetries == r
  }

  /** Where such a task can be: what its state and its count of failures say together. */
  ghost predicate Shape(t: Task, r: int, working: bool) {
    && 0 <= t.failCount <= r + 1
    && (working <==> t.state == STARTING || t.state == RUNNING)
    && (working || t.state == LOADED ==> t.failCount <= r)
    && (t.state == DONE ==> t.failCount == 0)
    && (working || t.state == LOADED || t.state == DONE || t.state == FAILED)
  }

  ghost predicate Inv(s: Sys, i: nat, r: int) {
    && Single.Inv(s)
    && i < |s.db.tasks|
    && Limited(s.db.tasks[i], r)
    && Shape(s.db.tasks[i], r, Working(s.disp, s.db.tasks[i].name))
  }

  /** The step records the given result for the named task. */
  predicate Records(s: Sys, l: Label, name: string, result: TaskState) {
    Enabled(s, l) && OpOf(s, l) == Some(SetState(name, result))
  }

  /** Failures of a task so far plus the attempt under way. */
  ghost function Tries(t: Task, disp: seq<Dispatcher>): int {
    t.failCount + if Working(disp, t.name) then 1 else 0
  }

  ghost function Attempts(s: Sys, i: nat): int
    requires i < |s.db.tasks|
  {
    Tries(s.db.tasks[i], s.disp)
  }

  // ---- one step ----

  lemma PassStep(s: Sys, failAt: nat, i: nat, r: int)
    requires Inv(s, i, r) && r >= 0 && s.main == AtPass
    ensures var l := RunPass(failAt);
            var s' := Next(s, l);
            && Inv(s', i, r)
            && Attempts(s', i) == Attempts(s, i) + (if Starts(s, l, s.db.tasks[i].name) then 1 else 0)
            && s'.db.tasks[i].failCount == s.db.tasks[i].failCount
  {
    var l := RunPass(failAt);
    var s' := Next(s, l);
    var t := s.db.tasks[i];
    Single.PassKeeps(s, failAt);
    StepTask(s, l, i);
    StepDisp(s, l);
    var names := Pass(s.db, failAt).started;
    WorkingAfterPass(s.disp, names, t.name);
    if !s.db.spawnInhibit {
      StartedExactly(s.db.tasks, PassEnd(s.db.tasks, failAt), t.name);
      if t.name in names {
        var k :| 0 <= k < PassEnd(s.db.tasks, failAt) && IsReady(s.db.tasks[k]) && s.db.tasks[k].name == t.name;
        assert k == i;
      }
    }
  }

  lemma WorkingAfterPass(disp: seq<Dispatcher>, names: seq<string>, name: string)
    ensures Working(disp + NewDispatchers(names), name) <==> Working(disp, name) || name in names
  {
    var disp' := disp + NewDispatchers(names);
    if Working(disp, name) {
      var d :| 0 <= d < |disp| && Single.AtWork(disp[d], name);
      assert Single.AtWork(disp'[d], name);
    }
    if name in names {
      var a :| 0 <= a < |names| && names[a] == name;
      assert Single.AtWork(disp'[|disp| + a], name);
    }
  }

  /** A dispatcher step changes whether the task is worked on only if this dispatcher records. */
  lemma WorkingAfterDispatch(disp: seq<Dispatcher>, d: nat, y: Dispatcher, name: string)
    requires d < |disp| && y.task == disp[d].task && y.mode == disp[d].mode
    requires Single.Recorded(disp[d].pc) ==> Single.Recorded(y.pc)
    requires forall a, b :: 0 <= a < b < |disp| ==> !(Single.AtWork(disp[a], name) && Single.AtWork(disp[b], name))
    ensures Single.AtWork(disp[d], name) ==>
              Working(disp, name) && (Working(disp[d := y], name) <==> Single.AtWork(y, name))
    ensures !Single.AtWork(disp[d], name) ==> (Working(disp[d := y], name) <==> Working(disp, name))
  {
    var disp' := disp[d := y];
    if Single.AtWork(y, name) {
      assert Single.AtWork(disp'[d], name);
    }
    if Working(disp', name) {
      var e :| 0 <= e < |disp'| && Single.AtWork(disp'[e], name);
      assert Single.AtWork(disp[e], name);
    }
    if Working(disp, name) && !Single.AtWork(disp[d], name) {
      var e :| 0 <= e < |disp| && Single.AtWork(disp[e], name);
      assert Single.AtWork(disp'[e], name);
    }
  }

  predicate Ends(t: Task, x: Dispatcher, pc: Pc) {
    x.task == t.name && x.pc == pc
  }

  /** What a dispatcher's step does to a task with limited retries. */
  lemma DispatchTries(t: Task, disp: seq<Dispatcher>, d: nat, y: Dispatcher, r: int)
    requires Limited(t, r) && r >= 0 && Shape(t, r, Working(disp, t.name)) && Single.Single(t, disp)
    requires d < |disp| && disp[d].mode.Start? && y.task == disp[d].task && y.mode == disp[d].mode
    requires Single.Recorded(disp[d].pc) ==> Single.Recorded(y.pc)
    requires !Single.Recorded(disp[d].pc) ==>
               (Single.Recorded(y.pc) <==> disp[d].pc.SettingDone? || disp[d].pc.SettingFailed?)
    requires disp[d].task == t.name && !disp[d].pc.Copying? ==> disp[d].copy.rearm == t.rearm
    ensures var t', disp' := Single.TouchIf(t, DispatcherOp(disp[d])), disp[d := y];
            && t'.name == t.name && Limited(t', r) && Shape(t', r, Working(disp', t.name))
            && (if Ends(t, disp[d], SettingDone) then Tries(t', disp') == 0
                else && Tries(t', disp') == Tries(t, disp)
                     && t'.failCount == t.failCount + (if Ends(t, disp[d], SettingFailed) then 1 else 0))
  {
    var x := disp[d];
    assert forall e :: 0 <= e < |disp| && Single.AtWork(disp[e], t.name) ==> Single.Holds(t, disp[e]);
    WorkingAfterDispatch(disp, d, y, t.name);
    if x.task == t.name {
      OwnStep(t, x);
    } else {
      OtherStep(t, x);
    }
  }

  lemma RecordsIs(s: Sys, d: nat, out: Outcome, t: Task)
    requires Enabled(s, Dispatch(d, out))
    ensures Records(s, Dispatch(d, out), t.name, DONE) <==> Ends(t, s.disp[d], SettingDone)
    ensures Records(s, Dispatch(d, out), t.name, FAILED) <==> Ends(t, s.disp[d], SettingFailed)
  {
  }

  lemma DispatchStep(s: Sys, d: nat, out: Outcome, i: nat, r: int)
    requires Inv(s, i, r) && r >= 0 && Enabled(s, Dispatch(d, out))
    ensures var l := Dispatch(d, out);
            var s' := Next(s, l);
            var name := s.db.tasks[i].name;
            && Inv(s', i, r)
            && (!Records(s, l, name, DONE) ==> Attempts(s', i) == Attempts(s, i))
            && (Records(s, l, name, DONE) ==> Attempts(s', i) == 0)
            && (!Records(s, l, name, DONE) ==>
                  s'.db.tasks[i].failCount == s.db.tasks[i].failCount + (if Records(s, l, name, FAILED) then 1 else 0))
  {
    var t, x := s.db.tasks[i], s.disp[d];
    Single.DispatchKeeps(s, d, out);
    StepTask(s, Dispatch(d, out), i);
    StepDisp(s, Dispatch(d, out));
    RecordsIs(s, d, out, t);
    assert Single.Known(s.db.tasks, x);
    assert Single.Single(t, s.disp);
    RecordedStays(s, x, out);
    if x.task == t.name {
      CopyAgrees(s.db.tasks, x, t);
    }
    DispatchTries(t, s.disp, d, DispatcherAfter(s, x, out), r);
  }

  lemma RecordedStays(s: Sys, x: Dispatcher, out: Outcome)
    requires DispatcherEnabled(s, x, out)
    ensures var y := DispatcherAfter(s, x, out);
            && y.task == x.task && y.mode == x.mode
            && (Single.Recorded(x.pc) ==> Single.Recorded(y.pc))
            && (!Single.Recorded(x.pc) ==> (Single.Recorded(y.pc) <==> x.pc.SettingDone? || x.pc.SettingFailed?))
  {
  }

  /** The dispatcher's copy agrees with its task on rearming. */
  lemma CopyAgrees(tasks: seq<Task>, x: Dispatcher, t: Task)
    requires UniqueNames(tasks) && t in tasks && x.task == t.name && Single.Known(tasks, x)
    ensures !x.pc.Copying? ==> x.copy.rearm == t.rearm
  {
    var k :| 0 <= k < |tasks| && tasks[k].name == x.task
      && (!x.pc.Copying? ==> x.copy.respawn == tasks[k].respawn && x.copy.rearm == tasks[k].rearm);
    assert tasks[k] == t;
  }

  lemma OwnCount(t: Task, x: Dispatcher)
    requires x.task == t.name
    ensures Single.TouchIf(t, DispatcherOp(x)).failCount ==
            match x.pc
            case SettingDone => 0
            case SettingFailed => t.failCount + 1
            case _ => t.failCount
  {
    Single.DispatcherInsertsNot(x);
    if DispatcherOp(x).Some? {
      Single.CountAfter(t, DispatcherOp(x).value);
    }
  }

  /** The dispatcher's own task: only the recording steps touch the count. */
  lemma OwnStep(t: Task, x: Dispatcher)
    requires x.task == t.name && !t.rearm && (!x.pc.Copying? ==> x.copy.rearm == t.rearm)
    ensures var t' := Single.TouchIf(t, DispatcherOp(x));
            && Single.SameOptions(t, t')
            && t'.state == (match x.pc
                            case SettingRunning => RUNNING
                            case SettingDone => DONE
                            case SettingFailed => FAILED
                            case _ => t.state)
            && t'.failCount == (match x.pc
                                case SettingDone => 0
                                case SettingFailed => t.failCount + 1
                                case _ => t.failCount)
  {
    Single.OptionsStay(t, x);
    Single.OwnState(t, x);
    OwnCount(t, x);
  }

  lemma OtherStep(t: Task, x: Dispatcher)
    requires x.task != t.name
    ensures Single.Untouched(t, Single.TouchIf(t, DispatcherOp(x)))
  {
    Single.DispatcherAims(x);
    if DispatcherOp(x).Some? {
      Single.OpAside(t, DispatcherOp(x).value);
    }
  }

  lemma OtherLabels(s: Sys, l: Label, i: nat, r: int)
    requires Inv(s, i, r) && Enabled(s, l) && RetryLabel(l, s.db.tasks[i].name) && !l.RunPass? && !l.Dispatch?
    ensures var s' := Next(s, l);
            && Inv(s', i, r)
            && Attempts(s', i) == Attempts(s, i)
            && s'.db.tasks[i].failCount == s.db.tasks[i].failCount
  {
    Single.OtherKeeps(s, l);
    StepTask(s, l, i);
    StepDisp(s, l);
    assert Next(s, l).disp == s.disp;
    CommandKeeps(s, l, i);
  }

  lemma CommandKeeps(s: Sys, l: Label, i: nat)
    requires i < |s.db.tasks| && Enabled(s, l) && RetryLabel(l, s.db.tasks[i].name) && !l.RunPass? && !l.Dispatch?
    ensures Single.Untouched(s.db.tasks[i], TaskAfter(s, l, i))
  {
    if OpOf(s, l).Some? && !OpOf(s, l).value.Insert? {
      Single.OpAside(s.db.tasks[i], OpOf(s, l).value);
    }
  }

  /** Attempts go up exactly at starts and are cleared exactly by a recorded success. */
  lemma StepAttempts(s: Sys, l: Label, i: nat, r: int)
    requires Inv(s, i, r) && r >= 0 && Enabled(s, l) && RetryLabel(l, s.db.tasks[i].name)
    ensures var s' := Next(s, l);
            var name := s.db.tasks[i].name;
            && Inv(s', i, r) && s'.db.tasks[i].name == name
            && (Records(s, l, name, DONE) ==> Attempts(s', i) == 0)
            && (!Records(s, l, name, DONE) ==>
                  && Attempts(s', i) == Attempts(s, i) + (if Starts(s, l, name) then 1 else 0)
                  && s'.db.tasks[i].failCount ==
                     s.db.tasks[i].failCount + (if Records(s, l, name, FAILED) then 1 else 0))
  {
    StepNames(s, l);
    match l
    case RunPass(failAt) => PassStep(s, failAt, i, r);
    case Dispatch(d, out) => DispatchStep(s, d, out, i, r);
    case _ =>
      OtherLabels(s, l, i, r);
      assert !Records(s, l, s.db.tasks[i].name, DONE) && !Records(s, l, s.db.tasks[i].name, FAILED);
  }

  // ---- whole runs ----

  /** How many of the steps a, ..., b-1 start the named task. */
  ghost function StartCount(ss: seq<Sys>, ls: seq<Label>, name: string, a: nat, b: nat): nat
    requires IsRun(ss, ls) && a <= b <= |ls|
  {
    if a == b then 0
    else StartCount(ss, ls, name, a, b - 1) + (if Starts(ss[b - 1], ls[b - 1], name) then 1 else 0)
  }

  /** How many of the steps a, ..., b-1 record a failure of the named task. */
  ghost function FailureCount(ss: seq<Sys>, ls: seq<Label>, name: string, a: nat, b: nat): nat
    requires IsRun(ss, ls) && a <= b <= |ls|
  {
    if a == b then 0
    else FailureCount(ss, ls, name, a, b - 1) + (if Records(ss[b - 1], ls[b - 1], name, FAILED) then 1 else 0)
  }

  /** No step from a up to b records success of the named task. */
  ghost predicate NoSuccess(ss: seq<Sys>, ls: seq<Label>, name: string, a: nat, b: nat)
    requires IsRun(ss, ls) && b <= |ls|
  {
    forall k :: a <= k < b ==> !Records(ss[k], ls[k], name, DONE)
  }

  /** The step loads the named task or records its success. */
  predicate Refreshes(s: Sys, l: Label, name: string) {
    || (l.Command? && l.op.Insert? && l.op.t.name == name && !Has(s.db.tasks, name))
    || Records(s, l, name, DONE)
  }

  /** At state a the named task was just loaded or has just succeeded. */
  ghost predicate FreshAt(ss: seq<Sys>, ls: seq<Label>, name: string, a: nat)
    requires IsRun(ss, ls) && a <= |ls|
  {
    a == 0 || Refreshes(ss[a - 1], ls[a - 1], name)
  }

  ghost predicate RetryRun(ss: seq<Sys>, ls: seq<Label>, name: string) {
    && IsRun(ss, ls) && Initial(ss[0])
    && forall k :: 0 <= k < |ls| ==> RetryLabel(ls[k], name)
  }

  /** The invariant holds wherever the task is in the database. */
  lemma {:induction false} RunInv(ss: seq<Sys>, ls: seq<Label>, i: nat, a: nat, name: string, r: int)
    requires RetryRun(ss, ls, name) && r >= 0 && a <= |ls|
    requires i < |ss[a].db.tasks| && ss[a].db.tasks[i].name == name && Limited(ss[a].db.tasks[i], r)
    ensures Inv(ss[a], i, r)
    ensures FreshAt(ss, ls, name, a) ==> Attempts(ss[a], i) == 0
  {
    Single.RunKeeps(ss, ls, a);
    if a > 0 {
      var s, l := ss[a - 1], ls[a - 1];
      Single.RunKeeps(ss, ls, a - 1);
      assert StepAt(ss, ls, a - 1);
      if i < |s.db.tasks| {
        StepNames(s, l);
        LimitedBefore(s, l, i, r);
        RunInv(ss, ls, i, a - 1, name, r);
        StepInv(s, l, i, r);
      } else {
        JustLoaded(s, l, i);
      }
    }
  }

  lemma StepInv(s: Sys, l: Label, i: nat, r: int)
    requires Inv(s, i, r) && r >= 0 && Enabled(s, l) && RetryLabel(l, s.db.tasks[i].name)
    ensures Inv(Next(s, l), i, r)
    ensures Refreshes(s, l, s.db.tasks[i].name) ==> Attempts(Next(s, l), i) == 0
  {
    StepAttempts(s, l, i, r);
    assert Has(s.db.tasks, s.db.tasks[i].name);
  }

  /** The options are those of the step before. */
  lemma LimitedBefore(s: Sys, l: Label, i: nat, r: int)
    requires Enabled(s, l) && i < |s.db.tasks| && Single.CalmLabel(l)
    requires i < |Next(s, l).db.tasks| && Limited(Next(s, l).db.tasks[i], r)
    ensures Limited(s.db.tasks[i], r)
  {
    StepTask(s, l, i);
  }

  /** A task that was not there before is fresh and has no dispatcher. */
  lemma JustLoaded(s: Sys, l: Label, i: nat)
    requires Single.Inv(s) && Enabled(s, l) && Single.CalmLabel(l)
    requires |s.db.tasks| <= i < |Next(s, l).db.tasks|
    ensures FreshTask(Next(s, l).db.tasks[i])
    ensures !Working(Next(s, l).disp, Next(s, l).db.tasks[i].name)
  {
    Single.NewIsAlone(s, l, i);
  }

  /** Along a stretch without success, attempts and failures are counted exactly. */
  lemma {:induction false} RunAttempts(ss: seq<Sys>, ls: seq<Label>, i: nat, a: nat, b: nat, name: string, r: int)
    requires RetryRun(ss, ls, name) && r >= 0 && a <= b <= |ls|
    requires i < |ss[a].db.tasks| && ss[a].db.tasks[i].name == name && Limited(ss[a].db.tasks[i], r)
    requires NoSuccess(ss, ls, name, a, b)
    ensures Inv(ss[b], i, r) && ss[b].db.tasks[i].name == name
    ensures Attempts(ss[b], i) == Attempts(ss[a], i) + StartCount(ss, ls, name, a, b)
    ensures ss[b].db.tasks[i].failCount == ss[a].db.tasks[i].failCount + FailureCount(ss, ls, name, a, b)
    decreases b
  {
    if a == b {
      RunInv(ss, ls, i, a, name, r);
    } else {
      RunAttempts(ss, ls, i, a, b - 1, name, r);
      assert StepAt(ss, ls, b - 1);
      StepAttempts(ss[b - 1], ls[b - 1], i, r);
    }
  }

  /**
   * Respawn bound: from loading or from its last success on, a respawning task with r retries is
   * started at most r+1 times, whether or not creating a dispatcher failed in between.
   */
  lemma RespawnBound(ss: seq<Sys>, ls: seq<Label>, i: nat, a: nat, b: nat, name: string, r: int)
    requires RetryRun(ss, ls, name) && r >= 0 && a <= b <= |ls|
    requires i < |ss[a].db.tasks| && ss[a].db.tasks[i].name == name && Limited(ss[a].db.tasks[i], r)
    requires FreshAt(ss, ls, name, a) && NoSuccess(ss, ls, name, a, b)
    ensures StartCount(ss, ls, name, a, b) <= r + 1
  {
    RunInv(ss, ls, i, a, name, r);
    RunAttempts(ss, ls, i, a, b, name, r);
  }

  /** A task that used up its retries stays failed and is never started again. */
  lemma {:induction false} ExhaustedForever(ss: seq<Sys>, ls: seq<Label>, i: nat, b: nat, k: nat, name: string, r: int)
    requires RetryRun(ss, ls, name) && r >= 0 && b <= k <= |ls|
    requires i < |ss[b].db.tasks| && ss[b].db.tasks[i].name == name && Limited(ss[b].db.tasks[i], r)
    requires ss[b].db.tasks[i].failCount > r
    ensures Inv(ss[k], i, r) && ss[k].db.tasks[i].name == name && ss[k].db.tasks[i].failCount > r
    ensures k < |ls| ==> !Starts(ss[k], ls[k], name)
    decreases k
  {
    if b == k {
      RunInv(ss, ls, i, b, name, r);
    } else {
      ExhaustedForever(ss, ls, i, b, k - 1, name, r);
      assert StepAt(ss, ls, k - 1);
      StepAttempts(ss[k - 1], ls[k - 1], i, r);
      NoRecordLeft(ss[k - 1], ls[k - 1], i, r);
    }
    if k < |ls| {
      assert StepAt(ss, ls, k);
      StepAttempts(ss[k], ls[k], i, r);
      NoRecordLeft(ss[k], ls[k], i, r);
      assert !Starts(ss[k], ls[k], name);
    }
  }

  /** Nobody is left to record anything for an exhausted task. */
  lemma NoRecordLeft(s: Sys, l: Label, i: nat, r: int)
    requires Inv(s, i, r) && Enabled(s, l) && RetryLabel(l, s.db.tasks[i].name) && s.db.tasks[i].failCount > r
    ensures !Records(s, l, s.db.tasks[i].name, DONE)
  {
    assert !Working(s.disp, s.db.tasks[i].name);
    if l.Dispatch? {
      assert Single.Known(s.db.tasks, s.disp[l.d]);
      assert !Single.AtWork(s.disp[l.d], s.db.tasks[i].name);
    }
  }

  /** After r+1 failures in a row the task is never started again. */
  lemma NeverAgain(ss: seq<Sys>, ls: seq<Label>, i: nat, a: nat, b: nat, k: nat, name: string, r: int)
    requires RetryRun(ss, ls, name) && r >= 0 && a <= b <= k < |ls|
    requires i < |ss[a].db.tasks| && ss[a].db.tasks[i].name == name && Limited(ss[a].db.tasks[i], r)
    requires NoSuccess(ss, ls, name, a, b) && FailureCount(ss, ls, name, a, b) >= r + 1
    ensures !Starts(ss[k], ls[k], name)
  {
    RunInv(ss, ls, i, a, name, r);
    RunAttempts(ss, ls, i, a, b, name, r);
    ExhaustedForever(ss, ls, i, b, k, name, r);
  }

  /** A failed task that waits for nothing and is not held back. */
  predicate MayRetry(t: Task) {
    t.state == FAILED && t.deps == [] && t.triggered && !t.inhibitRespawn
  }

  /**
   * Retries are really made: since loading or its last success, a task that has failed is started
   * again by a full pass if and only if it has failed at most r times.
   */
  lemma RetriedIffLeft(ss: seq<Sys>, ls: seq<Label>, i: nat, a: nat, b: nat, name: string, r: int)
    requires RetryRun(ss, ls, name) && r >= 0 && a <= b < |ls|
    requires i < |ss[a].db.tasks| && ss[a].db.tasks[i].name == name && Limited(ss[a].db.tasks[i], r)
    requires FreshAt(ss, ls, name, a) && NoSuccess(ss, ls, name, a, b)
    requires i < |ss[b].db.tasks| && MayRetry(ss[b].db.tasks[i]) && FullPass(ss[b], ls[b])
    ensures Starts(ss[b], ls[b], name) <==> FailureCount(ss, ls, name, a, b) <= r
  {
    RunInv(ss, ls, i, a, name, r);
    RunAttempts(ss, ls, i, a, b, name, r);
    var t := ss[b].db.tasks[i];
    assert t.failCount == FailureCount(ss, ls, name, a, b);
    if t.failCount <= r {
      ReadyIsStarted(ss[b], ls[b], i);
    } else {
      ExhaustedForever(ss, ls, i, b, b, name, r);
    }
  }
}
