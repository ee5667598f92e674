/**
 * STOP and KILL find what they look for: while a command of a task that runs once is under way,
 * the task's stored PID is that command's process, and before and after it is none.
 */
module PidStored {
  import opened Options
  import opened Tasks
  import opened TaskDB
  import opened Scheduler
  import Single = SingleDispatcher

  /** The task is started once: it is neither respawned nor rearmed. */
  predicate RunsOnce(t: Task) {
    !t.respawn && !t.rearm
  }

  /** Calm runs in which no client reports a main PID. */
  predicate PlainLabel(l: Label) {
    Single.CalmLabel(l) && !(l.Command? && l.op.SetPid?)
  }

  /** What a dispatcher's task has stored, unless the dispatcher has just failed. */
  function Stored(x: Dispatcher): Option<int> {
    match x.pc
    case SettingRunning => Some(x.pid)
    case FulfillingSpawn => Some(x.pid)
    case ProvidingRunning(_) => Some(x.pid)
    case Waiting(_) => Some(x.pid)
    case ClearingPid(_) => Some(x.pid)
    case SettingFailed => None
    case ClearingPidFailed => None
    case _ => Some(-1)
  }

  ghost predicate Agrees(t: Task, x: Dispatcher) {
    x.task == t.name ==> Single.Busy(t.state) && (Stored(x).Some? ==> t.pid == Stored(x).value)
  }

  ghost predicate Unmanned(disp: seq<Dispatcher>, name: string) {
    forall d :: 0 <= d < |disp| ==> disp[d].task != name
  }

  /** The task has no dispatcher and no PID, or one dispatcher that agrees with it. */
  ghost predicate Consistent(t: Task, disp: seq<Dispatcher>) {
    && (forall d :: 0 <= d < |disp| ==> Agrees(t, disp[d]))
    && (forall d, e :: 0 <= d < e < |disp| && disp[d].task == t.name ==> disp[e].task != t.name)
    && (Unmanned(disp, t.name) ==> t.pid == -1)
  }

  // ---- steps ----

  lemma PassConsistent(tasks: seq<Task>, disp: seq<Dispatcher>, failAt: nat, i: nat)
    requires UniqueNames(tasks) && i < |tasks| && RunsOnce(tasks[i]) && Consistent(tasks[i], disp)
    ensures Consistent(PassTask(tasks[i], i, PassEnd(tasks, failAt)),
                       disp + NewDispatchers(ReadyNames(tasks, PassEnd(tasks, failAt))))
  {
    var t, end := tasks[i], PassEnd(tasks, failAt);
    var names := ReadyNames(tasks, end);
    StartedDistinct(tasks, end);
    StartedExactly(tasks, end, t.name);
    if t.name in names {
      var k :| 0 <= k < end && IsReady(tasks[k]) && tasks[k].name == t.name;
      assert k == i;
      Joins(t, disp, names);
    } else {
      StaysAside(t, PassTask(t, i, end), disp, names);
    }
  }

  /** A ready task has no dispatcher, so the new one is its only one. */
  lemma Joins(t: Task, disp: seq<Dispatcher>, names: seq<string>)
    requires RunsOnce(t) && IsReady(t) && Consistent(t, disp) && t.name in names
    requires forall a, b :: 0 <= a < b < |names| ==> names[a] != names[b]
    ensures Consistent(t.(state := STARTING), disp + NewDispatchers(names))
  {
    forall d | 0 <= d < |disp| ensures disp[d].task != t.name {
      assert Agrees(t, disp[d]);
    }
    var a :| 0 <= a < |names| && names[a] == t.name;
    assert (disp + NewDispatchers(names))[|disp| + a].task == t.name;
  }

  lemma StaysAside(t: Task, t': Task, disp: seq<Dispatcher>, names: seq<string>)
    requires Consistent(t, disp) && t.name !in names
    requires t' == t || (IsReady(t) && RunsOnce(t) && t' == t.(state := t'.state))
    ensures Consistent(t', disp + NewDispatchers(names))
  {
    var disp' := disp + NewDispatchers(names);
    forall d | 0 <= d < |disp'| ensures Agrees(t', disp'[d]) {
      if d < |disp| {
        assert Agrees(t, disp[d]);
      }
    }
    if Unmanned(disp', t.name) {
      assert forall d :: 0 <= d < |disp| ==> disp'[d] == disp[d];
    }
  }

  lemma OwnAgrees(s: Sys, t: Task, x: Dispatcher, out: Outcome)
    requires Agrees(t, x) && x.task == t.name && RunsOnce(t) && DispatcherEnabled(s, x, out)
    requires !x.pc.Copying? ==> !x.copy.rearm
    ensures Agrees(Single.TouchIf(t, DispatcherOp(x)), DispatcherAfter(s, x, out))
  {
    OwnTask(t, x);
    StoredAfter(s, x, out);
  }

  /** What the dispatcher's step does to its task. */
  lemma OwnTask(t: Task, x: Dispatcher)
    requires x.task == t.name && Single.Busy(t.state) && RunsOnce(t) && (!x.pc.Copying? ==> !x.copy.rearm)
    ensures
      var t' := Single.TouchIf(t, DispatcherOp(x));
      && t'.name == t.name && Single.Busy(t'.state)
      && t'.pid == if x.pc.SettingPid? then x.pid
                   else if x.pc.ClearingPid? || x.pc.ClearingPidFailed? then -1 else t.pid
  {
  }

  /** What is stored is set, cleared or left by the steps that say so. */
  lemma StoredAfter(s: Sys, x: Dispatcher, out: Outcome)
    requires DispatcherEnabled(s, x, out)
    ensures
      var y := DispatcherAfter(s, x, out);
      && y.task == x.task
      && (Stored(y).Some? ==>
            if x.pc.SettingPid? then Stored(y).value == x.pid
            else if x.pc.ClearingPid? || x.pc.ClearingPidFailed? then Stored(y).value == -1
            else Stored(x) == Stored(y))
  {
  }

  lemma OtherAgrees(t: Task, x: Dispatcher)
    requires x.task != t.name
    ensures var t' := Single.TouchIf(t, DispatcherOp(x)); t'.pid == t.pid && t'.state == t.state && t'.name == t.name
  {
    Single.DispatcherAims(x);
  }

  lemma DispatchConsistent(s: Sys, t: Task, d: nat, out: Outcome)
    requires RunsOnce(t) && Consistent(t, s.disp) && d < |s.disp| && DispatcherEnabled(s, s.disp[d], out)
    requires s.disp[d].task == t.name && !s.disp[d].pc.Copying? ==> !s.disp[d].copy.rearm
    ensures Consistent(Single.TouchIf(t, DispatcherOp(s.disp[d])), s.disp[d := DispatcherAfter(s, s.disp[d], out)])
  {
    var x, y := s.disp[d], DispatcherAfter(s, s.disp[d], out);
    var t', disp' := Single.TouchIf(t, DispatcherOp(x)), s.disp[d := y];
    Single.OptionsStay(t, x);
    assert y.task == x.task;
    assert Agrees(t, x);
    if x.task == t.name {
      OwnAgrees(s, t, x, out);
    } else {
      OtherAgrees(t, x);
    }
    forall e | 0 <= e < |disp'| ensures Agrees(t', disp'[e]) {
      assert Agrees(t, s.disp[e]);
    }
    if Unmanned(disp', t.name) {
      forall e | 0 <= e < |s.disp| ensures s.disp[e].task != t.name {
        assert disp'[e].task != t.name;
      }
    }
  }

  lemma CommandConsistent(t: Task, op: DbOp, disp: seq<Dispatcher>)
    requires Consistent(t, disp) && !op.SetPid? && !op.Rearm? && !(op.Insert? && op.overwrite)
    requires op.SetState? ==> Single.Busy(op.state)
    ensures Consistent(Touch(t, op), disp)
  {
    var t' := Touch(t, op);
    assert t'.name == t.name && t'.pid == t.pid && (t'.state == t.state || Single.Busy(t'.state));
    forall d | 0 <= d < |disp| ensures Agrees(t', disp[d]) {
      assert Agrees(t, disp[d]);
    }
  }

  /** The dispatcher's copy agrees with its task. */
  lemma CopyOnce(tasks: seq<Task>, x: Dispatcher, i: nat)
    requires UniqueNames(tasks) && i < |tasks| && x.task == tasks[i].name && Single.Known(tasks, x)
    requires RunsOnce(tasks[i]) && !x.pc.Copying?
    ensures !x.copy.rearm
  {
    var k :| 0 <= k < |tasks| && tasks[k].name == x.task
      && (!x.pc.Copying? ==> x.copy.respawn == tasks[k].respawn && x.copy.rearm == tasks[k].rearm);
    assert k == i;
  }

  lemma StepConsistent(s: Sys, l: Label, i: nat)
    requires Single.Inv(s) && Enabled(s, l) && PlainLabel(l) && i < |s.db.tasks|
    requires RunsOnce(s.db.tasks[i]) && Consistent(s.db.tasks[i], s.disp)
    ensures Consistent(TaskAfter(s, l, i), DispAfter(s, l))
  {
    var t := s.db.tasks[i];
    match l
    case RunPass(failAt) =>
      if !s.db.spawnInhibit {
        PassConsistent(s.db.tasks, s.disp, failAt, i);
      } else {
        assert s.disp + NewDispatchers([]) == s.disp;
      }
    case Dispatch(d, out) =>
      assert Single.Known(s.db.tasks, s.disp[d]);
      if s.disp[d].task == t.name && !s.disp[d].pc.Copying? {
        CopyOnce(s.db.tasks, s.disp[d], i);
      }
      DispatchConsistent(s, t, d, out);
    case Command(op) => CommandConsistent(t, op, s.disp);
    case _ =>
  }

  /** Options do not change. */
  lemma OnceBefore(s: Sys, l: Label, i: nat)
    requires Enabled(s, l) && Single.CalmLabel(l) && i < |s.db.tasks|
    ensures RunsOnce(TaskAfter(s, l, i)) <==> RunsOnce(s.db.tasks[i])
  {
  }

  /** A task that was not there before has neither PID nor dispatcher. */
  lemma JustLoaded(s: Sys, l: Label, i: nat)
    requires Single.Inv(s) && Enabled(s, l) && Single.CalmLabel(l)
    requires |s.db.tasks| <= i < |Next(s, l).db.tasks|
    ensures Consistent(Next(s, l).db.tasks[i], Next(s, l).disp)
  {
    Single.NewIsAlone(s, l, i);
  }

  lemma {:induction false} RunConsistent(ss: seq<Sys>, ls: seq<Label>, i: nat, k: nat)
    requires IsRun(ss, ls) && Initial(ss[0]) && k <= |ls| && i < |ss[k].db.tasks| && RunsOnce(ss[k].db.tasks[i])
    requires forall j :: 0 <= j < |ls| ==> PlainLabel(ls[j])
    ensures Consistent(ss[k].db.tasks[i], ss[k].disp)
    decreases k
  {
    if k > 0 {
      var s, l := ss[k - 1], ls[k - 1];
      assert StepAt(ss, ls, k - 1);
      Single.RunKeeps(ss, ls, k - 1);
      if i < |s.db.tasks| {
        StepTask(s, l, i);
        StepDisp(s, l);
        OnceBefore(s, l, i);
        RunConsistent(ss, ls, i, k - 1);
        StepConsistent(s, l, i);
      } else {
        JustLoaded(s, l, i);
      }
    }
  }

  /**
   * In every calm run without reported main PIDs, a task that is neither respawned nor rearmed has
   * the process its dispatcher started and waits for as its stored PID, from the step after the one
   * that stores it to the one that clears it; and none before the first command, between commands
   * and when its dispatcher is about to reap.
   */
  lemma StoredPidIsRunning(ss: seq<Sys>, ls: seq<Label>, i: nat, d: nat, k: nat)
    requires IsRun(ss, ls) && Initial(ss[0]) && k <= |ls| && i < |ss[k].db.tasks| && d < |ss[k].disp|
    requires forall j :: 0 <= j < |ls| ==> PlainLabel(ls[j])
    requires RunsOnce(ss[k].db.tasks[i]) && ss[k].disp[d].task == ss[k].db.tasks[i].name
    ensures ss[k].disp[d].pc.Waiting? || ss[k].disp[d].pc.ProvidingRunning? ==>
              ss[k].db.tasks[i].pid == ss[k].disp[d].pid
    ensures ss[k].disp[d].pc.Spawning? || ss[k].disp[d].pc.Blocking? || ss[k].disp[d].pc.BlockingFailed? ==>
              ss[k].db.tasks[i].pid == -1
  {
    RunConsistent(ss, ls, i, k);
    assert Agrees(ss[k].db.tasks[i], ss[k].disp[d]);
  }
}
