/**
 * A task never has two start dispatchers at work at the same time.
 */
module SingleDispatcher {
  import opened Options
  import opened Tasks
  import opened TaskDB
  import opened Scheduler

  /** The dispatcher has recorded that its task is done or failed. */
  predicate Recorded(pc: Pc) {
    match pc
    case FulfillingDone => true
    case ProvidingDone(_) => true
    case ClearingPidFailed => true
    case BlockingFailed => true
    case ReapingFailed => true
    case FulfillingFailed => true
    case ProvidingFailed(_) => true
    case Exiting => true
    case Finished => true
    case _ => false
  }

  /** A start dispatcher of the named task that has not recorded a result. */
  predicate AtWork(x: Dispatcher, name: string) {
    x.task == name && x.mode.Start? && !Recorded(x.pc)
  }

  /** The task can be respawned and is rearmed; such tasks are outside the claim. */
  predicate Both(t: Task) {
    t.respawn && t.maxRetries >= -1 && t.rearm
  }

  predicate Active(s: TaskState) {
    s.starting || s.running
  }

  predicate Busy(s: TaskState) {
    s.starting || s.running || s.done || s.failed
  }

  /** The steps of runs without STOP, RESTART, NOTIFY STOPPING and overwriting inserts. */
  predicate CalmLabel(l: Label) {
    && (l.Begin? ==> l.kill)
    && (l.Command? && l.op.SetState? ==> l.op.state == RUNNING.(notified := true))
    && (l.Command? && l.op.Insert? ==> !l.op.overwrite)
  }

  /** The dispatcher still decides the task's state: until it records, or until it has rearmed the task. */
  predicate Holds(t: Task, x: Dispatcher) {
    x.task == t.name && if t.rearm then !x.pc.Finished? else !Recorded(x.pc)
  }

  /** The state a held task is in. */
  predicate HeldState(t: Task, x: Dispatcher) {
    if Recorded(x.pc) then Busy(t.state) else Active(t.state)
  }

  /** A dispatcher belongs to a known task and its copy agrees with it on the options. */
  ghost predicate Known(tasks: seq<Task>, x: Dispatcher) {
    && x.mode.Start?
    && (exists i :: 0 <= i < |tasks| && tasks[i].name == x.task
                    && (!x.pc.Copying? ==> x.copy.respawn == tasks[i].respawn && x.copy.rearm == tasks[i].rearm))
  }

  /** At most one holder per task, and a held task's state says so. */
  ghost predicate Single(t: Task, disp: seq<Dispatcher>) {
    && t.failCount >= 0
    && (!Both(t) ==>
          && (forall d :: 0 <= d < |disp| && Holds(t, disp[d]) ==> HeldState(t, disp[d]))
          && (forall d, e :: 0 <= d < e < |disp| && Holds(t, disp[d]) ==> !Holds(t, disp[e])))
  }

  ghost predicate Inv(s: Sys) {
    && UniqueNames(s.db.tasks)
    && NoStopPending(s.clients)
    && (forall d :: 0 <= d < |s.disp| ==> Known(s.db.tasks, s.disp[d]))
    && (forall i :: 0 <= i < |s.db.tasks| ==> Single(s.db.tasks[i], s.disp))
  }

  /** The operation keeps a task's name and options and does not take it out of a held state. */
  predicate Harmless(op: DbOp, t: Task) {
    match op
    case Insert(u, overwrite, _) => !(overwrite && u.name == t.name)
    case Rearm(n) => n != t.name
    case SetState(n, s) => n != t.name || s.running
    case _ => true
  }

  lemma HarmlessKeeps(t: Task, op: DbOp, disp: seq<Dispatcher>)
    requires Harmless(op, t) && Single(t, disp)
    ensures Single(Touch(t, op), disp)
    ensures Touch(t, op).name == t.name && Touch(t, op).respawn == t.respawn && Touch(t, op).rearm == t.rearm
  {
    var u := Touch(t, op);
    assert u.name == t.name && u.respawn == t.respawn && u.rearm == t.rearm;
    assert u.state == t.state || u.state.running;
    forall d | 0 <= d < |disp| && Holds(u, disp[d]) && !Both(u) ensures HeldState(u, disp[d]) {
      assert Holds(t, disp[d]);
    }
    forall d, e | 0 <= d < e < |disp| && Holds(u, disp[d]) && !Both(u) ensures !Holds(u, disp[e]) {
      assert Holds(t, disp[d]);
      assert !Holds(t, disp[e]);
    }
  }

  /** A ready task has no holder. */
  lemma ReadyIsFree(t: Task, disp: seq<Dispatcher>, d: nat)
    requires IsReady(t) && Single(t, disp) && !Both(t) && d < |disp|
    ensures !Holds(t, disp[d])
  {
  }

  /** Options do not change, so dispatchers stay known. */
  lemma KnownStays(tasks: seq<Task>, tasks': seq<Task>, x: Dispatcher)
    requires Known(tasks, x) && |tasks| <= |tasks'|
    requires forall i :: 0 <= i < |tasks| ==>
      tasks'[i].name == tasks[i].name && tasks'[i].respawn == tasks[i].respawn && tasks'[i].rearm == tasks[i].rearm
    ensures Known(tasks', x)
  {
    var i :| 0 <= i < |tasks| && tasks[i].name == x.task
       && (!x.pc.Copying? ==> x.copy.respawn == tasks[i].respawn && x.copy.rearm == tasks[i].rearm);
    assert tasks'[i].name == x.task;
  }

  // ---- a pass ----

  /** Dispatchers for other names do not matter to a task. */
  lemma OthersJoin(t: Task, disp: seq<Dispatcher>, names: seq<string>)
    requires Single(t, disp) && t.name !in names
    ensures Single(t, disp + NewDispatchers(names))
  {
    var disp' := disp + NewDispatchers(names);
    assert forall d :: 0 <= d < |disp'| && Holds(t, disp'[d]) ==> d < |disp| && disp'[d] == disp[d];
  }

  /** The first dispatcher of a ready task becomes its only holder. */
  lemma HolderJoins(t: Task, disp: seq<Dispatcher>, names: seq<string>)
    requires IsReady(t) && Single(t, disp)
    requires forall a, b :: 0 <= a < b < |names| ==> names[a] != names[b]
    ensures Single(t.(state := STARTING), disp + NewDispatchers(names))
    ensures t.name !in names ==> Single(t.(state := LOADED), disp + NewDispatchers(names))
  {
    var disp' := disp + NewDispatchers(names);
    if !Both(t) {
      forall d | 0 <= d < |disp'| && Holds(t, disp'[d])
        ensures d >= |disp| && names[d - |disp|] == t.name && disp'[d].pc == Copying
      {
        if d < |disp| {
          ReadyIsFree(t, disp, d);
        }
      }
      var t' := t.(state := STARTING);
      var t'' := t.(state := LOADED);
      assert forall d :: 0 <= d < |disp'| ==> Holds(t', disp'[d]) == Holds(t, disp'[d]) == Holds(t'', disp'[d]);
    }
  }

  lemma PassKeepsSingle(s: Sys, failAt: nat, i: nat)
    requires UniqueNames(s.db.tasks) && i < |s.db.tasks| && !s.db.spawnInhibit
    requires Single(s.db.tasks[i], s.disp)
    ensures Single(PassTask(s.db.tasks[i], i, PassEnd(s.db.tasks, failAt)),
                   s.disp + NewDispatchers(Pass(s.db, failAt).started))
  {
    var t := s.db.tasks[i];
    var end := PassEnd(s.db.tasks, failAt);
    var names := ReadyNames(s.db.tasks, end);
    StartedDistinct(s.db.tasks, end);
    StartedExactly(s.db.tasks, end, t.name);
    if t.name in names {
      var k :| 0 <= k < end && IsReady(s.db.tasks[k]) && s.db.tasks[k].name == t.name;
      assert k == i;
    }
    if IsReady(t) {
      HolderJoins(t, s.disp, names);
    } else {
      OthersJoin(t, s.disp, names);
    }
    if t.name !in names {
      OthersJoin(t, s.disp, names);
    }
  }

  lemma PassKnown(s: Sys, failAt: nat, d: nat)
    requires Inv(s) && s.main == AtPass && !s.db.spawnInhibit
    requires d < |Next(s, RunPass(failAt)).disp|
    ensures Known(Next(s, RunPass(failAt)).db.tasks, Next(s, RunPass(failAt)).disp[d])
  {
    var s' := Next(s, RunPass(failAt));
    PassNames(s.db, failAt);
    if d < |s.disp| {
      assert s'.disp[d] == s.disp[d];
      KnownStays(s.db.tasks, s'.db.tasks, s.disp[d]);
    } else {
      var i := StartedOwner(s.db.tasks, PassEnd(s.db.tasks, failAt), d - |s.disp|);
      assert s'.db.tasks[i].name == s'.disp[d].task;
    }
  }

  lemma PassKeeps(s: Sys, failAt: nat)
    requires Inv(s) && s.main == AtPass
    ensures Inv(Next(s, RunPass(failAt)))
  {
    var l := RunPass(failAt);
    var s' := Next(s, l);
    StepNames(s, l);
    StepDisp(s, l);
    if s.db.spawnInhibit {
      assert s'.disp == s.disp;
    } else {
      forall i | 0 <= i < |s'.db.tasks| ensures Single(s'.db.tasks[i], s'.disp) {
        StepTask(s, l, i);
        PassKeepsSingle(s, failAt, i);
      }
      forall d | 0 <= d < |s'.disp| ensures Known(s'.db.tasks, s'.disp[d]) {
        PassKnown(s, failAt, d);
      }
    }
  }

  // ---- a dispatcher step ----

  /** A task after an operation that may be missing. */
  function TouchIf(t: Task, op: Option<DbOp>): Task {
    if op.Some? then Touch(t, op.value) else t
  }

  /** The task keeps its name and options. */
  predicate SameOptions(t: Task, u: Task) {
    && u.name == t.name && u.respawn == t.respawn && u.rearm == t.rearm && u.maxRetries == t.maxRetries
    && (t.failCount >= 0 ==> u.failCount >= 0)
  }

  lemma OptionsKept(t: Task, op: DbOp)
    requires !op.Insert?
    ensures SameOptions(t, Touch(t, op))
  {
  }

  lemma DispatcherInsertsNot(x: Dispatcher)
    ensures DispatcherOp(x).Some? ==> !DispatcherOp(x).value.Insert?
  {
  }

  lemma OptionsStay(t: Task, x: Dispatcher)
    ensures SameOptions(t, TouchIf(t, DispatcherOp(x)))
  {
    DispatcherInsertsNot(x);
    if DispatcherOp(x).Some? {
      OptionsKept(t, DispatcherOp(x).value);
    }
  }

  /** The state an operation on the task leaves it in. */
  lemma StateAfter(t: Task, op: DbOp)
    requires !op.Insert?
    ensures Touch(t, op).state == if op.SetState? && op.name == t.name then op.state
                                  else if op == Rearm(t.name) then LOADED else t.state
  {
  }

  /** The count of failures an operation leaves the task with. */
  lemma CountAfter(t: Task, op: DbOp)
    requires !op.Insert?
    ensures Touch(t, op).failCount ==
            if op.SetState? && op.name == t.name then WithState(t, op.state).failCount else t.failCount
  {
  }

  /** A dispatcher sets the state of its own task and rearms no other one. */
  lemma DispatcherAims(x: Dispatcher)
    ensures DispatcherOp(x).Some? ==>
              var op := DispatcherOp(x).value;
              !op.Insert? && (op.SetState? || op.Rearm? ==> op.name == x.task)
  {
  }

  /** The task is not touched where scheduling looks. */
  predicate Untouched(t: Task, u: Task) {
    SameOptions(t, u) && u.state == t.state && u.failCount == t.failCount
  }

  /** An operation that neither sets the task's state nor rearms it. */
  lemma OpAside(t: Task, op: DbOp)
    requires !op.Insert? && (op.SetState? || op.Rearm? ==> op.name != t.name)
    ensures Untouched(t, Touch(t, op))
  {
    OptionsKept(t, op);
    StateAfter(t, op);
    CountAfter(t, op);
  }

  /** What a dispatcher's step does to its own task's state. */
  lemma OwnState(t: Task, x: Dispatcher)
    requires x.task == t.name && (!x.pc.Copying? ==> x.copy.rearm == t.rearm)
    ensures TouchIf(t, DispatcherOp(x)).state ==
            match x.pc
            case SettingRunning => RUNNING
            case SettingDone => DONE
            case SettingFailed => FAILED
            case Exiting => if t.rearm then LOADED else t.state
            case _ => t.state
  {
    DispatcherInsertsNot(x);
    if DispatcherOp(x).Some? {
      StateAfter(t, DispatcherOp(x).value);
    }
  }

  /** A step never makes a dispatcher a holder, and a holder leaves its task in a fitting state. */
  lemma OwnHolder(t: Task, x: Dispatcher, y: Dispatcher, out: Outcome)
    requires x.task == t.name == y.task && !x.pc.Finished? && (!x.pc.Copying? ==> x.copy.rearm == t.rearm)
    requires y.pc == NextPc(x.(copy := y.copy), out)
    requires Holds(t, x) ==> HeldState(t, x)
    ensures var t' := TouchIf(t, DispatcherOp(x));
            && (Holds(t', y) ==> Holds(t, x) && HeldState(t', y))
            && (!Holds(t, x) ==> t'.state == t.state)
  {
    OptionsStay(t, x);
    OwnState(t, x);
  }

  /** The dispatcher's own task after its step. */
  lemma DispatchKeepsOwn(t: Task, disp: seq<Dispatcher>, d: nat, y: Dispatcher, out: Outcome)
    requires d < |disp| && Single(t, disp)
    requires disp[d].task == t.name == y.task && !disp[d].pc.Finished?
    requires !disp[d].pc.Copying? ==> disp[d].copy.rearm == t.rearm
    requires y.pc == NextPc(disp[d].(copy := y.copy), out)
    ensures Single(TouchIf(t, DispatcherOp(disp[d])), disp[d := y])
  {
    var x := disp[d];
    var t' := TouchIf(t, DispatcherOp(x));
    OptionsStay(t, x);
    if !Both(t) {
      OwnHolder(t, x, y, out);
      OneHolderStays(t, t', disp, d, y);
    }
  }

  lemma OneHolderStays(t: Task, t': Task, disp: seq<Dispatcher>, d: nat, y: Dispatcher)
    requires d < |disp| && Single(t, disp) && !Both(t)
    requires SameOptions(t, t')
    requires Holds(t', y) ==> Holds(t, disp[d]) && HeldState(t', y)
    requires !Holds(t, disp[d]) ==> t'.state == t.state
    ensures Single(t', disp[d := y])
  {
    var disp' := disp[d := y];
    forall e | 0 <= e < |disp'| && Holds(t', disp'[e]) ensures HeldState(t', disp'[e]) {
      if e != d {
        assert Holds(t, disp[e]);
        assert !Holds(t, disp[d]);
      }
    }
    forall e, f | 0 <= e < f < |disp'| && Holds(t', disp'[e]) ensures !Holds(t', disp'[f]) {
      assert Holds(t, disp[e]);
    }
  }

  /** Another task after the dispatcher's step. */
  lemma DispatchKeepsOther(t: Task, disp: seq<Dispatcher>, d: nat, y: Dispatcher)
    requires d < |disp| && Single(t, disp) && disp[d].task != t.name && y.task == disp[d].task
    ensures Single(TouchIf(t, DispatcherOp(disp[d])), disp[d := y])
  {
    var op := DispatcherOp(disp[d]);
    if op.Some? {
      HarmlessKeeps(t, op.value, disp);
    }
    var t' := TouchIf(t, op);
    var disp' := disp[d := y];
    assert forall e :: 0 <= e < |disp| ==> Holds(t', disp'[e]) ==> Holds(t', disp[e]) && disp'[e] == disp[e];
  }

  lemma DispatchKeepsTask(s: Sys, d: nat, out: Outcome, i: nat)
    requires Inv(s) && Enabled(s, Dispatch(d, out)) && i < |s.db.tasks|
    ensures Single(TouchIf(s.db.tasks[i], DispatcherOp(s.disp[d])), s.disp[d := DispatcherAfter(s, s.disp[d], out)])
  {
    var x := s.disp[d];
    var y := DispatcherAfter(s, x, out);
    var t := s.db.tasks[i];
    assert Known(s.db.tasks, x);
    assert Single(t, s.disp);
    if x.task == t.name {
      var k :| 0 <= k < |s.db.tasks| && s.db.tasks[k].name == x.task
        && (!x.pc.Copying? ==> x.copy.respawn == s.db.tasks[k].respawn && x.copy.rearm == s.db.tasks[k].rearm);
      assert k == i;
      assert !x.pc.Copying? ==> x.(copy := y.copy) == x;
      DispatchKeepsOwn(t, s.disp, d, y, out);
    } else {
      DispatchKeepsOther(t, s.disp, d, y);
    }
  }

  lemma DispatchKeeps(s: Sys, d: nat, out: Outcome)
    requires Inv(s) && Enabled(s, Dispatch(d, out))
    ensures Inv(Next(s, Dispatch(d, out)))
  {
    var l := Dispatch(d, out);
    var s' := Next(s, l);
    var x := s.disp[d];
    var y := DispatcherAfter(s, x, out);
    StepNames(s, l);
    StepDisp(s, l);
    DispatchTasks(s, d, out);
    forall i | 0 <= i < |s'.db.tasks| ensures Single(s'.db.tasks[i], s'.disp) {
      StepTask(s, l, i);
      DispatchKeepsTask(s, d, out, i);
    }
    forall i | 0 <= i < |s.db.tasks|
      ensures s'.db.tasks[i].respawn == s.db.tasks[i].respawn && s'.db.tasks[i].rearm == s.db.tasks[i].rearm
    {
      StepTask(s, l, i);
      OptionsStay(s.db.tasks[i], x);
    }
    forall e | 0 <= e < |s'.disp| ensures Known(s'.db.tasks, s'.disp[e]) {
      assert Known(s.db.tasks, s.disp[e]);
      if e == d {
        CopyKnown(s, x, out);
        KnownStays(s.db.tasks, s'.db.tasks, y);
      } else {
        KnownStays(s.db.tasks, s'.db.tasks, s.disp[e]);
      }
    }
  }

  lemma DispatchTasks(s: Sys, d: nat, out: Outcome)
    requires Enabled(s, Dispatch(d, out))
    ensures |Next(s, Dispatch(d, out)).db.tasks| == |s.db.tasks|
    ensures Next(s, Dispatch(d, out)).clients == s.clients
  {
  }

  lemma CopyKnown(s: Sys, x: Dispatcher, out: Outcome)
    requires Known(s.db.tasks, x) && DispatcherEnabled(s, x, out)
    ensures Known(s.db.tasks, DispatcherAfter(s, x, out))
  {
    var y := DispatcherAfter(s, x, out);
    if x.pc.Copying? {
      var t := Named(s.db.tasks, x.task);
      var i :| 0 <= i < |s.db.tasks| && s.db.tasks[i] == t;
      assert y.copy == t;
    } else {
      var i :| 0 <= i < |s.db.tasks| && s.db.tasks[i].name == x.task
        && x.copy.respawn == s.db.tasks[i].respawn && x.copy.rearm == s.db.tasks[i].rearm;
      assert y.copy == x.copy;
    }
  }

  // ---- the other steps ----

  lemma OtherKeeps(s: Sys, l: Label)
    requires Inv(s) && Enabled(s, l) && CalmLabel(l) && !l.RunPass? && !l.Dispatch?
    ensures Inv(Next(s, l))
  {
    var s' := Next(s, l);
    StepNames(s, l);
    StepDisp(s, l);
    assert s'.disp == s.disp;
    forall i | 0 <= i < |s.db.tasks|
      ensures Single(s'.db.tasks[i], s.disp)
      ensures s'.db.tasks[i].respawn == s.db.tasks[i].respawn && s'.db.tasks[i].rearm == s.db.tasks[i].rearm
    {
      StepTask(s, l, i);
      assert Single(s.db.tasks[i], s.disp);
      if OpOf(s, l).Some? {
        HarmlessKeeps(s.db.tasks[i], OpOf(s, l).value, s.disp);
      }
    }
    forall i | |s.db.tasks| <= i < |s'.db.tasks| ensures Single(s'.db.tasks[i], s.disp) {
      forall d | 0 <= d < |s.disp| ensures s.disp[d].task != s'.db.tasks[i].name {
        assert Known(s.db.tasks, s.disp[d]);
        var k :| 0 <= k < |s.db.tasks| && s.db.tasks[k].name == s.disp[d].task;
        assert s'.db.tasks[k].name != s'.db.tasks[i].name;
      }
    }
    forall d | 0 <= d < |s.disp| ensures Known(s'.db.tasks, s.disp[d]) {
      KnownStays(s.db.tasks, s'.db.tasks, s.disp[d]);
    }
  }

  lemma StepKeeps(s: Sys, l: Label)
    requires Inv(s) && Enabled(s, l) && CalmLabel(l)
    ensures Inv(Next(s, l))
  {
    match l
    case RunPass(failAt) => PassKeeps(s, failAt);
    case Dispatch(d, out) => DispatchKeeps(s, d, out);
    case _ => OtherKeeps(s, l);
  }

  lemma {:induction false} RunKeeps(ss: seq<Sys>, ls: seq<Label>, k: nat)
    requires IsRun(ss, ls) && Initial(ss[0]) && k <= |ls|
    requires forall i :: 0 <= i < |ls| ==> CalmLabel(ls[i])
    ensures Inv(ss[k])
  {
    if k > 0 {
      RunKeeps(ss, ls, k - 1);
      assert StepAt(ss, ls, k - 1);
      StepKeeps(ss[k - 1], ls[k - 1]);
    }
  }

  /** A task that was not there before the step is fresh and has no dispatcher. */
  lemma NewIsAlone(s: Sys, l: Label, i: nat)
    requires Inv(s) && Enabled(s, l) && CalmLabel(l) && |s.db.tasks| <= i < |Next(s, l).db.tasks|
    ensures FreshTask(Next(s, l).db.tasks[i])
    ensures forall d :: 0 <= d < |Next(s, l).disp| ==> Next(s, l).disp[d].task != Next(s, l).db.tasks[i].name
  {
    StepTasks(s, l);
    StepDisp(s, l);
    StepNames(s, l);
    assert l.Command? && l.op.Insert?;
    var s' := Next(s, l);
    forall d | 0 <= d < |s.disp| ensures s.disp[d].task != s'.db.tasks[i].name {
      assert Known(s.db.tasks, s.disp[d]);
      var k :| 0 <= k < |s.db.tasks| && s.db.tasks[k].name == s.disp[d].task;
      assert s'.db.tasks[k].name != s'.db.tasks[i].name;
    }
  }

  /**
   * Single dispatcher: at every point of a calm run, a task that is not both respawning and
   * rearming has at most one start dispatcher at work, and none unless it is starting or running.
   */
  lemma SingleDispatcher(ss: seq<Sys>, ls: seq<Label>, k: nat, t: Task)
    requires IsRun(ss, ls) && Initial(ss[0]) && k <= |ls|
    requires forall i :: 0 <= i < |ls| ==> CalmLabel(ls[i])
    requires t in ss[k].db.tasks && !Both(t)
    ensures forall d, e :: 0 <= d < e < |ss[k].disp| && AtWork(ss[k].disp[d], t.name) ==>
              !AtWork(ss[k].disp[e], t.name)
    ensures forall d :: 0 <= d < |ss[k].disp| && AtWork(ss[k].disp[d], t.name) ==> Active(t.state)
  {
    RunKeeps(ss, ls, k);
    var s := ss[k];
    assert Single(t, s.disp);
    assert forall d :: 0 <= d < |s.disp| && AtWork(s.disp[d], t.name) ==> Holds(t, s.disp[d]);
  }
}
