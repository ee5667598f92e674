/**
 * Progress of the scheduling loop: a preloaded set of tasks with acyclic dependencies on the start
 * and the completion of tasks and on the features they provide runs to completion, unless a
 * broadcast falls between a pass and the wait that follows it.
 */
module Progress {
  import opened Options
  import opened Tasks
  import opened DepLists
  import opened TaskDB
  import opened Scheduler
  import Single = SingleDispatcher

  // ---- the runs considered ----

  /** Threads can be created, commands succeed, nobody interferes, no spurious wakeups. */
  predicate CleanLabel(s: Sys, l: Label) {
    match l
    case RunPass(failAt) => failAt >= |s.db.tasks|
    case MainWait => true
    case MainWake => true
    case Dispatch(_, out) => !out.Fail?
    case _ => false
  }

  /** The condition variable may also wake the main loop without cause. */
  predicate RunLabel(s: Sys, l: Label) {
    CleanLabel(s, l) || l.MainSpurious?
  }

  /** The step broadcasts `changed` while the main loop is between its pass and its wait. */
  predicate LosesWakeup(s: Sys, l: Label) {
    Enabled(s, l) && s.main == Gap && OpOf(s, l).Some? && Apply(s.db, OpOf(s, l).value).broadcast
  }

  /** A feature the task offers while it runs, or once it is done. */
  predicate Offers(t: Task, k: nat, feature: string)
    requires k < |t.prv|
  {
    t.prv[k].name == feature && (t.prv[k].stateReq == DONE || (t.prv[k].stateReq == RUNNING && t.cmds > 0))
  }

  /** A task that is run to its end announces this: completion, start of a first command, features. */
  predicate Announces(t: Task, d: Dep) {
    || d == Dep(t.name, EVENT_WAIT)
    || (d == Dep(t.name, EVENT_SPAWN) && t.cmds > 0)
    || (d.name == PROVIDED && exists k :: 0 <= k < |t.prv| && Offers(t, k, d.event))
  }

  /** The dependency is announced by a task of the set that comes earlier along `level`. */
  ghost predicate Sourced(tasks: seq<Task>, level: string -> nat, name: string, d: Dep) {
    exists j :: 0 <= j < |tasks| && Announces(tasks[j], d) && level(tasks[j].name) < level(name)
  }

  ghost predicate PlainTask(tasks: seq<Task>, level: string -> nat, t: Task) {
    && t.trig == [] && t.triggered && !t.respawn && !t.rearm
    && NoDuplicates(t.deps)
    && forall d :: d in t.deps ==> Sourced(tasks, level, t.name, d)
  }

  ghost predicate Loadable(s: Sys, level: string -> nat) {
    && Initial(s)
    && !s.db.spawnInhibit
    && forall i :: 0 <= i < |s.db.tasks| ==> PlainTask(s.db.tasks, level, s.db.tasks[i])
  }

  ghost predicate CleanRun(ss: seq<Sys>, ls: seq<Label>, level: string -> nat) {
    && IsRun(ss, ls) && Loadable(ss[0], level)
    && forall i :: 0 <= i < |ls| ==> RunLabel(ss[i], ls[i])
  }

  /** Nothing more can happen, unless the main loop wakes up without cause. */
  ghost predicate Stopped(s: Sys) {
    forall l :: CleanLabel(s, l) ==> !Enabled(s, l)
  }

  // ---- the invariant ----

  predicate FailPath(pc: Pc) {
    pc.SettingFailed? || pc.ClearingPidFailed? || pc.BlockingFailed? || pc.ReapingFailed?
    || pc.FulfillingFailed? || pc.ProvidingFailed?
  }

  /** Command and feature indices are in range. */
  predicate PcFits(pc: Pc, cmds: nat, prv: nat) {
    match pc
    case Spawning(i) => i < cmds
    case SettingPid(i) => i < cmds
    case SettingRunning => 0 < cmds
    case FulfillingSpawn => 0 < cmds
    case ProvidingRunning(k) => k < prv && 0 < cmds
    case Waiting(i) => i < cmds
    case ClearingPid(i) => i < cmds
    case Blocking(i) => i < cmds
    case Reaping(i) => i < cmds
    case ProvidingDone(k) => k < prv
    case _ => true
  }

  /** A dispatcher and the task it works on agree. */
  predicate Fits(t: Task, x: Dispatcher) {
    && x.task == t.name && x.mode.Start? && !FailPath(x.pc)
    && (!x.pc.Copying? ==> !x.copy.rearm && x.copy.cmds == t.cmds && x.copy.prv == t.prv)
    && PcFits(x.pc, t.cmds, |t.prv|)
    && (if Single.Recorded(x.pc) then t.state == DONE else t.state == STARTING || t.state == RUNNING)
  }

  /** The first command's start has been announced. */
  predicate PastSpawn(pc: Pc) {
    match pc
    case Copying => false
    case Spawning(i) => i > 0
    case SettingPid(i) => i > 0
    case SettingRunning => false
    case FulfillingSpawn => false
    case _ => true
  }

  /** Feature k has been announced while running. */
  predicate PastRunning(pc: Pc, k: nat) {
    PastSpawn(pc) && (pc.ProvidingRunning? ==> pc.k > k)
  }

  predicate PastWait(pc: Pc) {
    pc.ProvidingDone? || pc.Exiting? || pc.Finished?
  }

  /** Feature k has been announced once done. */
  predicate PastDone(pc: Pc, k: nat) {
    PastWait(pc) && (pc.ProvidingDone? ==> pc.k > k)
  }

  predicate GivenFeature(x: Dispatcher, k: nat, feature: string)
    requires k < |x.copy.prv|
  {
    x.copy.prv[k].name == feature &&
    if x.copy.prv[k].stateReq == DONE then PastDone(x.pc, k)
    else x.copy.prv[k].stateReq == RUNNING && x.copy.cmds > 0 && PastRunning(x.pc, k)
  }

  /** The dispatcher has announced this. */
  predicate Given(x: Dispatcher, d: Dep) {
    || (d == Dep(x.task, EVENT_WAIT) && PastWait(x.pc))
    || (d == Dep(x.task, EVENT_SPAWN) && x.copy.cmds > 0 && PastSpawn(x.pc))
    || (d.name == PROVIDED && exists k :: 0 <= k < |x.copy.prv| && GivenFeature(x, k, d.event))
  }

  ghost predicate OneEach(disp: seq<Dispatcher>) {
    forall d, e :: 0 <= d < e < |disp| ==> disp[d].task != disp[e].task
  }

  /** A task is merely loaded, or it has its dispatcher. */
  ghost predicate Manned(t: Task, disp: seq<Dispatcher>) {
    if t.state == LOADED then forall d :: 0 <= d < |disp| ==> disp[d].task != t.name
    else exists d :: 0 <= d < |disp| && Fits(t, disp[d])
  }

  /** Nobody waits any more for what has been announced. */
  ghost predicate Announced(tasks: seq<Task>, x: Dispatcher) {
    forall i, d :: 0 <= i < |tasks| && d in tasks[i].deps ==> !Given(x, d)
  }

  ghost predicate Owned(tasks: seq<Task>, x: Dispatcher) {
    exists i :: 0 <= i < |tasks| && tasks[i].name == x.task
  }

  ghost predicate Core(s: Sys, level: string -> nat) {
    && UniqueNames(s.db.tasks) && !s.db.spawnInhibit && !s.waitInhibit
    && OneEach(s.disp)
    && (forall i :: 0 <= i < |s.db.tasks| ==> PlainTask(s.db.tasks, level, s.db.tasks[i]))
    && (forall i :: 0 <= i < |s.db.tasks| ==> Manned(s.db.tasks[i], s.disp))
    && (forall d :: 0 <= d < |s.disp| ==> Owned(s.db.tasks, s.disp[d]) && Announced(s.db.tasks, s.disp[d]))
  }

  /** Whenever the main loop sleeps or is about to, no task is ready. */
  ghost predicate Awake(s: Sys) {
    s.main == Gap || s.main == Blocked(false) ==> forall i :: 0 <= i < |s.db.tasks| ==> !IsReady(s.db.tasks[i])
  }

  // ---- a pass ----

  /** What tasks announce is decided by parts of them that do not change. */
  ghost predicate SameSources(tasks: seq<Task>, tasks': seq<Task>) {
    |tasks| == |tasks'| && forall i :: 0 <= i < |tasks| ==> SameSource(tasks[i], tasks'[i])
  }

  predicate SameSource(t: Task, t': Task) {
    t'.name == t.name && t'.cmds == t.cmds && t'.prv == t.prv
  }

  lemma SourcedStays(tasks: seq<Task>, tasks': seq<Task>, level: string -> nat, name: string, d: Dep)
    requires SameSources(tasks, tasks') && Sourced(tasks, level, name, d)
    ensures Sourced(tasks', level, name, d)
  {
    var j :| 0 <= j < |tasks| && Announces(tasks[j], d) && level(tasks[j].name) < level(name);
    assert SameSource(tasks[j], tasks'[j]);
    AnnouncesStays(tasks[j], tasks'[j], d);
  }

  lemma AnnouncesStays(t: Task, t': Task, d: Dep)
    requires SameSource(t, t') && Announces(t, d)
    ensures Announces(t', d)
  {
    if d.name == PROVIDED && exists k :: 0 <= k < |t.prv| && Offers(t, k, d.event) {
      var k :| 0 <= k < |t.prv| && Offers(t, k, d.event);
      assert Offers(t', k, d.event);
    }
  }

  lemma PassSources(db: Db, failAt: nat)
    ensures SameSources(db.tasks, Pass(db, failAt).db.tasks)
  {
  }

  lemma PassPlain(s: Sys, failAt: nat, level: string -> nat, i: nat)
    requires Core(s, level) && s.main == AtPass && i < |s.db.tasks|
    ensures PlainTask(Pass(s.db, failAt).db.tasks, level, PassTask(s.db.tasks[i], i, PassEnd(s.db.tasks, failAt)))
  {
    var t := s.db.tasks[i];
    assert PlainTask(s.db.tasks, level, t);
    PassSources(s.db, failAt);
    forall d | d in t.deps ensures Sourced(Pass(s.db, failAt).db.tasks, level, t.name, d) {
      SourcedStays(s.db.tasks, Pass(s.db, failAt).db.tasks, level, t.name, d);
    }
  }

  lemma StaysManned(t: Task, disp: seq<Dispatcher>, more: seq<Dispatcher>)
    requires t.state != LOADED && Manned(t, disp)
    ensures Manned(t, disp + more)
  {
    var d :| 0 <= d < |disp| && Fits(t, disp[d]);
    assert Fits(t, (disp + more)[d]);
  }

  lemma StaysUnmanned(t: Task, disp: seq<Dispatcher>, names: seq<string>)
    requires t.state == LOADED && Manned(t, disp) && t.name !in names
    ensures Manned(t, disp + NewDispatchers(names))
  {
  }

  lemma GetsManned(t: Task, disp: seq<Dispatcher>, names: seq<string>)
    requires t.name in names
    ensures Manned(t.(state := STARTING), disp + NewDispatchers(names))
  {
    var a :| 0 <= a < |names| && names[a] == t.name;
    assert Fits(t.(state := STARTING), (disp + NewDispatchers(names))[|disp| + a]);
  }

  /** A ready task gets its one dispatcher; every other task keeps what it had. */
  lemma PassManned(tasks: seq<Task>, disp: seq<Dispatcher>, i: nat)
    requires UniqueNames(tasks) && i < |tasks| && !tasks[i].respawn && Manned(tasks[i], disp)
    ensures Manned(PassTask(tasks[i], i, |tasks|), disp + NewDispatchers(ReadyNames(tasks, |tasks|)))
  {
    var t := tasks[i];
    var names := ReadyNames(tasks, |tasks|);
    StartedExactly(tasks, |tasks|, t.name);
    if IsReady(t) {
      GetsManned(t, disp, names);
    } else if t.state == LOADED {
      assert forall k :: 0 <= k < |tasks| && tasks[k].name == t.name ==> k == i;
      StaysUnmanned(t, disp, names);
    } else {
      StaysManned(t, disp, NewDispatchers(names));
    }
  }

  /** A ready task of the set has no dispatcher yet. */
  lemma ReadyIsLoaded(s: Sys, level: string -> nat, i: nat, d: nat)
    requires Core(s, level) && i < |s.db.tasks| && IsReady(s.db.tasks[i]) && d < |s.disp|
    ensures s.db.tasks[i].state == LOADED && s.disp[d].task != s.db.tasks[i].name
  {
    assert PlainTask(s.db.tasks, level, s.db.tasks[i]);
    assert Manned(s.db.tasks[i], s.disp);
  }

  lemma PassDisp(s: Sys, failAt: nat, level: string -> nat)
    requires Core(s, level) && s.main == AtPass && failAt >= |s.db.tasks|
    ensures var disp' := s.disp + NewDispatchers(Pass(s.db, failAt).started);
            && OneEach(disp')
            && forall d :: |s.disp| <= d < |disp'| ==> Owned(s.db.tasks, disp'[d]) && disp'[d].pc == Copying
  {
    var n := |s.db.tasks|;
    var names := ReadyNames(s.db.tasks, n);
    var disp' := s.disp + NewDispatchers(names);
    StartedDistinct(s.db.tasks, n);
    forall d | |s.disp| <= d < |disp'|
      ensures Owned(s.db.tasks, disp'[d])
      ensures forall e :: 0 <= e < |s.disp| ==> s.disp[e].task != disp'[d].task
    {
      var i := StartedOwner(s.db.tasks, n, d - |s.disp|);
      assert s.db.tasks[i].name == disp'[d].task;
      forall e | 0 <= e < |s.disp| ensures s.disp[e].task != disp'[d].task {
        ReadyIsLoaded(s, level, i, e);
      }
    }
    forall d, e | 0 <= d < e < |disp'| ensures disp'[d].task != disp'[e].task {
      if d >= |s.disp| {
        assert names[d - |s.disp|] != names[e - |s.disp|];
      }
    }
  }

  lemma PassTaskKeeps(s: Sys, failAt: nat, level: string -> nat, i: nat)
    requires Core(s, level) && s.main == AtPass && failAt >= |s.db.tasks| && i < |s.db.tasks|
    ensures var s' := Next(s, RunPass(failAt));
            && |s'.db.tasks| == |s.db.tasks| && s'.db.tasks[i].deps == s.db.tasks[i].deps
            && PlainTask(s'.db.tasks, level, s'.db.tasks[i]) && Manned(s'.db.tasks[i], s'.disp)
            && !IsReady(s'.db.tasks[i])
  {
    StepTask(s, RunPass(failAt), i);
    PassPlain(s, failAt, level, i);
    assert PlainTask(s.db.tasks, level, s.db.tasks[i]);
    PassManned(s.db.tasks, s.disp, i);
    PassLeavesNoneReady(s.db, failAt, i);
  }

  lemma PassOwnerKeeps(tasks: seq<Task>, tasks': seq<Task>, x: Dispatcher)
    requires |tasks| == |tasks'|
    requires forall i :: 0 <= i < |tasks| ==> tasks'[i].name == tasks[i].name && tasks'[i].deps == tasks[i].deps
    requires Owned(tasks, x) && Announced(tasks, x)
    ensures Owned(tasks', x) && Announced(tasks', x)
  {
    var i :| 0 <= i < |tasks| && tasks[i].name == x.task;
    assert tasks'[i].name == x.task;
  }

  lemma PassDispKeeps(s: Sys, tasks': seq<Task>, disp': seq<Dispatcher>, level: string -> nat)
    requires Core(s, level) && |tasks'| == |s.db.tasks|
    requires forall i :: 0 <= i < |tasks'| ==>
               tasks'[i].name == s.db.tasks[i].name && tasks'[i].deps == s.db.tasks[i].deps
    requires s.disp <= disp'
    requires forall d :: |s.disp| <= d < |disp'| ==>
               Owned(s.db.tasks, disp'[d]) && disp'[d].pc == Copying && disp'[d].copy.prv == []
    ensures forall d :: 0 <= d < |disp'| ==> Owned(tasks', disp'[d]) && Announced(tasks', disp'[d])
  {
    forall d | 0 <= d < |disp'| ensures Owned(tasks', disp'[d]) && Announced(tasks', disp'[d]) {
      if d < |s.disp| {
        assert disp'[d] == s.disp[d] && Owned(s.db.tasks, s.disp[d]) && Announced(s.db.tasks, s.disp[d]);
      }
      PassOwnerKeeps(s.db.tasks, tasks', disp'[d]);
    }
  }

  lemma PassKeeps(s: Sys, failAt: nat, level: string -> nat)
    requires Core(s, level) && s.main == AtPass && failAt >= |s.db.tasks|
    ensures Core(Next(s, RunPass(failAt)), level) && Awake(Next(s, RunPass(failAt)))
  {
    var l := RunPass(failAt);
    var s' := Next(s, l);
    StepNames(s, l);
    PassNames(s.db, failAt);
    PassDisp(s, failAt, level);
    forall i | 0 <= i < |s'.db.tasks|
      ensures s'.db.tasks[i].deps == s.db.tasks[i].deps
      ensures PlainTask(s'.db.tasks, level, s'.db.tasks[i]) && Manned(s'.db.tasks[i], s'.disp)
      ensures !IsReady(s'.db.tasks[i])
    {
      PassTaskKeeps(s, failAt, level, i);
    }
    PassDispKeeps(s, s'.db.tasks, s'.disp, level);
  }

  // ---- a dispatcher step ----

  /** The operations of a dispatcher on the way to success. */
  predicate GoodOp(op: DbOp) {
    match op
    case SetState(_, s) => s == RUNNING || s == DONE
    case SetPid(_, _) => true
    case Fulfil(_, target) => target.None?
    case _ => false
  }

  lemma DispatcherGoodOp(t: Task, x: Dispatcher)
    requires Fits(t, x) && DispatcherOp(x).Some?
    ensures GoodOp(DispatcherOp(x).value)
  {
  }

  /** Such operations keep a task plain. */
  lemma GoodKeepsPlain(tasks: seq<Task>, tasks': seq<Task>, level: string -> nat, t: Task, op: DbOp)
    requires GoodOp(op) && PlainTask(tasks, level, t) && SameSources(tasks, tasks')
    ensures PlainTask(tasks', level, Touch(t, op))
  {
    var t' := Touch(t, op);
    if op.Fulfil? {
      RemovalOnSets(t.deps, op.dep);
    }
    assert forall d :: d in t'.deps ==> d in t.deps;
    forall d | d in t'.deps ensures Sourced(tasks', level, t'.name, d) {
      SourcedStays(tasks, tasks', level, t.name, d);
    }
  }

  /** Dependencies never come back. */
  lemma GoodShrinks(t: Task, op: DbOp, d: Dep)
    requires GoodOp(op) && NoDuplicates(t.deps) && d !in t.deps
    ensures d !in Touch(t, op).deps
  {
    if op.Fulfil? {
      RemovalOnSets(t.deps, op.dep);
    }
  }

  /** The announcement removes every waiting dependency. */
  lemma AnnouncementRemoves(t: Task, d: Dep)
    requires NoDuplicates(t.deps)
    ensures d !in Touch(t, Fulfil(d, None)).deps
  {
    RemovalOnSets(t.deps, d);
  }

  lemma GoodTouch(t: Task, op: DbOp)
    requires GoodOp(op)
    ensures var t' := Touch(t, op);
            && t'.name == t.name && t'.cmds == t.cmds && t'.prv == t.prv
            && t'.state == if op.SetState? && op.name == t.name then op.state else t.state
  {
  }

  lemma OwnState(t: Task, x: Dispatcher)
    requires Fits(t, x)
    ensures x.pc.SettingRunning? ==> DispatcherOp(x) == Some(SetState(t.name, RUNNING))
    ensures x.pc.SettingDone? ==> DispatcherOp(x) == Some(SetState(t.name, DONE))
    ensures !x.pc.SettingRunning? && !x.pc.SettingDone? && DispatcherOp(x).Some? ==>
              !DispatcherOp(x).value.SetState?
  {
  }

  /** What a dispatcher's step leaves of its own task. */
  lemma OwnTask(t: Task, x: Dispatcher)
    requires Fits(t, x)
    ensures var t' := Single.TouchIf(t, DispatcherOp(x));
            && t'.name == t.name && t'.cmds == t.cmds && t'.prv == t.prv
            && t'.state == if x.pc.SettingRunning? then RUNNING else if x.pc.SettingDone? then DONE else t.state
  {
    OwnState(t, x);
    if DispatcherOp(x).Some? {
      DispatcherGoodOp(t, x);
      GoodTouch(t, DispatcherOp(x).value);
    }
  }

  /** Where the dispatcher's step leads. */
  lemma OwnPc(x: Dispatcher, out: Outcome, cmds: nat, prv: nat)
    requires !FailPath(x.pc) && !out.Fail? && !x.pc.Finished?
    requires Commands(x) == cmds && |x.copy.prv| == prv && PcFits(x.pc, cmds, prv)
    ensures !FailPath(NextPc(x, out)) && PcFits(NextPc(x, out), cmds, prv) && !NextPc(x, out).Copying?
    ensures Single.Recorded(NextPc(x, out)) <==> Single.Recorded(x.pc) || x.pc.SettingDone?
  {
  }

  /** The dispatcher and its own task still agree after the step. */
  lemma OwnFits(s: Sys, t: Task, x: Dispatcher, out: Outcome)
    requires Fits(t, x) && DispatcherEnabled(s, x, out) && !out.Fail? && !t.rearm
    requires x.pc.Copying? ==> Named(s.db.tasks, x.task) == t
    ensures Fits(Single.TouchIf(t, DispatcherOp(x)), DispatcherAfter(s, x, out))
  {
    OwnTask(t, x);
    var z := if x.pc.Copying? then x.(copy := t) else x;
    OwnPc(z, out, t.cmds, |t.prv|);
    assert DispatcherAfter(s, x, out).pc == NextPc(z, out);
  }

  /** Other dispatchers keep agreeing with their tasks. */
  lemma OtherFits(t: Task, x: Dispatcher, y: Dispatcher)
    requires Fits(t, y) && x.task != t.name && (DispatcherOp(x).Some? ==> GoodOp(DispatcherOp(x).value))
    ensures Fits(Single.TouchIf(t, DispatcherOp(x)), y)
  {
  }

  /** A good operation of one task's dispatcher leaves another task's state alone. */
  lemma OtherState(t: Task, x: Dispatcher)
    requires x.task != t.name && (DispatcherOp(x).Some? ==> GoodOp(DispatcherOp(x).value))
    ensures Single.TouchIf(t, DispatcherOp(x)).state == t.state && Single.TouchIf(t, DispatcherOp(x)).name == t.name
  {
  }

  lemma OwnerOf(s: Sys, level: string -> nat, d: nat) returns (i: nat)
    requires Core(s, level) && d < |s.disp|
    ensures i < |s.db.tasks| && Fits(s.db.tasks[i], s.disp[d]) && s.db.tasks[i].state != LOADED
  {
    assert Owned(s.db.tasks, s.disp[d]);
    i :| 0 <= i < |s.db.tasks| && s.db.tasks[i].name == s.disp[d].task;
    assert Manned(s.db.tasks[i], s.disp);
    var e :| 0 <= e < |s.disp| && Fits(s.db.tasks[i], s.disp[e]);
    assert e == d;
  }

  lemma OtherManned(t: Task, disp: seq<Dispatcher>, d: nat, y: Dispatcher)
    requires d < |disp| && disp[d].task != t.name && y.task == disp[d].task && Manned(t, disp)
    requires DispatcherOp(disp[d]).Some? ==> GoodOp(DispatcherOp(disp[d]).value)
    ensures Manned(Single.TouchIf(t, DispatcherOp(disp[d])), disp[d := y])
  {
    var x, disp' := disp[d], disp[d := y];
    OtherState(t, x);
    if t.state != LOADED {
      var e :| 0 <= e < |disp| && Fits(t, disp[e]);
      OtherFits(t, x, disp[e]);
      assert Fits(Single.TouchIf(t, DispatcherOp(x)), disp'[e]);
    }
  }

  lemma DispatchManned(s: Sys, d: nat, out: Outcome, level: string -> nat, i: nat)
    requires Core(s, level) && Enabled(s, Dispatch(d, out)) && !out.Fail? && i < |s.db.tasks|
    ensures Manned(Single.TouchIf(s.db.tasks[i], DispatcherOp(s.disp[d])),
                   s.disp[d := DispatcherAfter(s, s.disp[d], out)])
  {
    var x, y := s.disp[d], DispatcherAfter(s, s.disp[d], out);
    var t := s.db.tasks[i];
    var o := OwnerOf(s, level, d);
    if DispatcherOp(x).Some? {
      DispatcherGoodOp(s.db.tasks[o], x);
    }
    assert Manned(t, s.disp);
    if o == i {
      assert PlainTask(s.db.tasks, level, t);
      OwnFits(s, t, x, out);
      assert Fits(Single.TouchIf(t, DispatcherOp(x)), s.disp[d := y][d]);
    } else {
      assert x.task != t.name;
      OtherManned(t, s.disp, d, y);
    }
  }

  /** What a step of a dispatcher on the way to success announces is its event. */
  lemma GivenStep(x: Dispatcher, out: Outcome, d: Dep)
    requires !FailPath(x.pc) && !x.pc.Copying? && !x.pc.Finished? && !out.Fail?
    requires PcFits(x.pc, Commands(x), |x.copy.prv|) && x.mode.Start? && (out.Spawned? ==> x.pc.Spawning?)
    requires Given(x.(pc := NextPc(x, out)), d)
    ensures Given(x, d) || DispatcherOp(x) == Some(Fulfil(d, None))
  {
    var y := x.(pc := NextPc(x, out));
    if d.name == PROVIDED && exists k :: 0 <= k < |y.copy.prv| && GivenFeature(y, k, d.event) {
      var k :| 0 <= k < |y.copy.prv| && GivenFeature(y, k, d.event);
      FeatureStep(x, out, k, d.event);
    }
  }

  lemma FeatureStep(x: Dispatcher, out: Outcome, k: nat, feature: string)
    requires !FailPath(x.pc) && !x.pc.Copying? && !x.pc.Finished? && !out.Fail?
    requires PcFits(x.pc, Commands(x), |x.copy.prv|) && x.mode.Start? && (out.Spawned? ==> x.pc.Spawning?)
    requires k < |x.copy.prv| && GivenFeature(x.(pc := NextPc(x, out)), k, feature)
    ensures GivenFeature(x, k, feature) || DispatcherOp(x) == Some(Fulfil(Dep(PROVIDED, feature), None))
  {
  }

  /** A dispatcher that has just read its task has announced nothing. */
  lemma NothingGiven(x: Dispatcher, d: Dep)
    requires x.pc == FirstCommand(x) && x.mode.Start?
    ensures !Given(x, d)
  {
  }

  /** Nobody waits for what has been announced, whatever a dispatcher does. */
  lemma StaysAnnounced(t: Task, op: Option<DbOp>, d: Dep)
    requires NoDuplicates(t.deps) && (op.Some? ==> GoodOp(op.value))
    requires d !in t.deps || op == Some(Fulfil(d, None))
    ensures d !in Single.TouchIf(t, op).deps
  {
    if op == Some(Fulfil(d, None)) {
      AnnouncementRemoves(t, d);
    } else if op.Some? {
      GoodShrinks(t, op.value, d);
    }
  }

  /** The dispatcher's own step. */
  lemma GivenAfter(s: Sys, t: Task, x: Dispatcher, out: Outcome, d: Dep)
    requires Fits(t, x) && DispatcherEnabled(s, x, out) && !out.Fail? && Given(DispatcherAfter(s, x, out), d)
    ensures Given(x, d) || DispatcherOp(x) == Some(Fulfil(d, None))
  {
    if x.pc.Copying? {
      NothingGiven(DispatcherAfter(s, x, out), d);
    } else {
      SpawnGivesNothing(x, out, d);
      GivenStep(x, out, d);
    }
  }

  /** What has been announced does not depend on the process number. */
  lemma SpawnGivesNothing(x: Dispatcher, out: Outcome, d: Dep)
    requires Given(x.(pc := NextPc(x, out), pid := if out.Spawned? then out.pid else x.pid), d)
    ensures Given(x.(pc := NextPc(x, out)), d)
  {
    var y, z := x.(pc := NextPc(x, out)), x.(pc := NextPc(x, out), pid := if out.Spawned? then out.pid else x.pid);
    if d.name == PROVIDED && exists k :: 0 <= k < |z.copy.prv| && GivenFeature(z, k, d.event) {
      var k :| 0 <= k < |z.copy.prv| && GivenFeature(z, k, d.event);
      assert GivenFeature(y, k, d.event);
    }
  }

  lemma DispatchAnnounced(s: Sys, d: nat, out: Outcome, level: string -> nat, e: nat, i: nat, dep: Dep)
    requires Core(s, level) && Enabled(s, Dispatch(d, out)) && !out.Fail? && e < |s.disp| && i < |s.db.tasks|
    requires DispatcherOp(s.disp[d]).Some? ==> GoodOp(DispatcherOp(s.disp[d]).value)
    requires Given(s.disp[d := DispatcherAfter(s, s.disp[d], out)][e], dep)
    ensures dep !in Single.TouchIf(s.db.tasks[i], DispatcherOp(s.disp[d])).deps
  {
    var x := s.disp[d];
    assert PlainTask(s.db.tasks, level, s.db.tasks[i]);
    assert Announced(s.db.tasks, s.disp[e]);
    if e == d {
      var o := OwnerOf(s, level, d);
      GivenAfter(s, s.db.tasks[o], x, out, dep);
    }
    StaysAnnounced(s.db.tasks[i], DispatcherOp(x), dep);
  }

  lemma DispatchTaskKeeps(s: Sys, d: nat, out: Outcome, level: string -> nat, i: nat)
    requires Core(s, level) && Enabled(s, Dispatch(d, out)) && !out.Fail? && i < |s.db.tasks|
    requires DispatcherOp(s.disp[d]).Some? ==> GoodOp(DispatcherOp(s.disp[d]).value)
    requires SameSources(s.db.tasks, Next(s, Dispatch(d, out)).db.tasks)
    ensures var s' := Next(s, Dispatch(d, out));
            && s'.db.tasks[i] == Single.TouchIf(s.db.tasks[i], DispatcherOp(s.disp[d]))
            && PlainTask(s'.db.tasks, level, s'.db.tasks[i])
  {
    var s' := Next(s, Dispatch(d, out));
    var op := DispatcherOp(s.disp[d]);
    StepTask(s, Dispatch(d, out), i);
    assert PlainTask(s.db.tasks, level, s.db.tasks[i]);
    if op.Some? {
      GoodKeepsPlain(s.db.tasks, s'.db.tasks, level, s.db.tasks[i], op.value);
    } else {
      SamePlain(s.db.tasks, s'.db.tasks, level, s.db.tasks[i]);
    }
  }

  lemma DispatchSources(s: Sys, d: nat, out: Outcome)
    requires Enabled(s, Dispatch(d, out)) && (DispatcherOp(s.disp[d]).Some? ==> GoodOp(DispatcherOp(s.disp[d]).value))
    ensures SameSources(s.db.tasks, Next(s, Dispatch(d, out)).db.tasks)
  {
    var l := Dispatch(d, out);
    DispatchFrame(s, d, out);
    forall i | 0 <= i < |s.db.tasks| ensures SameSource(s.db.tasks[i], Next(s, l).db.tasks[i]) {
      StepTask(s, l, i);
      if DispatcherOp(s.disp[d]).Some? {
        GoodTouch(s.db.tasks[i], DispatcherOp(s.disp[d]).value);
      }
    }
  }

  lemma StaysOwned(tasks: seq<Task>, tasks': seq<Task>, x: Dispatcher, y: Dispatcher)
    requires Owned(tasks, x) && KeepsNames(tasks, tasks') && y.task == x.task
    ensures Owned(tasks', y)
  {
    var k :| 0 <= k < |tasks| && tasks[k].name == x.task;
    assert tasks'[k].name == y.task;
  }

  lemma DispatchKeeps(s: Sys, d: nat, out: Outcome, level: string -> nat)
    requires Core(s, level) && Enabled(s, Dispatch(d, out)) && !out.Fail?
    ensures Core(Next(s, Dispatch(d, out)), level)
  {
    var l := Dispatch(d, out);
    var s' := Next(s, l);
    var o := OwnerOf(s, level, d);
    if DispatcherOp(s.disp[d]).Some? {
      DispatcherGoodOp(s.db.tasks[o], s.disp[d]);
    }
    StepNames(s, l);
    StepDisp(s, l);
    DispatchFrame(s, d, out);
    DispatchSources(s, d, out);
    forall i | 0 <= i < |s'.db.tasks|
      ensures s'.db.tasks[i] == Single.TouchIf(s.db.tasks[i], DispatcherOp(s.disp[d]))
      ensures PlainTask(s'.db.tasks, level, s'.db.tasks[i]) && Manned(s'.db.tasks[i], s'.disp)
    {
      DispatchTaskKeeps(s, d, out, level, i);
      DispatchManned(s, d, out, level, i);
    }
    forall e | 0 <= e < |s'.disp| ensures Owned(s'.db.tasks, s'.disp[e]) && Announced(s'.db.tasks, s'.disp[e]) {
      StaysOwned(s.db.tasks, s'.db.tasks, s.disp[e], s'.disp[e]);
      forall i, dep | 0 <= i < |s'.db.tasks| && dep in s'.db.tasks[i].deps ensures !Given(s'.disp[e], dep) {
        if Given(s'.disp[e], dep) {
          DispatchAnnounced(s, d, out, level, e, i, dep);
        }
      }
    }
  }

  lemma SamePlain(tasks: seq<Task>, tasks': seq<Task>, level: string -> nat, t: Task)
    requires PlainTask(tasks, level, t) && SameSources(tasks, tasks')
    ensures PlainTask(tasks', level, t)
  {
    forall d | d in t.deps ensures Sourced(tasks', level, t.name, d) {
      SourcedStays(tasks, tasks', level, t.name, d);
    }
  }

  lemma DispatchFrame(s: Sys, d: nat, out: Outcome)
    requires Enabled(s, Dispatch(d, out)) && (DispatcherOp(s.disp[d]).Some? ==> !DispatcherOp(s.disp[d]).value.Insert?)
    ensures var s' := Next(s, Dispatch(d, out));
            && |s'.db.tasks| == |s.db.tasks| && s'.waitInhibit == s.waitInhibit
            && (s'.db.spawnInhibit == s.db.spawnInhibit)
            && (OneEach(s.disp) ==> OneEach(s'.disp))
  {
    StepDisp(s, Dispatch(d, out));
  }

  /** A good operation that does not broadcast makes no task ready. */
  lemma QuietMakesNoneReady(db: Db, op: DbOp, i: nat)
    requires GoodOp(op) && !Apply(db, op).broadcast && (op.SetState? ==> Has(db.tasks, op.name))
    requires i < |Apply(db, op).db.tasks| && IsReady(Apply(db, op).db.tasks[i])
    ensures i < |db.tasks| && IsReady(db.tasks[i])
  {
    if i < |db.tasks| {
      ApplyTask(db, op, i);
    }
  }

  /** A step that makes a task ready wakes the main loop, unless the wakeup is lost. */
  lemma DispatchAwake(s: Sys, d: nat, out: Outcome, level: string -> nat)
    requires Core(s, level) && Awake(s) && Enabled(s, Dispatch(d, out)) && !out.Fail?
    requires !LosesWakeup(s, Dispatch(d, out))
    ensures Awake(Next(s, Dispatch(d, out)))
  {
    var l := Dispatch(d, out);
    var s' := Next(s, l);
    var x := s.disp[d];
    var o := OwnerOf(s, level, d);
    StepTasks(s, l);
    if DispatcherOp(x).Some? {
      var op := DispatcherOp(x).value;
      DispatcherGoodOp(s.db.tasks[o], x);
      Single.DispatcherAims(x);
      assert Has(s.db.tasks, s.db.tasks[o].name);
      if !Apply(s.db, op).broadcast {
        forall i | 0 <= i < |s'.db.tasks| && IsReady(s'.db.tasks[i])
          ensures i < |s.db.tasks| && IsReady(s.db.tasks[i])
        {
          QuietMakesNoneReady(s.db, op, i);
        }
      }
    }
  }

  // ---- whole runs ----

  lemma StepKeeps(s: Sys, l: Label, level: string -> nat)
    requires Core(s, level) && Enabled(s, l) && RunLabel(s, l)
    ensures Core(Next(s, l), level)
    ensures Awake(s) && !LosesWakeup(s, l) ==> Awake(Next(s, l))
  {
    match l
    case RunPass(failAt) => PassKeeps(s, failAt, level);
    case Dispatch(d, out) =>
      DispatchKeeps(s, d, out, level);
      if Awake(s) && !LosesWakeup(s, l) {
        DispatchAwake(s, d, out, level);
      }
    case _ =>
  }

  lemma {:induction false} RunKeeps(ss: seq<Sys>, ls: seq<Label>, level: string -> nat, k: nat)
    requires CleanRun(ss, ls, level) && k <= |ls|
    ensures Core(ss[k], level)
    ensures (forall i :: 0 <= i < k ==> !LosesWakeup(ss[i], ls[i])) ==> Awake(ss[k])
  {
    if k == 0 {
      InitialCore(ss[0], level);
    } else {
      RunKeeps(ss, ls, level, k - 1);
      assert StepAt(ss, ls, k - 1);
      StepKeeps(ss[k - 1], ls[k - 1], level);
    }
  }

  lemma InitialCore(s: Sys, level: string -> nat)
    requires Loadable(s, level)
    ensures Core(s, level) && Awake(s)
  {
  }

  // ---- the end ----

  /** A process number that is free. */
  lemma FreshPid(procs: map<int, Proc>) returns (p: int)
    ensures p > 0 && p !in procs
  {
    p := Above(procs.Keys);
  }

  lemma Above(keys: set<int>) returns (p: int)
    ensures p > 0 && forall k :: k in keys ==> k < p
  {
    if k :| k in keys {
      var q := Above(keys - {k});
      p := if k < q then q else k + 1;
      assert forall j :: j in keys ==> j == k || j in keys - {k};
    } else {
      p := 1;
    }
  }

  /** A dispatcher that is not finished can go on. */
  lemma CanGoOn(s: Sys, level: string -> nat, d: nat) returns (l: Label)
    requires Core(s, level) && d < |s.disp| && !s.disp[d].pc.Finished?
    ensures CleanLabel(s, l) && Enabled(s, l)
  {
    var o := OwnerOf(s, level, d);
    assert Has(s.db.tasks, s.db.tasks[o].name);
    if s.disp[d].pc.Spawning? {
      var p := FreshPid(s.procs);
      l := Dispatch(d, Spawned(p));
    } else {
      l := Dispatch(d, Go);
    }
  }

  /** In a stopped system that lost no wakeup, every task is done, whatever its level. */
  lemma {:induction false} StoppedIsDone(s: Sys, level: string -> nat, i: nat)
    requires Core(s, level) && Awake(s) && Stopped(s) && i < |s.db.tasks|
    ensures s.db.tasks[i].state == DONE
    decreases level(s.db.tasks[i].name)
  {
    var t := s.db.tasks[i];
    MainSleeps(s);
    assert PlainTask(s.db.tasks, level, t);
    assert Manned(t, s.disp);
    if t.state != LOADED {
      var d :| 0 <= d < |s.disp| && Fits(t, s.disp[d]);
      AllFinished(s, level, d);
    } else {
      assert t.deps != [];
      var dep := t.deps[0];
      assert Sourced(s.db.tasks, level, t.name, dep);
      var j :| 0 <= j < |s.db.tasks| && Announces(s.db.tasks[j], dep) && level(s.db.tasks[j].name) < level(t.name);
      StoppedIsDone(s, level, j);
      NobodyWaits(s, level, j, i, dep);
    }
  }

  /** A finished dispatcher has announced all its task announces. */
  lemma FinishedGives(t: Task, x: Dispatcher, d: Dep)
    requires Fits(t, x) && x.pc.Finished? && Announces(t, d)
    ensures Given(x, d)
  {
    if d.name == PROVIDED && exists k :: 0 <= k < |t.prv| && Offers(t, k, d.event) {
      var k :| 0 <= k < |t.prv| && Offers(t, k, d.event);
      assert GivenFeature(x, k, d.event);
    }
  }

  /** Once all dispatchers have finished, nobody waits for what a completed task announces. */
  lemma NobodyWaits(s: Sys, level: string -> nat, j: nat, i: nat, dep: Dep)
    requires Core(s, level) && Stopped(s) && j < |s.db.tasks| && i < |s.db.tasks| && s.db.tasks[j].state == DONE
    requires Announces(s.db.tasks[j], dep)
    ensures dep !in s.db.tasks[i].deps
  {
    assert Manned(s.db.tasks[j], s.disp);
    var d :| 0 <= d < |s.disp| && Fits(s.db.tasks[j], s.disp[d]);
    AllFinished(s, level, d);
    assert Announced(s.db.tasks, s.disp[d]);
    FinishedGives(s.db.tasks[j], s.disp[d], dep);
  }

  lemma MainSleeps(s: Sys)
    requires Stopped(s)
    ensures s.main == Blocked(false)
  {
    assert CleanLabel(s, RunPass(|s.db.tasks|)) && CleanLabel(s, MainWait) && CleanLabel(s, MainWake);
  }

  lemma AllFinished(s: Sys, level: string -> nat, d: nat)
    requires Core(s, level) && Stopped(s) && d < |s.disp|
    ensures s.disp[d].pc.Finished?
  {
    if !s.disp[d].pc.Finished? {
      var l := CanGoOn(s, level, d);
    }
  }

  // ---- the last wait ----

  ghost predicate LastWait(ls: seq<Label>, w: nat) {
    w < |ls| && ls[w] == MainWait && forall i :: w < i < |ls| ==> ls[i] != MainWait
  }

  /** Without a further wait a main loop that is not asleep stays so. */
  lemma StaysUp(s: Sys, l: Label)
    requires Enabled(s, l) && RunLabel(s, l) && l != MainWait && s.main != Blocked(false)
    ensures Next(s, l).main != Blocked(false)
  {
  }

  lemma {:induction false} UpToTheEnd(ss: seq<Sys>, ls: seq<Label>, level: string -> nat, i: nat, k: nat)
    requires CleanRun(ss, ls, level) && i <= k <= |ls| && ss[i].main != Blocked(false)
    requires forall j :: i <= j < k ==> ls[j] != MainWait
    ensures ss[k].main != Blocked(false)
  {
    if i < k {
      UpToTheEnd(ss, ls, level, i, k - 1);
      assert StepAt(ss, ls, k - 1);
      StaysUp(ss[k - 1], ls[k - 1]);
    }
  }

  /** So in a stopped run the main loop sleeps from its last wait on. */
  lemma AsleepAfter(ss: seq<Sys>, ls: seq<Label>, level: string -> nat, w: nat, k: nat)
    requires CleanRun(ss, ls, level) && Stopped(ss[|ls|]) && LastWait(ls, w) && w < k <= |ls|
    ensures ss[k].main == Blocked(false)
  {
    MainSleeps(ss[|ls|]);
    if ss[k].main != Blocked(false) {
      UpToTheEnd(ss, ls, level, k, |ls|);
    }
  }

  /** A stopped run has a last wait. */
  lemma StoppedRunWaited(ss: seq<Sys>, ls: seq<Label>, level: string -> nat) returns (w: nat)
    requires CleanRun(ss, ls, level) && Stopped(ss[|ls|])
    ensures LastWait(ls, w)
  {
    MainSleeps(ss[|ls|]);
    w := |ls|;
    while w > 0 && ls[w - 1] != MainWait
      invariant w <= |ls| && forall i :: w <= i < |ls| ==> ls[i] != MainWait
    {
      w := w - 1;
    }
    if w == 0 {
      UpToTheEnd(ss, ls, level, 0, |ls|);
    }
    w := w - 1;
  }

  lemma {:induction false} AwakeAfter(ss: seq<Sys>, ls: seq<Label>, level: string -> nat, w: nat, k: nat)
    requires CleanRun(ss, ls, level) && Stopped(ss[|ls|]) && LastWait(ls, w) && w < k <= |ls|
    requires forall i :: 0 <= i < |ss[w].db.tasks| ==> !IsReady(ss[w].db.tasks[i])
    ensures Awake(ss[k])
  {
    if k == w + 1 {
      assert StepAt(ss, ls, w);
      assert ss[k] == ss[w].(main := Blocked(false));
    } else {
      AwakeAfter(ss, ls, level, w, k - 1);
      AsleepAfter(ss, ls, level, w, k - 1);
      RunKeeps(ss, ls, level, k - 1);
      assert StepAt(ss, ls, k - 1);
      StepKeeps(ss[k - 1], ls[k - 1], level);
    }
  }

  /** Only a pass takes a task out of its loaded state. */
  lemma LoadedStays(s: Sys, l: Label, level: string -> nat, i: nat)
    requires Core(s, level) && Enabled(s, l) && RunLabel(s, l) && !l.RunPass?
    requires i < |s.db.tasks| && s.db.tasks[i].state == LOADED
    ensures i < |Next(s, l).db.tasks| && Next(s, l).db.tasks[i].state == LOADED
  {
    StepTasks(s, l);
    if l.Dispatch? {
      var x := s.disp[l.d];
      var o := OwnerOf(s, level, l.d);
      if DispatcherOp(x).Some? {
        DispatcherGoodOp(s.db.tasks[o], x);
        ApplyTask(s.db, DispatcherOp(x).value, i);
        GoodTouch(s.db.tasks[i], DispatcherOp(x).value);
        assert s.db.tasks[o].name != s.db.tasks[i].name;
        OwnState(s.db.tasks[o], x);
      }
    }
  }

  lemma NoPassAfter(ss: seq<Sys>, ls: seq<Label>, level: string -> nat, w: nat, k: nat)
    requires CleanRun(ss, ls, level) && Stopped(ss[|ls|]) && LastWait(ls, w) && w <= k < |ls|
    ensures !ls[k].RunPass?
  {
    if w < k {
      AsleepAfter(ss, ls, level, w, k);
      assert StepAt(ss, ls, k);
    }
  }

  lemma {:induction false} LoadedForGood(ss: seq<Sys>, ls: seq<Label>, level: string -> nat, w: nat, k: nat, i: nat)
    requires CleanRun(ss, ls, level) && Stopped(ss[|ls|]) && LastWait(ls, w) && w <= k <= |ls|
    requires i < |ss[w].db.tasks| && ss[w].db.tasks[i].state == LOADED
    ensures i < |ss[k].db.tasks| && ss[k].db.tasks[i].state == LOADED
  {
    if w < k {
      LoadedForGood(ss, ls, level, w, k - 1, i);
      NoPassAfter(ss, ls, level, w, k - 1);
      RunKeeps(ss, ls, level, k - 1);
      assert StepAt(ss, ls, k - 1);
      LoadedStays(ss[k - 1], ls[k - 1], level, i);
    }
  }

  lemma NoneReadyCompletes(ss: seq<Sys>, ls: seq<Label>, level: string -> nat, w: nat, i: nat)
    requires CleanRun(ss, ls, level) && Stopped(ss[|ls|]) && LastWait(ls, w) && i < |ss[|ls|].db.tasks|
    requires forall j :: 0 <= j < |ss[w].db.tasks| ==> !IsReady(ss[w].db.tasks[j])
    ensures ss[|ls|].db.tasks[i].state == DONE
  {
    RunKeeps(ss, ls, level, |ls|);
    AwakeAfter(ss, ls, level, w, |ls|);
    StoppedIsDone(ss[|ls|], level, i);
  }

  lemma ReadyIsLeftBehind(ss: seq<Sys>, ls: seq<Label>, level: string -> nat, w: nat, i: nat)
    requires CleanRun(ss, ls, level) && Stopped(ss[|ls|]) && LastWait(ls, w)
    requires i < |ss[w].db.tasks| && IsReady(ss[w].db.tasks[i])
    ensures i < |ss[|ls|].db.tasks| && ss[|ls|].db.tasks[i].state == LOADED
  {
    RunKeeps(ss, ls, level, w);
    assert PlainTask(ss[w].db.tasks, level, ss[w].db.tasks[i]);
    LoadedForGood(ss, ls, level, w, |ls|, i);
  }

  /**
   * Progress: a run that cannot go on has completed every task if and only if no task was ready
   * when the main loop went to wait for the last time. This is the test the loop does not make.
   */
  lemma CompleteIffNoneReady(ss: seq<Sys>, ls: seq<Label>, level: string -> nat, w: nat)
    requires CleanRun(ss, ls, level) && Stopped(ss[|ls|]) && LastWait(ls, w)
    ensures (forall t :: t in ss[|ls|].db.tasks ==> t.state == DONE)
       <==> (forall t :: t in ss[w].db.tasks ==> !IsReady(t))
  {
    var end := ss[|ls|].db.tasks;
    if i :| 0 <= i < |ss[w].db.tasks| && IsReady(ss[w].db.tasks[i]) {
      assert ss[w].db.tasks[i] in ss[w].db.tasks;
      ReadyIsLeftBehind(ss, ls, level, w, i);
      assert end[i] in end;
    } else {
      forall t | t in end ensures t.state == DONE {
        var i :| 0 <= i < |end| && end[i] == t;
        NoneReadyCompletes(ss, ls, level, w, i);
      }
    }
  }

  /** Every completed task has been dispatched exactly once. */
  lemma DispatchedOnce(ss: seq<Sys>, ls: seq<Label>, level: string -> nat, t: Task)
    requires CleanRun(ss, ls, level) && Stopped(ss[|ls|]) && t in ss[|ls|].db.tasks && t.state == DONE
    ensures var disp := ss[|ls|].disp;
            && (exists d :: 0 <= d < |disp| && disp[d].task == t.name && disp[d].pc == Finished)
            && (forall d, e :: 0 <= d < e < |disp| && disp[d].task == t.name ==> disp[e].task != t.name)
  {
    var s := ss[|ls|];
    RunKeeps(ss, ls, level, |ls|);
    assert Manned(t, s.disp);
    var d :| 0 <= d < |s.disp| && Fits(t, s.disp[d]);
    AllFinished(s, level, d);
  }

  /** In particular a run in which no broadcast falls between a pass and the wait completes every task. */
  lemma AllTasksComplete(ss: seq<Sys>, ls: seq<Label>, level: string -> nat, t: Task)
    requires CleanRun(ss, ls, level) && Stopped(ss[|ls|])
    requires forall i :: 0 <= i < |ls| ==> !LosesWakeup(ss[i], ls[i])
    requires t in ss[|ls|].db.tasks
    ensures t.state == DONE
  {
    var w := StoppedRunWaited(ss, ls, level);
    RunKeeps(ss, ls, level, w);
    assert StepAt(ss, ls, w);
    CompleteIffNoneReady(ss, ls, level, w);
  }
}
