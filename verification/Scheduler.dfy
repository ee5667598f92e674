/**
 * The daemon as a step system: the main scheduling loop, any number of dispatcher threads and
 * client commands interleave freely, one critical section (or one action outside the locks) a step.
 */
module Scheduler {
  import opened Options
  import opened Tasks
  import opened TaskDB

  /** Whether a dispatcher runs the task's commands or its stop commands. */
  datatype Mode = Start | Stop

  /** What a dispatcher does next; i is a command index, k an index into the provided features. */
  datatype Pc =
    | Copying
    | Spawning(i: nat)
    | SettingPid(i: nat)
    | SettingRunning
    | FulfillingSpawn
    | ProvidingRunning(k: nat)
    | Waiting(i: nat)
    | ClearingPid(i: nat)
    | Blocking(i: nat)
    | Reaping(i: nat)
    | SettingDone
    | FulfillingDone
    | ProvidingDone(k: nat)
    | SettingFailed
    | ClearingPidFailed
    | BlockingFailed
    | ReapingFailed
    | FulfillingFailed
    | ProvidingFailed(k: nat)
    | Exiting
    | Finished

  /** A dispatcher thread with its private copy of the task and the last process it started. */
  datatype Dispatcher = Dispatcher(task: string, mode: Mode, copy: Task, pid: int, pc: Pc)

  /** A child process that has not been reaped, by the dispatcher and command that started it. */
  datatype Proc = Proc(disp: nat, cmd: nat)

  /** The main loop: about to pass, between pass and wait, or waiting for `changed`. */
  datatype MainPc = AtPass | Gap | Blocked(signalled: bool)

  /** A client thread's progress through a STOP or KILL command. */
  datatype Client =
    | Idle
    | Inhibited(name: string, kill: bool)
    | Marked(name: string)
    | SpawningStop(copy: Task)
    | Signalling(name: string, pid: int, victim: Option<Proc>)
    | Releasing

  datatype Sys = Sys(
    db: Db,
    main: MainPc,
    disp: seq<Dispatcher>,
    procs: map<int, Proc>,
    waitInhibit: bool,
    clients: seq<Client>)

  /** How an action outside the daemon's control turns out. */
  datatype Outcome = Go | Fail | Spawned(pid: int)

  datatype Label =
    | RunPass(failAt: nat)
    | MainWait
    | MainWake
    | MainSpurious
    | Dispatch(d: nat, out: Outcome)
    | Command(op: DbOp)
    | Begin(c: nat, name: string, kill: bool)
    | Continue(c: nat, ok: bool)

  const CTL_ENABLE := Dep("@ctl", "enable")
  const TIMER := "@timer"
  const ELOS := "@elos"

  // ---- dispatchers ----

  /** A dispatcher before it has read its task. */
  function NewDispatcher(name: string): Dispatcher {
    Dispatcher(name, Start, Task(name, 0, 0, [], [], false, [], false, false, LOADED, -1, -1, 0, false), -1, Copying)
  }

  function NewDispatchers(names: seq<string>): seq<Dispatcher> {
    seq(|names|, k requires 0 <= k < |names| => NewDispatcher(names[k]))
  }

  function Commands(x: Dispatcher): nat {
    if x.mode.Start? then x.copy.cmds else x.copy.stopCmds
  }

  /** Offer feature k to dependents if the new state is the one it asks for. */
  function ProvideOp(x: Dispatcher, k: nat, s: TaskState): Option<DbOp> {
    if k < |x.copy.prv| && x.copy.prv[k].stateReq == s
    then Some(Fulfil(Dep(PROVIDED, x.copy.prv[k].name), None))
    else None
  }

  /** The database operation of a dispatcher's next step. */
  function DispatcherOp(x: Dispatcher): Option<DbOp> {
    match x.pc
    case SettingPid(_) => Some(SetPid(x.task, x.pid))
    case SettingRunning => Some(SetState(x.task, RUNNING))
    case FulfillingSpawn => Some(Fulfil(Dep(x.task, EVENT_SPAWN), None))
    case ProvidingRunning(k) => ProvideOp(x, k, RUNNING)
    case ClearingPid(_) => Some(SetPid(x.task, -1))
    case SettingDone => Some(SetState(x.task, DONE))
    case FulfillingDone => Some(Fulfil(Dep(x.task, EVENT_WAIT), None))
    case ProvidingDone(k) => ProvideOp(x, k, DONE)
    case SettingFailed => Some(SetState(x.task, FAILED))
    case ClearingPidFailed => Some(SetPid(x.task, -1))
    case FulfillingFailed => Some(Fulfil(Dep(x.task, EVENT_FAIL), None))
    case ProvidingFailed(k) => ProvideOp(x, k, FAILED)
    case Exiting => if x.copy.rearm then Some(Rearm(x.task)) else None
    case _ => None
  }

  predicate DispatcherEnabled(s: Sys, x: Dispatcher, out: Outcome) {
    match x.pc
    case Copying => !out.Spawned? && (x.mode.Start? ==> Has(s.db.tasks, x.task))
    case Spawning(_) => out.Fail? || (out.Spawned? && out.pid > 0 && out.pid !in s.procs)
    case Waiting(_) => !out.Spawned?
    case ProvidingRunning(_) => !out.Spawned?
    case ProvidingDone(_) => !out.Spawned?
    case ProvidingFailed(_) => !out.Spawned?
    case Blocking(_) => out.Go? && !s.waitInhibit
    case BlockingFailed => out.Go? && !s.waitInhibit
    case Finished => false
    case _ => out.Go?
  }

  function FirstCommand(x: Dispatcher): Pc {
    if Commands(x) == 0 then SettingDone else Spawning(0)
  }

  /** The point reached after a dispatcher's step; a failing feature hook skips the other features. */
  function NextPc(x: Dispatcher, out: Outcome): Pc {
    match x.pc
    case Copying => if out.Fail? then SettingFailed else FirstCommand(x)
    case Spawning(i) => if out.Fail? then SettingFailed else SettingPid(i)
    case SettingPid(i) => if i == 0 then SettingRunning else Waiting(i)
    case SettingRunning => FulfillingSpawn
    case FulfillingSpawn => if x.copy.prv == [] then Waiting(0) else ProvidingRunning(0)
    case ProvidingRunning(k) => if out.Go? && k + 1 < |x.copy.prv| then ProvidingRunning(k + 1) else Waiting(0)
    case Waiting(i) => if out.Fail? then SettingFailed else ClearingPid(i)
    case ClearingPid(i) => Blocking(i)
    case Blocking(i) => Reaping(i)
    case Reaping(i) => if i + 1 < Commands(x) then Spawning(i + 1) else SettingDone
    case SettingDone => FulfillingDone
    case FulfillingDone => if x.copy.prv == [] then Exiting else ProvidingDone(0)
    case ProvidingDone(k) => if out.Go? && k + 1 < |x.copy.prv| then ProvidingDone(k + 1) else Exiting
    case SettingFailed => ClearingPidFailed
    case ClearingPidFailed => if x.pid > 0 then BlockingFailed else FulfillingFailed
    case BlockingFailed => ReapingFailed
    case ReapingFailed => FulfillingFailed
    case FulfillingFailed => if x.copy.prv == [] then Exiting else ProvidingFailed(0)
    case ProvidingFailed(k) => if out.Go? && k + 1 < |x.copy.prv| then ProvidingFailed(k + 1) else Exiting
    case Exiting => Finished
    case Finished => Finished
  }

  function Named(tasks: seq<Task>, name: string): (t: Task)
    requires Has(tasks, name)
    ensures t in tasks && t.name == name
  {
    if tasks[0].name == name then tasks[0] else Named(tasks[1..], name)
  }

  function DispatcherAfter(s: Sys, x: Dispatcher, out: Outcome): Dispatcher
    requires DispatcherEnabled(s, x, out)
  {
    if x.pc.Copying? && x.mode.Start? then
      var y := x.(copy := Named(s.db.tasks, x.task));
      y.(pc := NextPc(y, out))
    else
      x.(pc := NextPc(x, out), pid := if out.Spawned? then out.pid else x.pid)
  }

  /** Starting a command adds a process; reaping waits for a process number and removes it. */
  function ProcsAfter(s: Sys, d: nat, out: Outcome): map<int, Proc>
    requires d < |s.disp|
  {
    var x := s.disp[d];
    if x.pc.Spawning? && out.Spawned? then s.procs[out.pid := Proc(d, x.pc.i)]
    else if x.pc.Reaping? || x.pc.ReapingFailed? then s.procs - {x.pid}
    else s.procs
  }

  // ---- steps ----

  function Notify(main: MainPc, broadcast: bool): MainPc {
    if broadcast && main.Blocked? then Blocked(true) else main
  }

  function Do(s: Sys, op: DbOp): Sys {
    var r := Apply(s.db, op);
    s.(db := r.db, main := Notify(s.main, r.broadcast))
  }

  function DoIf(s: Sys, op: Option<DbOp>): Sys {
    if op.Some? then Do(s, op.value) else s
  }

  /**
   * What client commands, timers and elos events may do in one critical section. The sections of
   * one RESTART or NOTIFY command may come in any order here.
   */
  predicate CommandOp(db: Db, op: DbOp) {
    match op
    case Insert(t, _, _) => FreshTask(t)
    case Rearm(_) => false
    case SetState(_, s) => s == LOADED || s == RUNNING.(notified := true) || s == DONE.(notified := true)
    case SetPid(_, p) => p > 0
    case SetRespawnInhibit(_, b) => !b
    case AddDep(_, d) => d == CTL_ENABLE
    case RemoveDep(_, d) => d == CTL_ENABLE
    case Fulfil(d, target) =>
      if target.Some? then d.name == ELOS && Has(db.tasks, target.value)
      else d.name == TIMER || d.name == PROVIDED || d.event == "spawn-notified" || d.event == "wait-notified"
    case SetSpawnInhibit(_) => true
  }

  /** A looked-up PID is worth signalling only if positive; otherwise the command gives up. */
  function SignalOrGiveUp(s: Sys, name: string): Client
    requires Has(s.db.tasks, name)
  {
    var pid := Named(s.db.tasks, name).pid;
    if pid <= 0 then Idle
    else Signalling(name, pid, if pid in s.procs then Some(s.procs[pid]) else None)
  }

  /** STOP and KILL after the inhibition was set; giving up leaves it set. */
  function ContinueClient(s: Sys, c: nat, ok: bool): Sys
    requires c < |s.clients|
  {
    match s.clients[c]
    case Idle => s
    case Inhibited(n, false) =>
      var s' := Do(s, SetRespawnInhibit(n, true));
      s'.(clients := s.clients[c := if Has(s.db.tasks, n) then Marked(n) else Idle])
    case Inhibited(n, true) =>
      s.(clients := s.clients[c := if Has(s.db.tasks, n) then SignalOrGiveUp(s, n) else Idle])
    case Marked(n) =>
      s.(clients := s.clients[c :=
        if !Has(s.db.tasks, n) then Idle
        else if Named(s.db.tasks, n).stopCmds > 0 then SpawningStop(Named(s.db.tasks, n))
        else SignalOrGiveUp(s, n)])
    case SpawningStop(copy) =>
      if !ok then s.(clients := s.clients[c := Idle])
      else s.(disp := s.disp + [Dispatcher(copy.name, Stop, copy, -1, Copying)],
              clients := s.clients[c := Releasing])
    case Signalling(_, _, _) =>
      s.(clients := s.clients[c := if ok then Releasing else Idle])
    case Releasing =>
      s.(waitInhibit := false, clients := s.clients[c := Idle])
  }

  predicate Enabled(s: Sys, l: Label) {
    match l
    case RunPass(_) => s.main == AtPass
    case MainWait => s.main == Gap
    case MainWake => s.main == Blocked(true)
    case MainSpurious => s.main == Blocked(false)
    case Dispatch(d, out) => d < |s.disp| && DispatcherEnabled(s, s.disp[d], out)
    case Command(op) => CommandOp(s.db, op)
    case Begin(c, _, _) => c < |s.clients| && s.clients[c] == Idle
    case Continue(c, _) => c < |s.clients| && s.clients[c] != Idle
  }

  function Next(s: Sys, l: Label): Sys
    requires Enabled(s, l)
  {
    match l
    case RunPass(failAt) =>
      var r := Pass(s.db, failAt);
      s.(db := r.db, main := Gap, disp := s.disp + NewDispatchers(r.started))
    case MainWait => s.(main := Blocked(false))
    case MainWake => s.(main := AtPass)
    case MainSpurious => s.(main := AtPass)
    case Dispatch(d, out) =>
      var s' := DoIf(s, DispatcherOp(s.disp[d]));
      s'.(disp := s.disp[d := DispatcherAfter(s, s.disp[d], out)], procs := ProcsAfter(s, d, out))
    case Command(op) => Do(s, op)
    case Begin(c, name, kill) => s.(waitInhibit := true, clients := s.clients[c := Inhibited(name, kill)])
    case Continue(c, ok) => ContinueClient(s, c, ok)
  }

  /** The operation a step performs on the database, if any. */
  function OpOf(s: Sys, l: Label): Option<DbOp>
    requires Enabled(s, l)
  {
    match l
    case Dispatch(d, _) => DispatcherOp(s.disp[d])
    case Command(op) => Some(op)
    case Continue(c, _) =>
      if s.clients[c].Inhibited? && !s.clients[c].kill then Some(SetRespawnInhibit(s.clients[c].name, true)) else None
    case _ => None
  }

  /** The daemon after loading its task files. */
  ghost predicate Initial(s: Sys) {
    && UniqueNames(s.db.tasks)
    && (forall i :: 0 <= i < |s.db.tasks| ==> FreshTask(s.db.tasks[i]))
    && s.main == AtPass && s.disp == [] && s.procs == map[] && !s.waitInhibit
    && (forall c :: 0 <= c < |s.clients| ==> s.clients[c] == Idle)
  }

  /** Step i of a run leads from ss[i] to ss[i + 1]. */
  ghost predicate StepAt(ss: seq<Sys>, ls: seq<Label>, i: nat)
    requires i < |ls| && |ss| == |ls| + 1
  {
    Enabled(ss[i], ls[i]) && ss[i + 1] == Next(ss[i], ls[i])
  }

  /** A finite run. */
  ghost predicate IsRun(ss: seq<Sys>, ls: seq<Label>) {
    |ss| == |ls| + 1 && forall i :: 0 <= i < |ls| ==> StepAt(ss, ls, i)
  }

  /** The pass of this step starts the named task. */
  predicate Starts(s: Sys, l: Label, name: string) {
    l.RunPass? && name in Pass(s.db, l.failAt).started
  }

  /** A pass that is not inhibited and creates all dispatchers. */
  predicate FullPass(s: Sys, l: Label) {
    l.RunPass? && !s.db.spawnInhibit && Pass(s.db, l.failAt).ok
  }

  /** No client is on its way through a STOP command. */
  ghost predicate NoStopPending(clients: seq<Client>) {
    forall c :: 0 <= c < |clients| ==>
      !clients[c].Marked? && !clients[c].SpawningStop? && (clients[c].Inhibited? ==> clients[c].kill)
  }

  // ---- facts about single steps ----

  /** Every step other than a pass changes the tasks by its operation only. */
  lemma StepTasks(s: Sys, l: Label)
    requires Enabled(s, l)
    ensures l.RunPass? ==> Next(s, l).db == Pass(s.db, l.failAt).db
    ensures !l.RunPass? && OpOf(s, l).None? ==> Next(s, l).db == s.db
    ensures !l.RunPass? && OpOf(s, l).Some? ==> Next(s, l).db == Apply(s.db, OpOf(s, l).value).db
  {
  }

  /** What a step does to the task at index i. */
  function TaskAfter(s: Sys, l: Label, i: nat): Task
    requires Enabled(s, l) && i < |s.db.tasks|
  {
    var t := s.db.tasks[i];
    if l.RunPass? then (if s.db.spawnInhibit then t else PassTask(t, i, PassEnd(s.db.tasks, l.failAt)))
    else if OpOf(s, l).None? then t
    else Touch(t, OpOf(s, l).value)
  }

  lemma StepTask(s: Sys, l: Label, i: nat)
    requires Enabled(s, l) && i < |s.db.tasks|
    ensures i < |Next(s, l).db.tasks| && Next(s, l).db.tasks[i] == TaskAfter(s, l, i)
  {
    StepTasks(s, l);
    if OpOf(s, l).Some? {
      ApplyTask(s.db, OpOf(s, l).value, i);
    }
  }

  lemma ApplyTask(db: Db, op: DbOp, i: nat)
    requires i < |db.tasks|
    ensures i < |Apply(db, op).db.tasks| && Apply(db, op).db.tasks[i] == Touch(db.tasks[i], op)
  {
    assert Has(db.tasks, db.tasks[i].name);
  }

  /** The dispatchers after a step. */
  function DispAfter(s: Sys, l: Label): seq<Dispatcher>
    requires Enabled(s, l)
  {
    match l
    case RunPass(failAt) => s.disp + NewDispatchers(Pass(s.db, failAt).started)
    case Dispatch(d, out) => s.disp[d := DispatcherAfter(s, s.disp[d], out)]
    case Continue(c, ok) =>
      if s.clients[c].SpawningStop? && ok
      then s.disp + [Dispatcher(s.clients[c].copy.name, Stop, s.clients[c].copy, -1, Copying)]
      else s.disp
    case _ => s.disp
  }

  lemma StepDisp(s: Sys, l: Label)
    requires Enabled(s, l)
    ensures Next(s, l).disp == DispAfter(s, l)
  {
  }

  lemma OpKeepsName(db: Db, op: DbOp, i: nat)
    requires i < |db.tasks|
    ensures i < |Apply(db, op).db.tasks| && Apply(db, op).db.tasks[i].name == db.tasks[i].name
  {
    ApplyTask(db, op, i);
  }

  lemma OpNames(db: Db, op: DbOp)
    requires UniqueNames(db.tasks)
    ensures KeepsNames(db.tasks, Apply(db, op).db.tasks)
  {
    NamesStayUnique(db, op);
    forall i | 0 <= i < |db.tasks|
      ensures i < |Apply(db, op).db.tasks| && Apply(db, op).db.tasks[i].name == db.tasks[i].name
    {
      OpKeepsName(db, op, i);
    }
    assert |db.tasks| <= |Apply(db, op).db.tasks|;
  }

  /** Names stay where they are and stay unique. */
  ghost predicate KeepsNames(tasks: seq<Task>, tasks': seq<Task>) {
    && UniqueNames(tasks') && |tasks| <= |tasks'|
    && forall i :: 0 <= i < |tasks| ==> tasks'[i].name == tasks[i].name
  }

  lemma StepNames(s: Sys, l: Label)
    requires Enabled(s, l) && UniqueNames(s.db.tasks)
    ensures KeepsNames(s.db.tasks, Next(s, l).db.tasks)
  {
    StepTasks(s, l);
    if l.RunPass? {
      PassNames(s.db, l.failAt);
    } else if OpOf(s, l).Some? {
      OpNames(s.db, OpOf(s, l).value);
    }
  }

  /** A pass that comes past a ready task starts it. */
  lemma ReadyIsStarted(s: Sys, l: Label, i: nat)
    requires UniqueNames(s.db.tasks) && i < |s.db.tasks| && l.RunPass? && !s.db.spawnInhibit
    requires IsReady(s.db.tasks[i]) && i < PassEnd(s.db.tasks, l.failAt)
    ensures Starts(s, l, s.db.tasks[i].name)
  {
    StartedExactly(s.db.tasks, PassEnd(s.db.tasks, l.failAt), s.db.tasks[i].name);
  }
}
