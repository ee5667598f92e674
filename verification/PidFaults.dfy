/**
 * What the conditions of PID safety are for: a run that signals a reaped process for each of them,
 * breaking only that one, and a safe run after which nothing is reaped any more.
 */
module PidFaults {
  import opened Options
  import opened Tasks
  import opened TaskDB
  import opened Scheduler
  import opened PidSafety
  import Single = SingleDispatcher
  import opened Walk

  const ONE := Task("a", 1, 0, [], [], true, [], false, false, LOADED, -1, -1, 0, false)
  const TWO := Task("a", 2, 0, [], [], true, [], false, false, LOADED, -1, -1, 0, false)
  const OTHER := Task("b", 1, 0, [], [], true, [], false, false, LOADED, -1, -1, 0, false)

  /** A client is about to signal a process number that is not in use. */
  ghost predicate Unsafe(s: Sys) {
    exists c :: 0 <= c < |s.clients| && s.clients[c].Signalling? && s.clients[c].pid !in s.procs
  }

  /** A step that none of the conditions of PID safety is about. */
  predicate Undisputed(s: Sys, l: Label) {
    || l.RunPass?
    || (l.Dispatch? && !l.out.Fail?)
    || (l.Continue? && l.c < |s.clients| && !s.clients[l.c].Releasing?)
  }

  ghost predicate Permits(allow: (Sys, Label) -> bool) {
    forall s, l {:trigger allow(s, l)} :: Undisputed(s, l) ==> allow(s, l)
  }

  // ---- steps ----

  predicate SameNames(a: seq<Task>, b: seq<Task>) {
    |a| == |b| && forall i :: 0 <= i < |a| ==> a[i].name == b[i].name && a[i].prv == b[i].prv && a[i].cmds == b[i].cmds
  }

  lemma TouchName(t: Task, op: DbOp)
    requires !op.Insert?
    ensures Touch(t, op).name == t.name && Touch(t, op).prv == t.prv && Touch(t, op).cmds == t.cmds
  {
  }

  lemma TouchNames(tasks: seq<Task>, x: Dispatcher)
    ensures SameNames(tasks, TouchedBy(tasks, DispatcherOp(x)))
  {
    Single.DispatcherInsertsNot(x);
    var op := DispatcherOp(x);
    if op.Some? {
      forall i | 0 <= i < |tasks|
        ensures var t := TouchAll(tasks, op.value)[i];
                tasks[i].name == t.name && tasks[i].prv == t.prv && tasks[i].cmds == t.cmds
      {
        TouchName(tasks[i], op.value);
      }
    }
  }

  lemma FirstRead(p: Path, allow: (Sys, Label) -> bool, d: nat) returns (q: Path)
    requires IsPath(p, allow) && d < |p.disp| && p.disp[d].pc.Copying? && p.disp[d].mode.Start?
    requires Has(p.tasks, p.disp[d].task) && Named(p.tasks, p.disp[d].task).cmds > 0
    requires allow(Last(p), Dispatch(d, Go))
    ensures IsPath(q, allow) && q.inhibit == p.inhibit && q.clients == p.clients
    ensures q.tasks == p.tasks && q.procs == p.procs
    ensures q.disp == p.disp[d := p.disp[d].(copy := Named(p.tasks, p.disp[d].task), pc := Spawning(0))]
  {
    q := Act(p, allow, d, Go);
  }

  /** A client takes the first two steps of KILL. */
  lemma LookUp(p: Path, allow: (Sys, Label) -> bool, c: nat, name: string) returns (q: Path)
    requires IsPath(p, allow) && c < |p.clients| && p.clients[c] == Idle
    requires allow(Last(p), Begin(c, name, true)) && Permits(allow)
    ensures IsPath(q, allow)
    ensures q == p.(ss := q.ss, ls := q.ls, inhibit := true, clients := p.clients[c :=
      if Has(p.tasks, name) then SignalOrGiveUp(Last(p), name) else Idle])
  {
    var ss, ls := Extend(p.ss, p.ls, allow, Begin(c, name, true));
    assert ss[|ls|] == Last(p.(inhibit := true, clients := p.clients[c := Inhibited(name, true)]));
    ss, ls := Extend(ss, ls, allow, Continue(c, true));
    var found := if Has(p.tasks, name) then SignalOrGiveUp(Last(p), name) else Idle;
    q := p.(ss := ss, ls := ls, inhibit := true, clients := p.clients[c := found]);
    assert p.clients[c := Inhibited(name, true)][c := found] == q.clients;
  }

  /** A task without features has its dispatcher at a point of its work. */
  ghost predicate Stands(p: Path, allow: (Sys, Label) -> bool, d: nat, pc: Pc, pid: int) {
    && IsPath(p, allow) && Permits(allow)
    && d < |p.disp| && p.disp[d].mode.Start? && p.disp[d].pc == pc && p.disp[d].pid == pid
    && !pc.Copying? && p.disp[d].copy.prv == []
  }

  /** Everything but the dispatcher's task, the dispatcher and its process is as before. */
  ghost predicate Beside(p: Path, q: Path, d: nat) {
    && q.inhibit == p.inhibit && q.clients == p.clients && SameNames(p.tasks, q.tasks)
    && |q.disp| == |p.disp| && (forall e :: 0 <= e < |p.disp| && e != d ==> q.disp[e] == p.disp[e])
    && (d < |p.disp| ==> q.disp[d].copy == p.disp[d].copy && q.disp[d].task == p.disp[d].task)
  }

  lemma Move(p: Path, allow: (Sys, Label) -> bool, d: nat, pc: Pc, pid: int, out: Outcome, pc': Pc) returns (q: Path)
    requires Stands(p, allow, d, pc, pid) && !out.Spawned? && (out.Fail? ==> allow(Last(p), Dispatch(d, out)))
    requires DispatcherEnabled(Last(p), p.disp[d], out) && pc' == NextPc(p.disp[d], out) && !pc'.Copying?
    ensures Stands(q, allow, d, pc', pid) && Beside(p, q, d)
    ensures q.tasks == TouchedBy(p.tasks, DispatcherOp(p.disp[d]))
    ensures q.procs == if pc.Reaping? || pc.ReapingFailed? then p.procs - {pid} else p.procs
  {
    TouchNames(p.tasks, p.disp[d]);
    q := GoOn(p, allow, d, out);
  }

  /** A new dispatcher starts its first command and registers its process. */
  lemma RunTask(p: Path, allow: (Sys, Label) -> bool, d: nat, pid: int) returns (q: Path)
    requires IsPath(p, allow) && Permits(allow) && pid > 0 && pid !in p.procs
    requires d < |p.disp| && p.disp[d].pc.Copying? && p.disp[d].mode.Start?
    requires Has(p.tasks, p.disp[d].task)
    requires var t := Named(p.tasks, p.disp[d].task); t.cmds > 0 && t.prv == []
    ensures Stands(q, allow, d, SettingRunning, pid)
    ensures q.inhibit == p.inhibit && q.clients == p.clients && q.procs == p.procs[pid := Proc(d, 0)]
    ensures q.tasks == TouchAll(p.tasks, SetPid(p.disp[d].task, pid))
    ensures |q.disp| == |p.disp| && forall e :: 0 <= e < |p.disp| && e != d ==> q.disp[e] == p.disp[e]
    ensures q.disp[d].task == p.disp[d].task && q.disp[d].copy == Named(p.tasks, p.disp[d].task)
  {
    q := FirstRead(p, allow, d);
    q := GoOn(q, allow, d, Spawned(pid));
    q := GoOn(q, allow, d, Go);
  }

  /** The process is waited for. */
  lemma AwaitExit(p: Path, allow: (Sys, Label) -> bool, d: nat, pid: int) returns (q: Path)
    requires Stands(p, allow, d, SettingRunning, pid)
    ensures Stands(q, allow, d, Waiting(0), pid) && Beside(p, q, d) && q.procs == p.procs
  {
    q := Move(p, allow, d, SettingRunning, pid, Go, FulfillingSpawn);
    q := Move(q, allow, d, FulfillingSpawn, pid, Go, Waiting(0));
  }

  /** A failed command's process is about to be reaped. */
  lemma UpToReaping(p: Path, allow: (Sys, Label) -> bool, d: nat, pid: int) returns (q: Path)
    requires Stands(p, allow, d, SettingFailed, pid) && pid > 0 && !p.inhibit
    ensures Stands(q, allow, d, ReapingFailed, pid) && Beside(p, q, d) && q.procs == p.procs
  {
    q := Move(p, allow, d, SettingFailed, pid, Go, ClearingPidFailed);
    q := Move(q, allow, d, ClearingPidFailed, pid, Go, BlockingFailed);
    q := Move(q, allow, d, BlockingFailed, pid, Go, ReapingFailed);
  }

  /** A successful command's process waits to be reaped. */
  lemma UpToBlocking(p: Path, allow: (Sys, Label) -> bool, d: nat, pid: int) returns (q: Path)
    requires Stands(p, allow, d, Waiting(0), pid)
    ensures Stands(q, allow, d, Blocking(0), pid) && Beside(p, q, d) && q.procs == p.procs
  {
    q := Move(p, allow, d, Waiting(0), pid, Go, ClearingPid(0));
    q := Move(q, allow, d, ClearingPid(0), pid, Go, Blocking(0));
  }

  /** A successful command is reaped and the next one is due. */
  lemma UpToNext(p: Path, allow: (Sys, Label) -> bool, d: nat, pid: int) returns (q: Path)
    requires Stands(p, allow, d, Waiting(0), pid) && !p.inhibit && p.disp[d].copy.cmds > 1
    ensures Stands(q, allow, d, Spawning(1), pid) && Beside(p, q, d) && q.procs == p.procs - {pid}
  {
    q := UpToBlocking(p, allow, d, pid);
    q := Move(q, allow, d, Blocking(0), pid, Go, Reaping(0));
    q := Move(q, allow, d, Reaping(0), pid, Go, Spawning(1));
  }

  // ---- overlapping commands ----

  predicate AllButOverlap(s: Sys, l: Label) {
    LaterCommandsStart(s, l) && NoMainPid(l)
  }

  /** The only task runs as process 7. */
  lemma OneRuns(clients: seq<Client>, allow: (Sys, Label) -> bool) returns (p: Path)
    requires Permits(allow) && forall c :: 0 <= c < |clients| ==> clients[c] == Idle
    ensures Stands(p, allow, 0, SettingRunning, 7) && |p.disp| == 1 && p.procs == map[7 := Proc(0, 0)]
    ensures p.tasks == [ONE.(state := STARTING, pid := 7)] && !p.inhibit && p.clients == clients
  {
    OneReady(ONE);
    p := FirstPass([ONE], clients, allow);
    assert p.tasks[0].name == "a";
    p := RunTask(p, allow, 0, 7);
  }

  /** A client signals and lifts the inhibition. */
  lemma FinishKill(p: Path, allow: (Sys, Label) -> bool, c: nat) returns (q: Path)
    requires IsPath(p, allow) && c < |p.clients| && p.clients[c].Signalling? && forall s :: allow(s, Continue(c, true))
    ensures IsPath(q, allow)
    ensures q == p.(ss := q.ss, ls := q.ls, inhibit := false, clients := p.clients[c := Idle])
  {
    var ss, ls := Extend(p.ss, p.ls, allow, Continue(c, true));
    assert ss[|ls|] == Last(p.(clients := p.clients[c := Releasing]));
    ss, ls := Extend(ss, ls, allow, Continue(c, true));
    q := p.(ss := ss, ls := ls, inhibit := false, clients := p.clients[c := Idle]);
    assert p.clients[c := Releasing][c := Idle] == q.clients;
  }

  /** Two KILL commands have looked the process up and the second one has finished. */
  lemma TwoLookUps() returns (p: Path)
    ensures Stands(p, AllButOverlap, 0, SettingRunning, 7) && !p.inhibit && p.procs == map[7 := Proc(0, 0)]
    ensures |p.clients| == 2 && p.clients[0].Signalling? && p.clients[0].pid == 7
  {
    p := OneRuns([Idle, Idle], AllButOverlap);
    assert p.tasks[0].name == "a";
    p := LookUp(p, AllButOverlap, 0, "a");
    p := LookUp(p, AllButOverlap, 1, "a");
    p := FinishKill(p, AllButOverlap, 1);
  }

  lemma VictimFails() returns (p: Path)
    ensures Stands(p, AllButOverlap, 0, SettingFailed, 7) && !p.inhibit && p.procs == map[7 := Proc(0, 0)]
    ensures |p.clients| == 2 && p.clients[0].Signalling? && p.clients[0].pid == 7
  {
    p := TwoLookUps();
    p := AwaitExit(p, AllButOverlap, 0, 7);
    p := Move(p, AllButOverlap, 0, Waiting(0), 7, Fail, SettingFailed);
  }

  /**
   * The flag is a Boolean, not a counter: of two overlapping KILL commands the second one lifts
   * the inhibition under the first one.
   */
  lemma OverlapIsUnsafe() returns (ss: seq<Sys>, ls: seq<Label>)
    ensures AllowedRun(ss, ls, AllButOverlap) && Unsafe(ss[|ls|])
  {
    var p := VictimFails();
    p := UpToReaping(p, AllButOverlap, 0, 7);
    p := Move(p, AllButOverlap, 0, ReapingFailed, 7, Go, FulfillingFailed);
    ss, ls := p.ss, p.ls;
    assert ss[|ls|].clients[0].pid !in ss[|ls|].procs;
  }

  // ---- a later command that cannot be started ----

  predicate AllButLater(s: Sys, l: Label) {
    NoMainPid(l) && ReleasesLast(s, l)
  }

  lemma TwoStarted() returns (p: Path)
    ensures IsPath(p, AllButLater) && !p.inhibit && p.clients == [Idle] && p.procs == map[]
    ensures p.tasks == [TWO.(state := STARTING), OTHER.(state := STARTING)]
    ensures p.disp == [NewDispatcher("a"), NewDispatcher("b")]
  {
    var tasks := [TWO, OTHER];
    assert "a" != "b";
    p := FirstPass(tasks, [Idle], AllButLater);
    assert ReadyNames(tasks, 1) == ReadyNames(tasks, 0) + ["a"] == ["a"];
    assert ReadyNames(tasks, 2) == ReadyNames(tasks, 1) + ["b"] == ["a", "b"];
    assert Passed(tasks) == [TWO.(state := STARTING), OTHER.(state := STARTING)];
    assert NewDispatchers(["a", "b"]) == [NewDispatcher("a"), NewDispatcher("b")];
  }

  /** The tasks' names, and what the second one's dispatcher will read. */
  predicate TwoTasks(p: Path) {
    |p.tasks| == 2 && p.tasks[0].name == "a" && p.tasks[1].name == "b" && p.tasks[1].cmds == 1 && p.tasks[1].prv == []
  }

  lemma FirstRuns() returns (p: Path)
    ensures Stands(p, AllButLater, 0, Waiting(0), 7) && !p.inhibit && p.clients == [Idle]
    ensures p.procs == map[7 := Proc(0, 0)] && p.disp[0].copy.cmds == 2
    ensures |p.disp| == 2 && p.disp[1] == NewDispatcher("b") && TwoTasks(p)
  {
    p := TwoStarted();
    assert p.tasks[0].name == "a";
    p := RunTask(p, AllButLater, 0, 7);
    p := AwaitExit(p, AllButLater, 0, 7);
  }

  /** The first task's first command has been reaped, its second one cannot be started. */
  lemma LaterFails() returns (p: Path)
    ensures Stands(p, AllButLater, 0, SettingFailed, 7) && !p.inhibit && p.clients == [Idle] && p.procs == map[]
    ensures |p.disp| == 2 && p.disp[1] == NewDispatcher("b") && TwoTasks(p)
  {
    p := FirstRuns();
    p := UpToNext(p, AllButLater, 0, 7);
    p := Move(p, AllButLater, 0, Spawning(1), 7, Fail, SettingFailed);
  }

  lemma NamedSecond(tasks: seq<Task>)
    requires |tasks| == 2 && tasks[0].name == "a" && tasks[1].name == "b"
    ensures Has(tasks, "b") && Named(tasks, "b") == tasks[1]
  {
    assert "a" != "b";
    assert tasks[1..][0] == tasks[1];
  }

  /** The first task's dispatcher is past the inhibition when the second task gets number 7. */
  lemma NumberReused() returns (p: Path)
    ensures Stands(p, AllButLater, 0, ReapingFailed, 7) && p.clients == [Idle] && p.procs == map[7 := Proc(1, 0)]
    ensures TwoTasks(p) && p.tasks[1].pid == 7
  {
    p := LaterFails();
    p := UpToReaping(p, AllButLater, 0, 7);
    NamedSecond(p.tasks);
    p := RunTask(p, AllButLater, 1, 7);
  }

  /**
   * A dispatcher that cannot start a later command reaps the number of the command before it,
   * which may by then denote another task's process, whatever the inhibition says.
   */
  lemma StaleIsUnsafe() returns (ss: seq<Sys>, ls: seq<Label>)
    ensures AllowedRun(ss, ls, AllButLater) && Unsafe(ss[|ls|])
  {
    var p := NumberReused();
    NamedSecond(p.tasks);
    p := LookUp(p, AllButLater, 0, "b");
    p := Move(p, AllButLater, 0, ReapingFailed, 7, Go, FulfillingFailed);
    ss, ls := p.ss, p.ls;
    assert ss[|ls|].clients[0].pid !in ss[|ls|].procs;
  }

  // ---- a reported main PID ----

  predicate AllButMainPid(s: Sys, l: Label) {
    LaterCommandsStart(s, l) && ReleasesLast(s, l)
  }

  /** A client may report any number as a task's main PID. */
  lemma MainPidIsUnsafe() returns (ss: seq<Sys>, ls: seq<Label>)
    ensures AllowedRun(ss, ls, AllButMainPid) && Unsafe(ss[|ls|])
  {
    OneReady(ONE);
    var p := FirstPass([ONE], [Idle], AllButMainPid);
    ss, ls := Extend(p.ss, p.ls, AllButMainPid, Command(SetPid("a", 9)));
    var tasks := [ONE.(state := STARTING, pid := 9)];
    p := p.(ss := ss, ls := ls, tasks := tasks);
    assert ss[|ls|].db.tasks == tasks;
    assert tasks[0].name == "a";
    p := LookUp(p, AllButMainPid, 0, "a");
    ss, ls := p.ss, p.ls;
    assert ss[|ls|].clients[0].pid !in ss[|ls|].procs;
  }

  // ---- a leaked inhibition ----

  lemma SafePermits()
    ensures Permits(SafeStep)
  {
  }

  lemma OneAwaited() returns (p: Path)
    ensures Stands(p, SafeStep, 0, Waiting(0), 7) && |p.disp| == 1 && p.clients == [Idle]
    ensures |p.tasks| == 1 && p.tasks[0].name == "a"
  {
    SafePermits();
    p := OneRuns([Idle], SafeStep);
    p := AwaitExit(p, SafeStep, 0, 7);
  }

  lemma UnknownKilled() returns (p: Path)
    ensures Stands(p, SafeStep, 0, Waiting(0), 7) && |p.disp| == 1 && p.clients == [Idle] && p.inhibit
  {
    p := OneAwaited();
    assert "a" != "z";
    p := LookUp(p, SafeStep, 0, "z");
  }

  /**
   * A KILL of an unknown task in a safe run: no command is under way any more, reaping is still
   * inhibited, and a dispatcher waits for it. This is where the starving of reapers begins.
   */
  lemma LeakIsReached() returns (ss: seq<Sys>, ls: seq<Label>)
    ensures AllowedRun(ss, ls, SafeStep)
    ensures var s := ss[|ls|];
            && s.waitInhibit && AllIdle(s)
            && |s.disp| == 1 && s.disp[0].pc.Blocking?
  {
    var p := UnknownKilled();
    p := UpToBlocking(p, SafeStep, 0, 7);
    ss, ls := p.ss, p.ls;
  }
}
