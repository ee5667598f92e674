/**
 * Why tasks that are respawned and rearmed are outside the single-dispatcher claim: every such
 * task that has commands and waits for nothing has a run with two start dispatchers at work.
 */
module RespawnRearm {
  import opened Options
  import opened Tasks
  import opened TaskDB
  import opened Scheduler
  import opened SingleDispatcher
  import opened Solo
  import opened Walk

  /** Steps the single-dispatcher claim allows, and none of a dispatcher that fails. */
  predicate Calm(s: Sys, l: Label) {
    CalmLabel(l) && (l.Dispatch? ==> !l.out.Fail?)
  }

  /** A task that is respawned, rearmed and free to start. */
  predicate Loops(t: Task) {
    Free(t) && Both(t)
  }

  /** The next step of a dispatcher, which succeeds. */
  lemma Go1(p: Path, t: Task, d: nat, out: Outcome) returns (q: Path)
    requires Loops(t) && Alone(p, t, Calm) && d < |p.disp| && DispatcherEnabled(Last(p), p.disp[d], out) && !out.Fail?
    ensures Alone(q, t, Calm)
    ensures q.tasks == [TouchIf(p.tasks[0], DispatcherOp(p.disp[d]))]
    ensures d < |q.disp| && q.disp == p.disp[d := q.disp[d]] && q.procs == ProcsAfter(Last(p), d, out)
    ensures var x := p.disp[d];
            && q.disp[d].pc == NextPc(x.(copy := t), out)
            && q.disp[d].pid == if out.Spawned? && x.pc.Spawning? then out.pid else x.pid
  {
    q := Step(p, t, Calm, d, out);
  }

  /** The first dispatcher is at a point of its work, and there is no child process. */
  ghost predicate FirstAt(p: Path, t: Task, pc: Pc) {
    Loops(t) && Alone(p, t, Calm) && |p.disp| == 1 && p.disp[0].pc == pc && p.procs == map[]
  }

  /** The first dispatcher has started command i as process 7. */
  ghost predicate HasProcess(p: Path, t: Task, i: nat, pc: Pc) {
    && Loops(t) && Alone(p, t, Calm) && |p.disp| == 1 && p.disp[0].pc == pc && p.disp[0].pid == 7
    && p.procs == map[7 := Proc(0, i)]
  }

  lemma Proceed(p: Path, t: Task, i: nat, pc: Pc, pc': Pc) returns (q: Path)
    requires HasProcess(p, t, i, pc) && DispatcherEnabled(Last(p), p.disp[0], Go)
    requires !pc.SettingFailed? && !pc.Spawning? && !pc.Reaping? && !pc.ReapingFailed?
    requires pc' == NextPc(p.disp[0].(copy := t), Go)
    ensures HasProcess(q, t, i, pc')
  {
    q := Go1(p, t, 0, Go);
  }

  /** The features from the k-th on are announced one after the other. */
  lemma {:induction false} AnnounceRunning(p: Path, t: Task, k: nat) returns (q: Path)
    requires k < |t.prv| && HasProcess(p, t, 0, ProvidingRunning(k))
    ensures HasProcess(q, t, 0, Waiting(0))
    decreases |t.prv| - k
  {
    if k + 1 < |t.prv| {
      q := Proceed(p, t, 0, ProvidingRunning(k), ProvidingRunning(k + 1));
      q := AnnounceRunning(q, t, k + 1);
    } else {
      q := Proceed(p, t, 0, ProvidingRunning(k), Waiting(0));
    }
  }

  lemma Announce(p: Path, t: Task) returns (q: Path)
    requires HasProcess(p, t, 0, SettingRunning)
    ensures HasProcess(q, t, 0, Waiting(0))
  {
    q := Proceed(p, t, 0, SettingRunning, FulfillingSpawn);
    if t.prv == [] {
      q := Proceed(q, t, 0, FulfillingSpawn, Waiting(0));
    } else {
      q := Proceed(q, t, 0, FulfillingSpawn, ProvidingRunning(0));
      q := AnnounceRunning(q, t, 0);
    }
  }

  lemma Launch(p: Path, t: Task, i: nat) returns (q: Path)
    requires FirstAt(p, t, Spawning(i))
    ensures HasProcess(q, t, i, Waiting(i))
  {
    q := Go1(p, t, 0, Spawned(7));
    q := Go1(q, t, 0, Go);
    if i == 0 {
      q := Announce(q, t);
    }
  }

  lemma UpToReaping(p: Path, t: Task, i: nat) returns (q: Path)
    requires HasProcess(p, t, i, Waiting(i))
    ensures HasProcess(q, t, i, Reaping(i))
  {
    q := Proceed(p, t, i, Waiting(i), ClearingPid(i));
    q := Proceed(q, t, i, ClearingPid(i), Blocking(i));
    q := Proceed(q, t, i, Blocking(i), Reaping(i));
  }

  lemma Collect(p: Path, t: Task, i: nat) returns (q: Path)
    requires HasProcess(p, t, i, Waiting(i))
    ensures FirstAt(q, t, if i + 1 < t.cmds then Spawning(i + 1) else SettingDone)
  {
    q := UpToReaping(p, t, i);
    q := Go1(q, t, 0, Go);
    assert map[7 := Proc(0, i)] - {7} == map[];
  }

  /** All commands from the i-th on are started, succeed and are reaped. */
  lemma {:induction false} RunCommands(p: Path, t: Task, i: nat) returns (q: Path)
    requires i < t.cmds && FirstAt(p, t, Spawning(i))
    ensures FirstAt(q, t, SettingDone)
    decreases t.cmds - i
  {
    q := Launch(p, t, i);
    q := Collect(q, t, i);
    if i + 1 < t.cmds {
      q := RunCommands(q, t, i + 1);
    }
  }

  lemma FirstRead(t: Task) returns (p: Path)
    requires Loops(t)
    ensures FirstAt(p, t, Spawning(0))
  {
    p := FirstStart(t, Calm);
    p := Go1(p, t, 0, Go);
  }

  /** The first dispatcher has recorded that the task is done. */
  lemma FirstRound(t: Task) returns (p: Path)
    requires Loops(t)
    ensures FirstAt(p, t, FulfillingDone) && p.tasks[0].state == DONE && p.tasks[0].failCount == 0
  {
    p := FirstRead(t);
    p := RunCommands(p, t, 0);
    p := Go1(p, t, 0, Go);
  }

  /** The first of two dispatchers is at a point of its work. */
  ghost predicate FirstOfTwo(p: Path, t: Task, pc: Pc, second: Dispatcher) {
    Loops(t) && Alone(p, t, Calm) && |p.disp| == 2 && p.disp[0].pc == pc && p.disp[1] == second
  }

  lemma ProceedBeside(p: Path, t: Task, pc: Pc, second: Dispatcher, pc': Pc) returns (q: Path)
    requires FirstOfTwo(p, t, pc, second) && !pc.SettingFailed? && DispatcherEnabled(Last(p), p.disp[0], Go)
    requires pc' == NextPc(p.disp[0].(copy := t), Go)
    ensures FirstOfTwo(q, t, pc', second)
  {
    q := Go1(p, t, 0, Go);
  }

  lemma {:induction false} AnnounceDone(p: Path, t: Task, k: nat, second: Dispatcher) returns (q: Path)
    requires k < |t.prv| && FirstOfTwo(p, t, ProvidingDone(k), second)
    ensures FirstOfTwo(q, t, Exiting, second)
    decreases |t.prv| - k
  {
    if k + 1 < |t.prv| {
      q := ProceedBeside(p, t, ProvidingDone(k), second, ProvidingDone(k + 1));
      q := AnnounceDone(q, t, k + 1, second);
    } else {
      q := ProceedBeside(p, t, ProvidingDone(k), second, Exiting);
    }
  }

  /** The first of two dispatchers has announced its result and is about to rearm. */
  lemma Announced(p: Path, t: Task, second: Dispatcher) returns (q: Path)
    requires FirstOfTwo(p, t, FulfillingDone, second)
    ensures FirstOfTwo(q, t, Exiting, second)
  {
    if t.prv == [] {
      q := ProceedBeside(p, t, FulfillingDone, second, Exiting);
    } else {
      q := ProceedBeside(p, t, FulfillingDone, second, ProvidingDone(0));
      q := AnnounceDone(q, t, 0, second);
    }
  }

  /** Its rearming marks the task as merely loaded. */
  lemma Rearmed(p: Path, t: Task) returns (q: Path)
    requires Loops(t) && Alone(p, t, Calm) && |p.disp| == 2 && p.disp[0].pc == Exiting
    ensures Alone(q, t, Calm) && |q.disp| == 2 && q.disp[1] == p.disp[1] && q.tasks[0].state == LOADED
  {
    q := Go1(p, t, 0, Go);
  }

  /**
   * A pass respawns the task after its first dispatcher recorded it as done, that dispatcher then
   * rearms it, and the next pass starts it once more. Nothing fails in such a run.
   */
  lemma TwoAtWork(t: Task) returns (ss: seq<Sys>, ls: seq<Label>)
    requires Loops(t)
    ensures IsRun(ss, ls) && Initial(ss[0]) && ss[0].db.tasks == [t]
    ensures forall i :: 0 <= i < |ls| ==> CalmLabel(ls[i]) && (ls[i].Dispatch? ==> !ls[i].out.Fail?)
    ensures exists d, e :: 0 <= d < e < |ss[|ls|].disp|
              && AtWork(ss[|ls|].disp[d], t.name) && AtWork(ss[|ls|].disp[e], t.name)
  {
    var p := FirstRound(t);
    p := Again(p, t, Calm);
    p := Announced(p, t, p.disp[1]);
    p := Rearmed(p, t);
    p := Again(p, t, Calm);
    ss, ls := p.ss, p.ls;
    assert AtWork(ss[|ls|].disp[1], t.name) && AtWork(ss[|ls|].disp[2], t.name);
  }
}
