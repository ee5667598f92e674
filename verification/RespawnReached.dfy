/**
 * The respawn bound is reached: every respawning task with n retries that waits for nothing has a
 * run in which it is started n + 1 times, each time in vain.
 */
module RespawnReached {
  import opened Options
  import opened Tasks
  import opened TaskDB
  import opened Scheduler
  import opened RespawnBound
  import Single = SingleDispatcher
  import opened Solo
  import opened Walk

  /** The main loop and dispatchers, none of which records success. */
  predicate InVain(s: Sys, l: Label) {
    match l
    case RunPass(_) => true
    case MainWait => true
    case MainSpurious => true
    case Dispatch(d, _) => d < |s.disp| && !s.disp[d].pc.SettingDone?
    case _ => false
  }

  predicate Retries(t: Task, n: int) {
    Free(t) && Limited(t, n) && n >= 0
  }

  /** Where the dispatcher at work stands, and the task with it. */
  datatype Point = Point(pc: Pc, pid: int, procs: map<int, Proc>, state: TaskState, fails: int)

  function NextPoint(t: Task, d: nat, w: Point, out: Outcome): Point {
    Point(NextPc(Dispatcher(t.name, Start, t, w.pid, w.pc), out),
          if out.Spawned? && w.pc.Spawning? then out.pid else w.pid,
          if w.pc.Spawning? && out.Spawned? then w.procs[out.pid := Proc(d, w.pc.i)]
          else if w.pc.Reaping? || w.pc.ReapingFailed? then w.procs - {w.pid}
          else w.procs,
          if w.pc.SettingRunning? then RUNNING else if w.pc.SettingFailed? then FAILED else w.state,
          if w.pc.SettingFailed? then w.fails + 1 else w.fails)
  }

  /** The last dispatcher is at work and the ones before it have finished. */
  ghost predicate Worker(p: Path, t: Task, n: int, d: nat, w: Point) {
    && Retries(t, n) && Alone(p, t, InVain) && |p.disp| == d + 1
    && (forall e :: 0 <= e < d ==> p.disp[e].pc == Finished)
    && p.disp[d].pc == w.pc && p.disp[d].pid == w.pid && p.procs == w.procs
    && p.tasks[0].state == w.state && p.tasks[0].failCount == w.fails
  }

  lemma TaskAt(t: Task, u: Task, x: Dispatcher)
    requires Free(t) && !t.rearm && Like(t, u) && WorksFor(t, x) && !x.pc.SettingDone?
    ensures var u' := Single.TouchIf(u, DispatcherOp(x));
            && u'.state == (if x.pc.SettingRunning? then RUNNING else if x.pc.SettingFailed? then FAILED else u.state)
            && u'.failCount == (if x.pc.SettingFailed? then u.failCount + 1 else u.failCount)
  {
  }

  lemma Move(p: Path, t: Task, n: int, d: nat, w: Point, out: Outcome, w': Point) returns (q: Path)
    requires Worker(p, t, n, d, w) && DispatcherEnabled(Last(p), p.disp[d], out) && !w.pc.SettingDone?
    requires w' == NextPoint(t, d, w, out)
    ensures Worker(q, t, n, d, w')
  {
    TaskAt(t, p.tasks[0], p.disp[d]);
    q := Step(p, t, InVain, d, out);
  }

  /** The first command has been started as process 7. */
  lemma Launch(p: Path, t: Task, n: int, d: nat, m: int) returns (q: Path)
    requires Worker(p, t, n, d, Point(Copying, -1, map[], STARTING, m))
    ensures Worker(q, t, n, d, Point(FulfillingSpawn, 7, map[7 := Proc(d, 0)], RUNNING, m))
  {
    assert p.tasks[0].name == t.name;
    var w := Point(Copying, -1, map[], STARTING, m);
    q := Move(p, t, n, d, w, Go, w.(pc := Spawning(0)));
    var v := w.(pc := SettingPid(0), pid := 7, procs := map[7 := Proc(d, 0)]);
    q := Move(q, t, n, d, w.(pc := Spawning(0)), Spawned(7), v);
    q := Move(q, t, n, d, v, Go, v.(pc := SettingRunning));
    q := Move(q, t, n, d, v.(pc := SettingRunning), Go, v.(pc := FulfillingSpawn, state := RUNNING));
  }

  lemma {:induction false} AnnounceRunning(p: Path, t: Task, n: int, d: nat, w: Point, k: nat) returns (q: Path)
    requires k < |t.prv| && w.pc == ProvidingRunning(k) && Worker(p, t, n, d, w)
    ensures Worker(q, t, n, d, w.(pc := Waiting(0)))
    decreases |t.prv| - k
  {
    if k + 1 < |t.prv| {
      q := Move(p, t, n, d, w, Go, w.(pc := ProvidingRunning(k + 1)));
      q := AnnounceRunning(q, t, n, d, w.(pc := ProvidingRunning(k + 1)), k + 1);
    } else {
      q := Move(p, t, n, d, w, Go, w.(pc := Waiting(0)));
    }
  }

  lemma {:induction false} AnnounceFailed(p: Path, t: Task, n: int, d: nat, w: Point, k: nat) returns (q: Path)
    requires k < |t.prv| && w.pc == ProvidingFailed(k) && Worker(p, t, n, d, w)
    ensures Worker(q, t, n, d, w.(pc := Exiting))
    decreases |t.prv| - k
  {
    if k + 1 < |t.prv| {
      q := Move(p, t, n, d, w, Go, w.(pc := ProvidingFailed(k + 1)));
      q := AnnounceFailed(q, t, n, d, w.(pc := ProvidingFailed(k + 1)), k + 1);
    } else {
      q := Move(p, t, n, d, w, Go, w.(pc := Exiting));
    }
  }

  lemma Awaited(p: Path, t: Task, n: int, d: nat, w: Point) returns (q: Path)
    requires w.pc == FulfillingSpawn && Worker(p, t, n, d, w)
    ensures Worker(q, t, n, d, w.(pc := Waiting(0)))
  {
    if t.prv == [] {
      q := Move(p, t, n, d, w, Go, w.(pc := Waiting(0)));
    } else {
      q := Move(p, t, n, d, w, Go, w.(pc := ProvidingRunning(0)));
      q := AnnounceRunning(q, t, n, d, w.(pc := ProvidingRunning(0)), 0);
    }
  }

  /** It is waited for and fails. */
  lemma Fails(p: Path, t: Task, n: int, d: nat, w: Point) returns (q: Path)
    requires w.pc == FulfillingSpawn && Worker(p, t, n, d, w)
    ensures Worker(q, t, n, d, w.(pc := ClearingPidFailed, state := FAILED, fails := w.fails + 1))
  {
    q := Awaited(p, t, n, d, w);
    q := Move(q, t, n, d, w.(pc := Waiting(0)), Fail, w.(pc := SettingFailed));
    q := Move(q, t, n, d, w.(pc := SettingFailed), Go,
              w.(pc := ClearingPidFailed, state := FAILED, fails := w.fails + 1));
  }

  /** It is reaped. */
  lemma Reaped(p: Path, t: Task, n: int, d: nat, w: Point) returns (q: Path)
    requires w.pc == ClearingPidFailed && w.pid == 7 && w.procs == map[7 := Proc(d, 0)] && Worker(p, t, n, d, w)
    ensures Worker(q, t, n, d, w.(pc := FulfillingFailed, procs := map[]))
  {
    q := Move(p, t, n, d, w, Go, w.(pc := BlockingFailed));
    q := Move(q, t, n, d, w.(pc := BlockingFailed), Go, w.(pc := ReapingFailed));
    assert map[7 := Proc(d, 0)] - {7} == map[];
    q := Move(q, t, n, d, w.(pc := ReapingFailed), Go, w.(pc := FulfillingFailed, procs := map[]));
  }

  lemma Ends(p: Path, t: Task, n: int, d: nat, w: Point) returns (q: Path)
    requires w.pc == FulfillingFailed && Worker(p, t, n, d, w)
    ensures Worker(q, t, n, d, w.(pc := Finished))
  {
    if t.prv == [] {
      q := Move(p, t, n, d, w, Go, w.(pc := Exiting));
    } else {
      q := Move(p, t, n, d, w, Go, w.(pc := ProvidingFailed(0)));
      q := AnnounceFailed(q, t, n, d, w.(pc := ProvidingFailed(0)), 0);
    }
    q := Move(q, t, n, d, w.(pc := Exiting), Go, w.(pc := Finished));
  }

  /** All dispatchers have finished and the task has failed m times. */
  ghost predicate Rested(p: Path, t: Task, n: int, d: nat, m: int) {
    exists pid :: Worker(p, t, n, d, Point(Finished, pid, map[], FAILED, m))
  }

  lemma Tried(p: Path, t: Task, n: int, d: nat, m: int) returns (q: Path)
    requires Worker(p, t, n, d, Point(Copying, -1, map[], STARTING, m))
    ensures Worker(q, t, n, d, Point(ClearingPidFailed, 7, map[7 := Proc(d, 0)], FAILED, m + 1))
  {
    q := Launch(p, t, n, d, m);
    q := Fails(q, t, n, d, Point(FulfillingSpawn, 7, map[7 := Proc(d, 0)], RUNNING, m));
  }

  lemma Attempt(p: Path, t: Task, n: int, d: nat, m: int) returns (q: Path)
    requires Worker(p, t, n, d, Point(Copying, -1, map[], STARTING, m))
    ensures Rested(q, t, n, d, m + 1)
  {
    q := Tried(p, t, n, d, m);
    q := Reaped(q, t, n, d, Point(ClearingPidFailed, 7, map[7 := Proc(d, 0)], FAILED, m + 1));
    q := Ends(q, t, n, d, Point(FulfillingFailed, 7, map[], FAILED, m + 1));
    assert Worker(q, t, n, d, Point(Finished, 7, map[], FAILED, m + 1));
  }

  lemma Retried(p: Path, t: Task, n: int, d: nat, m: int) returns (q: Path)
    requires Rested(p, t, n, d, m) && m <= n
    ensures Rested(q, t, n, d + 1, m + 1)
  {
    q := Again(p, t, InVain);
    assert Worker(q, t, n, d + 1, Point(Copying, -1, map[], STARTING, m));
    q := Attempt(q, t, n, d + 1, m);
  }

  /** The task has been started and has failed m + 1 times. */
  lemma {:induction false} Failing(t: Task, n: int, m: nat) returns (p: Path)
    requires Retries(t, n) && m <= n
    ensures Rested(p, t, n, m, m + 1)
  {
    if m == 0 {
      p := FirstStart(t, InVain);
      p := Attempt(p, t, n, 0, 0);
    } else {
      p := Failing(t, n, m - 1);
      p := Retried(p, t, n, m - 1, m);
    }
  }

  /** What such a run is for the counting of attempts. */
  lemma CountedRun(p: Path, t: Task, n: int, d: nat, m: int)
    requires Rested(p, t, n, d, m)
    ensures RetryRun(p.ss, p.ls, t.name) && NoSuccess(p.ss, p.ls, t.name, 0, |p.ls|)
    ensures StartCount(p.ss, p.ls, t.name, 0, |p.ls|) == m && FailureCount(p.ss, p.ls, t.name, 0, |p.ls|) == m
  {
    forall k | 0 <= k < |p.ls| ensures !Records(p.ss[k], p.ls[k], t.name, DONE) && RetryLabel(p.ls[k], t.name) {
      assert InVain(p.ss[k], p.ls[k]);
    }
    RunInv(p.ss, p.ls, 0, 0, t.name, n);
    RunAttempts(p.ss, p.ls, 0, 0, |p.ls|, t.name, n);
    assert !Working(p.disp, t.name);
  }

  /**
   * For every respawning task with commands and n retries, without dependencies, triggers and
   * rearming, there is a run of the main loop and dispatchers alone in which it is started n + 1
   * times and fails each time.
   */
  lemma BoundIsReached(t: Task, n: int) returns (ss: seq<Sys>, ls: seq<Label>)
    requires Free(t) && Limited(t, n) && n >= 0
    ensures RetryRun(ss, ls, t.name) && ss[0].db.tasks == [t] && NoSuccess(ss, ls, t.name, 0, |ls|)
    ensures forall i :: 0 <= i < |ls| ==> !ls[i].Command? && !ls[i].Begin? && !ls[i].Continue?
    ensures StartCount(ss, ls, t.name, 0, |ls|) == n + 1 && FailureCount(ss, ls, t.name, 0, |ls|) == n + 1
  {
    var p := Failing(t, n, n);
    CountedRun(p, t, n, n, n + 1);
    ss, ls := p.ss, p.ls;
    forall i | 0 <= i < |ls| ensures !ls[i].Command? && !ls[i].Begin? && !ls[i].Continue? {
      assert InVain(ss[i], ls[i]);
    }
  }
}
