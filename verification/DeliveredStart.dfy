/**
 * The other half of causal start: a task that has been given all it waits for is started by the
 * next pass that can start tasks; and what the two inhibitions hold back is not.
 */
module DeliveredStart {
  import opened Options
  import opened Tasks
  import opened DepLists
  import opened TaskDB
  import opened Scheduler
  import opened CausalStart

  /** The operation takes the named task out of its wait: new state, new dependency, rearming, replacement. */
  predicate Disturbs(op: DbOp, name: string) {
    match op
    case Insert(t, overwrite, _) => overwrite && t.name == name
    case Rearm(n) => n == name
    case SetState(n, _) => n == name
    case SetRespawnInhibit(n, inhibit) => n == name && inhibit
    case AddDep(n, _) => n == name
    case _ => false
  }

  predicate StepDisturbs(s: Sys, l: Label, name: string) {
    Enabled(s, l) && OpOf(s, l).Some? && Disturbs(OpOf(s, l).value, name)
  }

  /** Task t as u: still merely loaded and waiting for no more than before. */
  ghost predicate Still(t: Task, u: Task) {
    && u.name == t.name && u.state == LOADED && u.trig == t.trig && (t.triggered ==> u.triggered)
    && !(u.respawn && u.inhibitRespawn)
    && NoDuplicates(u.deps) && forall d :: d in u.deps ==> d in t.deps
  }

  lemma StaysStill(t: Task, u: Task, op: DbOp)
    requires Still(t, u) && !Disturbs(op, t.name)
    ensures Still(t, Touch(u, op))
    ensures forall d :: d in Touch(u, op).deps ==> d in u.deps
    ensures u.triggered ==> Touch(u, op).triggered
  {
    if Receives(u, op) {
      RemovalOnSets(u.deps, op.dep);
    }
  }

  /** A delivered event is no longer waited for, and fires if it is a trigger. */
  lemma DeliveryCounts(t: Task, u: Task, op: DbOp, d: Dep)
    requires Still(t, u) && Delivers(op, t.name, d)
    ensures d !in Touch(u, op).deps && (d in t.trig ==> Touch(u, op).triggered)
  {
    RemovalOnSets(u.deps, d);
  }

  /** Task t, in the database since state j, as it is at state m: what was delivered has taken effect. */
  ghost predicate WaitsOn(ss: seq<Sys>, ls: seq<Label>, j: nat, m: nat, t: Task, u: Task)
    requires m <= |ls| && |ss| == |ls| + 1
  {
    && Still(t, u)
    && forall n, d :: j <= n < m && StepDelivers(ss[n], ls[n], t.name, d) ==>
         d !in u.deps && (d in t.trig ==> u.triggered)
  }

  /** A step that does not disturb the task and does not start it. */
  lemma StepStill(s: Sys, l: Label, i: nat, t: Task)
    requires Enabled(s, l) && UniqueNames(s.db.tasks) && i < |s.db.tasks| && Still(t, s.db.tasks[i])
    requires !StepDisturbs(s, l, t.name) && !Starts(s, l, t.name)
    ensures
      var u, u' := s.db.tasks[i], TaskAfter(s, l, i);
      && Still(t, u') && (forall d :: d in u'.deps ==> d in u.deps) && (u.triggered ==> u'.triggered)
      && forall d :: StepDelivers(s, l, t.name, d) ==> d !in u'.deps && (d in t.trig ==> u'.triggered)
  {
    var u := s.db.tasks[i];
    if l.RunPass? {
      if !s.db.spawnInhibit && IsReady(u) && i < PassEnd(s.db.tasks, l.failAt) {
        ReadyIsStarted(s, l, i);
      }
    } else if OpOf(s, l).Some? {
      var op := OpOf(s, l).value;
      StaysStill(t, u, op);
      forall d | StepDelivers(s, l, t.name, d)
        ensures d !in Touch(u, op).deps && (d in t.trig ==> Touch(u, op).triggered)
      {
        DeliveryCounts(t, u, op, d);
      }
    }
  }

  ghost predicate StartedIn(ss: seq<Sys>, ls: seq<Label>, j: nat, m: nat, name: string)
    requires m <= |ls| && |ss| == |ls| + 1
  {
    exists p :: j <= p < m && Starts(ss[p], ls[p], name)
  }

  ghost predicate DeliveredIn(ss: seq<Sys>, ls: seq<Label>, j: nat, m: nat, name: string, d: Dep)
    requires m <= |ls| && |ss| == |ls| + 1
  {
    exists n :: j <= n < m && StepDelivers(ss[n], ls[n], name, d)
  }

  lemma {:induction false} WaitRun(ss: seq<Sys>, ls: seq<Label>, i: nat, t: Task, j: nat, m: nat)
    requires IsRun(ss, ls) && j <= m <= |ls| && UniqueNames(ss[j].db.tasks)
    requires i < |ss[j].db.tasks| && ss[j].db.tasks[i] == t && Still(t, t)
    requires forall n :: j <= n < m ==> !StepDisturbs(ss[n], ls[n], t.name)
    requires !StartedIn(ss, ls, j, m, t.name)
    ensures UniqueNames(ss[m].db.tasks) && i < |ss[m].db.tasks|
    ensures WaitsOn(ss, ls, j, m, t, ss[m].db.tasks[i])
    decreases m
  {
    if j < m {
      var s, l := ss[m - 1], ls[m - 1];
      assert !Starts(s, l, t.name);
      assert !StartedIn(ss, ls, j, m - 1, t.name);
      WaitRun(ss, ls, i, t, j, m - 1);
      assert StepAt(ss, ls, m - 1);
      StepNames(s, l);
      StepTask(s, l, i);
      StepStill(s, l, i, t);
    }
  }

  /**
   * A loaded task whose dependencies were all delivered, and one of its triggers if it has to be
   * triggered, has been started once a full pass is over, unless a command or a rearming
   * disturbed it in between.
   */
  lemma DeliveredIsStarted(ss: seq<Sys>, ls: seq<Label>, j: nat, k: nat, t: Task)
    requires IsRun(ss, ls) && UniqueNames(ss[0].db.tasks) && j <= k < |ls| && t in ss[j].db.tasks
    requires t.state == LOADED && NoDuplicates(t.deps) && !(t.respawn && t.inhibitRespawn)
    requires forall d :: d in t.deps ==> DeliveredIn(ss, ls, j, k, t.name, d)
    requires t.triggered || exists d :: d in t.trig && DeliveredIn(ss, ls, j, k, t.name, d)
    requires forall n :: j <= n < k ==> !StepDisturbs(ss[n], ls[n], t.name)
    requires FullPass(ss[k], ls[k])
    ensures StartedIn(ss, ls, j, k + 1, t.name)
  {
    RunNames(ss, ls, j);
    var i :| 0 <= i < |ss[j].db.tasks| && ss[j].db.tasks[i] == t;
    if !StartedIn(ss, ls, j, k, t.name) {
      WaitRun(ss, ls, i, t, j, k);
      NothingAwaited(ss, ls, j, k, t, ss[k].db.tasks[i]);
      ReadyIsStarted(ss[k], ls[k], i);
    }
  }

  lemma NoneIn(deps: seq<Dep>)
    ensures (forall d :: d !in deps) ==> deps == []
  {
    if deps != [] {
      assert deps[0] in deps;
    }
  }

  lemma NothingAwaited(ss: seq<Sys>, ls: seq<Label>, j: nat, k: nat, t: Task, u: Task)
    requires |ss| == |ls| + 1 && k <= |ls| && WaitsOn(ss, ls, j, k, t, u)
    requires forall d :: d in t.deps ==> DeliveredIn(ss, ls, j, k, t.name, d)
    requires t.triggered || exists d :: d in t.trig && DeliveredIn(ss, ls, j, k, t.name, d)
    ensures IsReady(u)
  {
    forall d | d in t.deps ensures d !in u.deps {
      assert DeliveredIn(ss, ls, j, k, t.name, d);
    }
    NoneIn(u.deps);
    if !t.triggered {
      var d :| d in t.trig && DeliveredIn(ss, ls, j, k, t.name, d);
      var n :| j <= n < k && StepDelivers(ss[n], ls[n], t.name, d);
    }
  }

  // ---- what holds a task back ----

  /** The step lifts the inhibition of passes. */
  predicate LiftsInhibition(l: Label) {
    l.Command? && l.op == SetSpawnInhibit(false)
  }

  lemma InhibitionStays(s: Sys, l: Label)
    requires Enabled(s, l) && s.db.spawnInhibit && !LiftsInhibition(l)
    ensures Next(s, l).db.spawnInhibit
  {
    StepTasks(s, l);
  }

  /** From the step that inhibits passes to the one that lets them go on, no task is started. */
  lemma {:induction false} InhibitedStartsNothing(ss: seq<Sys>, ls: seq<Label>, j: nat, k: nat, name: string)
    requires IsRun(ss, ls) && j < k <= |ls| && ls[j] == Command(SetSpawnInhibit(true))
    requires forall m :: j < m < k ==> !LiftsInhibition(ls[m])
    ensures ss[k].db.spawnInhibit && (k < |ls| ==> !Starts(ss[k], ls[k], name))
    decreases k
  {
    assert StepAt(ss, ls, k - 1);
    if j < k - 1 {
      InhibitedStartsNothing(ss, ls, j, k - 1, name);
      InhibitionStays(ss[k - 1], ls[k - 1]);
    }
  }

  /** The operation clears the respawn inhibition of the named task. */
  predicate Frees(op: DbOp, name: string) {
    op == SetRespawnInhibit(name, false) || (op.Insert? && op.overwrite && op.t.name == name)
  }

  predicate StepFrees(s: Sys, l: Label, name: string) {
    Enabled(s, l) && OpOf(s, l).Some? && Frees(OpOf(s, l).value, name)
  }

  predicate HeldBack(t: Task) {
    t.respawn && t.inhibitRespawn
  }

  lemma StaysHeldBack(s: Sys, l: Label, i: nat)
    requires Enabled(s, l) && i < |s.db.tasks| && HeldBack(s.db.tasks[i]) && !StepFrees(s, l, s.db.tasks[i].name)
    ensures HeldBack(TaskAfter(s, l, i))
  {
  }

  lemma {:induction false} HeldRun(ss: seq<Sys>, ls: seq<Label>, i: nat, j: nat, k: nat)
    requires IsRun(ss, ls) && j <= k <= |ls| && UniqueNames(ss[j].db.tasks)
    requires i < |ss[j].db.tasks| && HeldBack(ss[j].db.tasks[i])
    requires forall m :: j <= m < k ==> !StepFrees(ss[m], ls[m], ss[j].db.tasks[i].name)
    ensures UniqueNames(ss[k].db.tasks) && i < |ss[k].db.tasks| && HeldBack(ss[k].db.tasks[i])
    ensures ss[k].db.tasks[i].name == ss[j].db.tasks[i].name
    decreases k
  {
    if j < k {
      HeldRun(ss, ls, i, j, k - 1);
      assert StepAt(ss, ls, k - 1);
      StepNames(ss[k - 1], ls[k - 1]);
      StepTask(ss[k - 1], ls[k - 1], i);
      StaysHeldBack(ss[k - 1], ls[k - 1], i);
    }
  }

  /**
   * A respawning task that STOP has marked at step j is not started again, by respawn or otherwise,
   * until a command takes the mark away or a new task replaces it.
   */
  lemma MarkedIsNotStarted(ss: seq<Sys>, ls: seq<Label>, i: nat, j: nat, k: nat, name: string)
    requires IsRun(ss, ls) && UniqueNames(ss[0].db.tasks) && j < k < |ls|
    requires Enabled(ss[j], ls[j]) && OpOf(ss[j], ls[j]) == Some(SetRespawnInhibit(name, true))
    requires i < |ss[j].db.tasks| && ss[j].db.tasks[i].name == name && ss[j].db.tasks[i].respawn
    requires forall m :: j < m < k ==> !StepFrees(ss[m], ls[m], name)
    ensures !Starts(ss[k], ls[k], name)
  {
    RunNames(ss, ls, j);
    RunNames(ss, ls, j + 1);
    assert StepAt(ss, ls, j);
    StepTask(ss[j], ls[j], i);
    HeldRun(ss, ls, i, j + 1, k);
    if Starts(ss[k], ls[k], name) {
      StartedIsReady(ss[k], ls[k], i);
    }
  }
}
