/**
 * Tasks that wait for each other in a closed circle never start, nor do tasks that wait for what
 * nobody can bring about.
 */
module ClosedWait {
  import opened Options
  import opened Tasks
  import opened DepLists
  import opened TaskDB
  import opened Scheduler

  predicate Offers(t: Task, feature: string) {
    exists k :: 0 <= k < |t.prv| && t.prv[k].name == feature
  }

  /** Running the task can fulfil the dependency: it is an event of the task or a feature it offers. */
  predicate Brings(t: Task, d: Dep) {
    || (d.name == t.name && (d.event == EVENT_SPAWN || d.event == EVENT_WAIT || d.event == EVENT_FAIL))
    || (d.name == PROVIDED && Offers(t, d.event))
  }

  /** The dependency can only be fulfilled by running a member of w, if at all. */
  ghost predicate Inward(tasks: seq<Task>, w: set<string>, d: Dep) {
    && d.name != TIMER && d.name != ELOS && d != CTL_ENABLE
    && forall i :: 0 <= i < |tasks| && tasks[i].name !in w ==> !Brings(tasks[i], d)
  }

  ghost predicate WaitsInside(tasks: seq<Task>, w: set<string>, t: Task) {
    exists d :: d in t.deps && Inward(tasks, w, d)
  }

  /** Every task of w waits for something that at most members of w can bring about. */
  ghost predicate Closed(tasks: seq<Task>, w: set<string>) {
    forall i :: 0 <= i < |tasks| && tasks[i].name in w ==> WaitsInside(tasks, w, tasks[i])
  }

  /** Passes, dispatchers, timer and elos events, ENABLE, DISABLE, KILL and the inhibition switches. */
  predicate QuietLabel(l: Label) {
    && (l.Begin? ==> l.kill)
    && (l.Command? ==>
          || l.op.AddDep? || l.op.RemoveDep? || l.op.SetSpawnInhibit? || l.op.SetRespawnInhibit?
          || (l.op.Fulfil? && (l.op.dep.name == TIMER || l.op.dep.name == ELOS)))
  }

  /** The dispatcher's task, or one of its name, has the features of the dispatcher's copy. */
  ghost predicate OwnedBy(x: Dispatcher, t: Task) {
    t.name == x.task && forall k :: 0 <= k < |x.copy.prv| ==> Offers(t, x.copy.prv[k].name)
  }

  /** A dispatcher of a non-member. */
  ghost predicate Outside(tasks: seq<Task>, w: set<string>, x: Dispatcher) {
    x.task !in w && x.mode.Start? && exists i :: 0 <= i < |tasks| && OwnedBy(x, tasks[i])
  }

  ghost predicate Inv(s: Sys, w: set<string>) {
    && UniqueNames(s.db.tasks)
    && NoStopPending(s.clients)
    && Closed(s.db.tasks, w)
    && (forall i :: 0 <= i < |s.db.tasks| && s.db.tasks[i].name in w ==> s.db.tasks[i].state == LOADED)
    && (forall d :: 0 <= d < |s.disp| ==> Outside(s.db.tasks, w, s.disp[d]))
  }

  /** The operation cannot touch the members' inward dependencies or their state. */
  ghost predicate Foreign(tasks: seq<Task>, w: set<string>, op: DbOp) {
    match op
    case Insert(_, _, _) => false
    case Rearm(n) => n !in w
    case SetState(n, _) => n !in w
    case RemoveDep(_, d) => !Inward(tasks, w, d)
    case Fulfil(d, _) => !Inward(tasks, w, d)
    case _ => true
  }

  /** The operations of a dispatcher outside w. */
  lemma OutsideIsForeign(tasks: seq<Task>, w: set<string>, x: Dispatcher)
    requires Outside(tasks, w, x) && DispatcherOp(x).Some?
    ensures Foreign(tasks, w, DispatcherOp(x).value)
  {
    var i :| 0 <= i < |tasks| && OwnedBy(x, tasks[i]);
    var op := DispatcherOp(x).value;
    if op.Fulfil? {
      assert Brings(tasks[i], op.dep);
    }
  }

  /** A member keeps its inward dependency and its state. */
  lemma ForeignKeeps(tasks: seq<Task>, w: set<string>, t: Task, op: DbOp)
    requires Foreign(tasks, w, op) && t.name in w && WaitsInside(tasks, w, t)
    ensures WaitsInside(tasks, w, Touch(t, op)) && Touch(t, op).state == t.state
  {
    var d :| d in t.deps && Inward(tasks, w, d);
    if op.Fulfil? || op.RemoveDep? {
      OthersKept(t.deps, op.dep, d, 0);
      CountBound(t.deps, d);
      CountBound(SwapRemove(t.deps, op.dep, 0), d);
    }
    assert d in Touch(t, op).deps;
  }

  /** Names and features never change, so what counts as inward does not either. */
  lemma InwardStays(tasks: seq<Task>, tasks': seq<Task>, w: set<string>, d: Dep)
    requires |tasks| == |tasks'|
    requires forall i :: 0 <= i < |tasks| ==> tasks'[i].name == tasks[i].name && tasks'[i].prv == tasks[i].prv
    requires Inward(tasks, w, d)
    ensures Inward(tasks', w, d)
  {
    forall i | 0 <= i < |tasks'| && tasks'[i].name !in w ensures !Brings(tasks'[i], d) {
      assert !Brings(tasks[i], d);
    }
  }

  lemma WaitsStays(tasks: seq<Task>, tasks': seq<Task>, w: set<string>, t: Task)
    requires |tasks| == |tasks'|
    requires forall i :: 0 <= i < |tasks| ==> tasks'[i].name == tasks[i].name && tasks'[i].prv == tasks[i].prv
    requires WaitsInside(tasks, w, t)
    ensures WaitsInside(tasks', w, t)
  {
    var d :| d in t.deps && Inward(tasks, w, d);
    InwardStays(tasks, tasks', w, d);
  }

  lemma OutsideStays(tasks: seq<Task>, tasks': seq<Task>, w: set<string>, x: Dispatcher)
    requires |tasks| == |tasks'|
    requires forall i :: 0 <= i < |tasks| ==> tasks'[i].name == tasks[i].name && tasks'[i].prv == tasks[i].prv
    requires Outside(tasks, w, x)
    ensures Outside(tasks', w, x)
  {
    var i :| 0 <= i < |tasks| && OwnedBy(x, tasks[i]);
    assert OwnedBy(x, tasks'[i]);
  }

  /** The operation of any step, if there is one, is foreign. */
  lemma StepIsForeign(s: Sys, l: Label, w: set<string>)
    requires Inv(s, w) && Enabled(s, l) && QuietLabel(l) && OpOf(s, l).Some?
    ensures Foreign(s.db.tasks, w, OpOf(s, l).value)
  {
    match l
    case Dispatch(d, _) =>
      OutsideIsForeign(s.db.tasks, w, s.disp[d]);
    case Command(op) =>
    case Continue(c, _) =>
    case _ =>
  }

  /** One task after a quiet step. */
  lemma StepTaskClosed(s: Sys, l: Label, w: set<string>, i: nat)
    requires Inv(s, w) && Enabled(s, l) && QuietLabel(l) && i < |s.db.tasks|
    ensures TaskAfter(s, l, i).name == s.db.tasks[i].name && TaskAfter(s, l, i).prv == s.db.tasks[i].prv
    ensures s.db.tasks[i].name in w ==>
              TaskAfter(s, l, i).state == LOADED && WaitsInside(s.db.tasks, w, TaskAfter(s, l, i))
  {
    var t := s.db.tasks[i];
    if OpOf(s, l).Some? {
      StepIsForeign(s, l, w);
      if t.name in w {
        ForeignKeeps(s.db.tasks, w, t, OpOf(s, l).value);
      }
    } else if t.name in w {
      assert WaitsInside(s.db.tasks, w, t);
    }
  }

  lemma StepLength(s: Sys, l: Label)
    requires Enabled(s, l) && QuietLabel(l)
    ensures |Next(s, l).db.tasks| == |s.db.tasks|
  {
    StepTasks(s, l);
  }

  /** New dispatchers are for non-members, because members are not ready. */
  lemma StartedOutside(s: Sys, failAt: nat, w: set<string>, a: nat)
    requires Inv(s, w) && a < |Pass(s.db, failAt).started|
    ensures Outside(s.db.tasks, w, NewDispatcher(Pass(s.db, failAt).started[a]))
  {
    var i := StartedOwner(s.db.tasks, PassEnd(s.db.tasks, failAt), a);
    MemberNotReady(s.db.tasks, w, i);
    assert OwnedBy(NewDispatcher(Pass(s.db, failAt).started[a]), s.db.tasks[i]);
  }

  lemma MemberNotReady(tasks: seq<Task>, w: set<string>, i: nat)
    requires Closed(tasks, w) && i < |tasks|
    ensures tasks[i].name in w ==> !IsReady(tasks[i])
  {
  }

  lemma StepDispClosed(s: Sys, l: Label, w: set<string>, d: nat)
    requires Inv(s, w) && Enabled(s, l) && QuietLabel(l) && d < |DispAfter(s, l)|
    ensures Outside(s.db.tasks, w, DispAfter(s, l)[d])
  {
    if l.RunPass? && d >= |s.disp| {
      StartedOutside(s, l.failAt, w, d - |s.disp|);
    } else if l.Dispatch? && l.d == d {
      CopyOutside(s, s.disp[d], l.out, w);
    }
  }

  lemma CopyOutside(s: Sys, x: Dispatcher, out: Outcome, w: set<string>)
    requires Outside(s.db.tasks, w, x) && DispatcherEnabled(s, x, out)
    ensures Outside(s.db.tasks, w, DispatcherAfter(s, x, out))
  {
    var y := DispatcherAfter(s, x, out);
    if x.pc.Copying? {
      var i :| 0 <= i < |s.db.tasks| && s.db.tasks[i] == Named(s.db.tasks, x.task);
      assert OwnedBy(y, s.db.tasks[i]);
    } else {
      var i :| 0 <= i < |s.db.tasks| && OwnedBy(x, s.db.tasks[i]);
      assert OwnedBy(y, s.db.tasks[i]);
    }
  }

  lemma NoStopStays(s: Sys, l: Label)
    requires Enabled(s, l) && QuietLabel(l) && NoStopPending(s.clients)
    ensures NoStopPending(Next(s, l).clients)
  {
  }

  lemma StepKeeps(s: Sys, l: Label, w: set<string>)
    requires Inv(s, w) && Enabled(s, l) && QuietLabel(l)
    ensures Inv(Next(s, l), w)
  {
    var s' := Next(s, l);
    StepNames(s, l);
    StepDisp(s, l);
    StepLength(s, l);
    NoStopStays(s, l);
    forall i | 0 <= i < |s'.db.tasks|
      ensures s'.db.tasks[i] == TaskAfter(s, l, i)
      ensures s'.db.tasks[i].name == s.db.tasks[i].name && s'.db.tasks[i].prv == s.db.tasks[i].prv
      ensures s.db.tasks[i].name in w ==> s'.db.tasks[i].state == LOADED && WaitsInside(s.db.tasks, w, s'.db.tasks[i])
    {
      StepTask(s, l, i);
      StepTaskClosed(s, l, w, i);
    }
    forall i | 0 <= i < |s'.db.tasks| && s'.db.tasks[i].name in w ensures WaitsInside(s'.db.tasks, w, s'.db.tasks[i]) {
      WaitsStays(s.db.tasks, s'.db.tasks, w, s'.db.tasks[i]);
    }
    forall d | 0 <= d < |s'.disp| ensures Outside(s'.db.tasks, w, s'.disp[d]) {
      StepDispClosed(s, l, w, d);
      OutsideStays(s.db.tasks, s'.db.tasks, w, s'.disp[d]);
    }
  }

  lemma {:induction false} RunKeeps(ss: seq<Sys>, ls: seq<Label>, w: set<string>, k: nat)
    requires IsRun(ss, ls) && Initial(ss[0]) && Closed(ss[0].db.tasks, w) && k <= |ls|
    requires forall i :: 0 <= i < |ls| ==> QuietLabel(ls[i])
    ensures Inv(ss[k], w)
  {
    if k > 0 {
      RunKeeps(ss, ls, w, k - 1);
      assert StepAt(ss, ls, k - 1);
      StepKeeps(ss[k - 1], ls[k - 1], w);
    }
  }

  /**
   * Closed wait sets never start: along every quiet run each member is still merely loaded, has
   * no dispatcher, and is started by no pass.
   */
  lemma ClosedWaitSets(ss: seq<Sys>, ls: seq<Label>, w: set<string>, k: nat, t: Task)
    requires IsRun(ss, ls) && Initial(ss[0]) && Closed(ss[0].db.tasks, w) && k <= |ls|
    requires forall i :: 0 <= i < |ls| ==> QuietLabel(ls[i])
    requires t in ss[k].db.tasks && t.name in w
    ensures t.state == LOADED && !IsReady(t)
    ensures forall d :: 0 <= d < |ss[k].disp| ==> ss[k].disp[d].task != t.name
    ensures k < |ls| ==> !Starts(ss[k], ls[k], t.name)
  {
    RunKeeps(ss, ls, w, k);
    var tasks := ss[k].db.tasks;
    var j :| 0 <= j < |tasks| && tasks[j] == t;
    MemberNotReady(tasks, w, j);
    if k < |ls| && ls[k].RunPass? {
      StartedExactly(tasks, PassEnd(tasks, ls[k].failAt), t.name);
      assert forall i :: 0 <= i < |tasks| && tasks[i].name == t.name ==> i == j;
    }
  }
}
