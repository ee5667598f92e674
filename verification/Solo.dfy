/**
 * Runs of a system with one task that waits for nothing.
 */
module Solo {
  import opened Options
  import opened Tasks
  import opened TaskDB
  import opened Scheduler
  import Single = SingleDispatcher
  import opened Walk

  /** A task as the configuration reader accepts it, with commands and free to start. */
  predicate Free(t: Task) {
    FreshTask(t) && t.deps == [] && t.trig == [] && t.cmds > 0
  }

  /** The task as loaded, in whatever state. */
  predicate Like(t: Task, u: Task) {
    u == t.(state := u.state, pid := u.pid, failCount := u.failCount)
  }

  predicate WorksFor(t: Task, x: Dispatcher) {
    x.task == t.name && x.mode.Start? && (!x.pc.Copying? ==> Like(t, x.copy))
  }

  /** The last state of a path through a system with this one task. */
  ghost predicate Alone(p: Path, t: Task, allow: (Sys, Label) -> bool) {
    && IsPath(p, allow) && p.ss[0].db.tasks == [t] && Free(t) && |p.tasks| == 1 && Like(t, p.tasks[0]) && !p.inhibit
    && forall d :: 0 <= d < |p.disp| ==> WorksFor(t, p.disp[d])
  }

  lemma StaysLike(t: Task, u: Task, op: DbOp)
    requires Free(t) && Like(t, u) && (op.SetPid? || op.Fulfil? || op.Rearm? || op.SetState?)
    ensures Like(t, Touch(u, op))
  {
  }

  /** The next step of a dispatcher. */
  lemma Step(p: Path, t: Task, allow: (Sys, Label) -> bool, d: nat, out: Outcome) returns (q: Path)
    requires Alone(p, t, allow) && d < |p.disp| && DispatcherEnabled(Last(p), p.disp[d], out)
    requires allow(Last(p), Dispatch(d, out))
    ensures Alone(q, t, allow)
    ensures q.tasks == [Single.TouchIf(p.tasks[0], DispatcherOp(p.disp[d]))]
    ensures d < |q.disp| && q.disp == p.disp[d := q.disp[d]] && q.procs == ProcsAfter(Last(p), d, out)
    ensures var x := p.disp[d];
            && q.disp[d].pc == NextPc(x.(copy := t), out)
            && q.disp[d].pid == if out.Spawned? && x.pc.Spawning? then out.pid else x.pid
  {
    var x := p.disp[d];
    q := Act(p, allow, d, out);
    if DispatcherOp(x).Some? {
      StaysLike(t, p.tasks[0], DispatcherOp(x).value);
    }
    if x.pc.Copying? {
      assert Named(p.tasks, x.task) == p.tasks[0];
    }
  }

  lemma FirstStart(t: Task, allow: (Sys, Label) -> bool) returns (p: Path)
    requires Free(t) && forall s, l: Label :: l.RunPass? ==> allow(s, l)
    ensures Alone(p, t, allow) && p.disp == [NewDispatcher(t.name)] && p.procs == map[]
    ensures p.tasks == [t.(state := STARTING)]
  {
    OneReady(t);
    p := FirstPass([t], [], allow);
  }

  /** A pass starts the task again and adds a dispatcher. */
  lemma Again(p: Path, t: Task, allow: (Sys, Label) -> bool) returns (q: Path)
    requires Alone(p, t, allow) && IsReady(p.tasks[0])
    requires forall s, l: Label :: l.RunPass? || l.MainWait? || l.MainSpurious? ==> allow(s, l)
    ensures Alone(q, t, allow) && q.disp == p.disp + [NewDispatcher(t.name)] && q.procs == p.procs
    ensures q.tasks == [p.tasks[0].(state := STARTING)]
  {
    assert p.tasks == [p.tasks[0]];
    OneReady(p.tasks[0]);
    q := NextPass(p, allow);
  }
}
