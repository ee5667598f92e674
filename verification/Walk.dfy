/**
 * Building concrete runs step by step, for systems whose main loop is between its pass and its
 * wait. `allow` says which steps the run may take.
 */
module Walk {
  import opened Options
  import opened Tasks
  import opened TaskDB
  import opened Scheduler

  ghost predicate AllowedRun(ss: seq<Sys>, ls: seq<Label>, allow: (Sys, Label) -> bool) {
    IsRun(ss, ls) && Initial(ss[0]) && forall i :: 0 <= i < |ls| ==> allow(ss[i], ls[i])
  }

  lemma Extend(ss: seq<Sys>, ls: seq<Label>, allow: (Sys, Label) -> bool, l: Label)
    returns (ss': seq<Sys>, ls': seq<Label>)
    requires AllowedRun(ss, ls, allow) && Enabled(ss[|ls|], l) && allow(ss[|ls|], l)
    ensures AllowedRun(ss', ls', allow) && ss'[|ls'|] == Next(ss[|ls|], l) && ss'[0] == ss[0]
    ensures ls' == ls + [l] && |ss'| == |ls'| + 1
  {
    ss', ls' := ss + [Next(ss[|ls|], l)], ls + [l];
    forall i | 0 <= i < |ls'| ensures StepAt(ss', ls', i) && allow(ss'[i], ls'[i]) {
      if i < |ls| {
        assert StepAt(ss, ls, i);
      }
    }
  }

  /** A run together with the parts of its last state. */
  datatype Path = Path(ss: seq<Sys>, ls: seq<Label>, tasks: seq<Task>, disp: seq<Dispatcher>,
                       procs: map<int, Proc>, inhibit: bool, clients: seq<Client>)

  function Last(p: Path): Sys {
    Sys(Db(p.tasks, false), Gap, p.disp, p.procs, p.inhibit, p.clients)
  }

  ghost predicate IsPath(p: Path, allow: (Sys, Label) -> bool) {
    AllowedRun(p.ss, p.ls, allow) && p.ss[|p.ls|] == Last(p)
  }

  function TouchedBy(tasks: seq<Task>, op: Option<DbOp>): seq<Task> {
    if op.Some? then TouchAll(tasks, op.value) else tasks
  }

  /** A dispatcher takes its next step. */
  lemma Act(p: Path, allow: (Sys, Label) -> bool, d: nat, out: Outcome) returns (q: Path)
    requires IsPath(p, allow) && d < |p.disp| && DispatcherEnabled(Last(p), p.disp[d], out)
    requires allow(Last(p), Dispatch(d, out))
    ensures IsPath(q, allow) && q.ss[0] == p.ss[0]
    ensures q == p.(ss := q.ss, ls := q.ls, tasks := TouchedBy(p.tasks, DispatcherOp(p.disp[d])),
                    disp := p.disp[d := DispatcherAfter(Last(p), p.disp[d], out)],
                    procs := ProcsAfter(Last(p), d, out))
  {
    var ss, ls := Extend(p.ss, p.ls, allow, Dispatch(d, out));
    q := p.(ss := ss, ls := ls, tasks := TouchedBy(p.tasks, DispatcherOp(p.disp[d])),
            disp := p.disp[d := DispatcherAfter(Last(p), p.disp[d], out)],
            procs := ProcsAfter(Last(p), d, out));
  }

  /** A dispatcher that has read its task goes on. */
  lemma GoOn(p: Path, allow: (Sys, Label) -> bool, d: nat, out: Outcome) returns (q: Path)
    requires IsPath(p, allow) && d < |p.disp| && !p.disp[d].pc.Copying?
    requires DispatcherEnabled(Last(p), p.disp[d], out) && allow(Last(p), Dispatch(d, out))
    ensures IsPath(q, allow) && q.ss[0] == p.ss[0] && q.inhibit == p.inhibit && q.clients == p.clients
    ensures q.tasks == TouchedBy(p.tasks, DispatcherOp(p.disp[d])) && q.procs == ProcsAfter(Last(p), d, out)
    ensures var x := p.disp[d];
            q.disp == p.disp[d := x.(pc := NextPc(x, out), pid := if out.Spawned? then out.pid else x.pid)]
  {
    q := Act(p, allow, d, out);
  }

  function Passed(tasks: seq<Task>): seq<Task> {
    Pass(Db(tasks, false), |tasks|).db.tasks
  }

  /** The daemon loads its tasks and makes its first pass. */
  lemma FirstPass(tasks: seq<Task>, clients: seq<Client>, allow: (Sys, Label) -> bool) returns (p: Path)
    requires UniqueNames(tasks) && forall i :: 0 <= i < |tasks| ==> FreshTask(tasks[i])
    requires forall c :: 0 <= c < |clients| ==> clients[c] == Idle
    requires allow(Sys(Db(tasks, false), AtPass, [], map[], false, clients), RunPass(|tasks|))
    ensures IsPath(p, allow) && p.ss[0] == Sys(Db(tasks, false), AtPass, [], map[], false, clients)
    ensures p == Path(p.ss, p.ls, Passed(tasks), NewDispatchers(ReadyNames(tasks, |tasks|)), map[], false, clients)
  {
    var s := Sys(Db(tasks, false), AtPass, [], map[], false, clients);
    var ss, ls := Extend([s], [], allow, RunPass(|tasks|));
    p := Path(ss, ls, Passed(tasks), NewDispatchers(ReadyNames(tasks, |tasks|)), map[], false, clients);
  }

  /** The main loop waits, wakes up without cause and makes another pass. */
  lemma NextPass(p: Path, allow: (Sys, Label) -> bool) returns (q: Path)
    requires IsPath(p, allow)
    requires forall s, l: Label :: l.RunPass? || l.MainWait? || l.MainSpurious? ==> allow(s, l)
    ensures IsPath(q, allow) && q.ss[0] == p.ss[0]
    ensures q == p.(ss := q.ss, ls := q.ls, tasks := Passed(p.tasks),
                    disp := p.disp + NewDispatchers(ReadyNames(p.tasks, |p.tasks|)))
  {
    var ss, ls := Extend(p.ss, p.ls, allow, MainWait);
    ss, ls := Extend(ss, ls, allow, MainSpurious);
    ss, ls := Extend(ss, ls, allow, RunPass(|p.tasks|));
    q := p.(ss := ss, ls := ls, tasks := Passed(p.tasks),
            disp := p.disp + NewDispatchers(ReadyNames(p.tasks, |p.tasks|)));
  }

  lemma OneReady(t: Task)
    ensures ReadyNames([t], 1) == if IsReady(t) then [t.name] else []
    ensures Passed([t]) == [if IsReady(t) then t.(state := STARTING) else t]
    ensures NewDispatchers([t.name]) == [NewDispatcher(t.name)]
  {
    assert ReadyNames([t], 1) == ReadyNames([t], 0) + (if IsReady(t) then [t.name] else []);
  }
}
