/**
 * The wait-inhibit handshake: STOP and KILL hold back the reaping of zombies while they look up
 * and signal a process, so that the number they signal still means the process they looked up.
 */
module PidSafety {
  import opened Options
  import opened Tasks
  import opened TaskDB
  import opened Scheduler

  /** The process number may be stored in the task database. */
  predicate Registered(pc: Pc) {
    match pc
    case SettingRunning => true
    case FulfillingSpawn => true
    case ProvidingRunning(_) => true
    case Waiting(_) => true
    case ClearingPid(_) => true
    case SettingFailed => true
    case ClearingPidFailed => true
    case _ => false
  }

  /** The dispatcher cannot reap without passing the inhibition first. */
  predicate Guarded(pc: Pc) {
    Registered(pc) || pc.Blocking? || pc.BlockingFailed?
  }

  /** The dispatcher has a process that is not reaped. */
  predicate HasProc(x: Dispatcher) {
    x.pid > 0 && (Guarded(x.pc) || x.pc.SettingPid? || x.pc.Reaping? || x.pc.ReapingFailed?)
  }

  /** A dispatcher that has already run a command can start the next one. */
  predicate LaterCommandsStart(s: Sys, l: Label) {
    l.Dispatch? && l.d < |s.disp| && s.disp[l.d].pc.Spawning? && s.disp[l.d].pid > 0 ==> !l.out.Fail?
  }

  /** No client reports a main PID. */
  predicate NoMainPid(l: Label) {
    l.Command? ==> !l.op.SetPid?
  }

  /** A STOP or KILL command that has set the inhibition and still relies on it. */
  predicate Underway(client: Client) {
    client != Idle && !client.Releasing?
  }

  predicate NoneUnderway(clients: seq<Client>) {
    forall c :: 0 <= c < |clients| ==> !Underway(clients[c])
  }

  /** A command lifts the inhibition only when no other one relies on it. */
  predicate ReleasesLast(s: Sys, l: Label) {
    l.Continue? && l.c < |s.clients| && s.clients[l.c].Releasing? ==> NoneUnderway(s.clients)
  }

  predicate SafeStep(s: Sys, l: Label) {
    LaterCommandsStart(s, l) && NoMainPid(l) && ReleasesLast(s, l)
  }

  /** Reaping is inhibited while a command relies on it. */
  predicate HeldBack(s: Sys) {
    !NoneUnderway(s.clients) ==> s.waitInhibit
  }

  ghost predicate ProcsOwned(disp: seq<Dispatcher>, procs: map<int, Proc>) {
    forall d :: 0 <= d < |disp| && HasProc(disp[d]) ==> disp[d].pid in procs && procs[disp[d].pid].disp == d
  }

  /** Some dispatcher of the named task has this process registered. */
  ghost predicate RegisteredBy(disp: seq<Dispatcher>, name: string, pid: int) {
    exists d :: 0 <= d < |disp| && disp[d].task == name && disp[d].pid == pid && Registered(disp[d].pc)
  }

  ghost predicate PidsRegistered(tasks: seq<Task>, disp: seq<Dispatcher>) {
    forall i :: 0 <= i < |tasks| && tasks[i].pid > 0 ==> RegisteredBy(disp, tasks[i].name, tasks[i].pid)
  }

  /** What a client about to signal relies on. */
  ghost predicate TargetHeld(client: Client, disp: seq<Dispatcher>, procs: map<int, Proc>) {
    client.Signalling? ==>
      && client.pid > 0 && client.victim.Some?
      && client.pid in procs && procs[client.pid] == client.victim.value
      && client.victim.value.disp < |disp|
      && var x := disp[client.victim.value.disp];
         x.pid == client.pid && x.task == client.name && Guarded(x.pc)
  }

  ghost predicate Inv(s: Sys) {
    && UniqueNames(s.db.tasks)
    && ProcsOwned(s.disp, s.procs)
    && PidsRegistered(s.db.tasks, s.disp)
    && (forall c :: 0 <= c < |s.clients| ==> TargetHeld(s.clients[c], s.disp, s.procs))
    && HeldBack(s)
  }

  lemma StaysHeldBack(s: Sys, l: Label)
    requires Enabled(s, l) && HeldBack(s) && ReleasesLast(s, l)
    ensures HeldBack(Next(s, l))
  {
    if l.Continue? {
      ContinuesHeldBack(s, l.c, l.ok);
    } else if !l.Begin? {
      assert Next(s, l).clients == s.clients;
    }
  }

  lemma ContinuesHeldBack(s: Sys, c: nat, ok: bool)
    requires Enabled(s, Continue(c, ok)) && HeldBack(s) && ReleasesLast(s, Continue(c, ok))
    ensures HeldBack(ContinueClient(s, c, ok))
  {
    var s' := ContinueClient(s, c, ok);
    assert s'.clients == s.clients[c := s'.clients[c]];
    if !s.clients[c].Releasing? {
      assert Underway(s.clients[c]);
    }
  }

  // ---- dispatcher steps ----

  /** How a step moves a dispatcher through the classes above. */
  lemma DispatcherMoves(s: Sys, d: nat, out: Outcome)
    requires Enabled(s, Dispatch(d, out)) && SafeStep(s, Dispatch(d, out))
    ensures var x, y := s.disp[d], DispatcherAfter(s, s.disp[d], out);
            && y.task == x.task
            && (x.pc.Spawning? && out.Spawned? ==> y.pid == out.pid && y.pc == SettingPid(x.pc.i))
            && (!(x.pc.Spawning? && out.Spawned?) ==> y.pid == x.pid)
            && (x.pc.Spawning? && !out.Spawned? ==> y.pid <= 0)
            && (HasProc(y) && !x.pc.Spawning? && !x.pc.Copying? ==>
                  HasProc(x) && !x.pc.Reaping? && !x.pc.ReapingFailed?)
            && (Guarded(x.pc) && !x.pc.Blocking? && !x.pc.BlockingFailed? && x.pid > 0 ==> Guarded(y.pc))
            && (Registered(x.pc) && !x.pc.ClearingPid? && !x.pc.ClearingPidFailed? ==> Registered(y.pc))
            && (x.pc.SettingPid? ==> Registered(y.pc))
            && (s.waitInhibit ==> !x.pc.Blocking? && !x.pc.BlockingFailed?)
  {
  }

  lemma DispatchProcs(s: Sys, d: nat, out: Outcome)
    requires Inv(s) && Enabled(s, Dispatch(d, out)) && SafeStep(s, Dispatch(d, out))
    requires s.disp[d].pc.Copying? ==> s.disp[d].pid <= 0
    ensures ProcsOwned(s.disp[d := DispatcherAfter(s, s.disp[d], out)], ProcsAfter(s, d, out))
  {
    var x, y := s.disp[d], DispatcherAfter(s, s.disp[d], out);
    var disp', procs' := s.disp[d := y], ProcsAfter(s, d, out);
    DispatcherMoves(s, d, out);
    forall e | 0 <= e < |disp'| && HasProc(disp'[e])
      ensures disp'[e].pid in procs' && procs'[disp'[e].pid].disp == e
    {
      if e != d {
        assert HasProc(s.disp[e]);
      }
    }
  }

  /** The stored PID of a task after a dispatcher step. */
  lemma PidAfter(t: Task, x: Dispatcher)
    ensures var t' := match DispatcherOp(x) case None => t case Some(op) => Touch(t, op);
            && t'.name == t.name
            && t'.pid == if t.name == x.task && x.pc.SettingPid? then x.pid
                         else if t.name == x.task && (x.pc.ClearingPid? || x.pc.ClearingPidFailed?) then -1
                         else t.pid
  {
  }

  lemma DispatchPids(s: Sys, d: nat, out: Outcome, i: nat)
    requires Inv(s) && Enabled(s, Dispatch(d, out)) && SafeStep(s, Dispatch(d, out)) && i < |s.db.tasks|
    ensures var t' := TaskAfter(s, Dispatch(d, out), i);
            t'.pid > 0 ==> RegisteredBy(s.disp[d := DispatcherAfter(s, s.disp[d], out)], t'.name, t'.pid)
  {
    var x, y := s.disp[d], DispatcherAfter(s, s.disp[d], out);
    var disp' := s.disp[d := y];
    var t, t' := s.db.tasks[i], TaskAfter(s, Dispatch(d, out), i);
    DispatcherMoves(s, d, out);
    PidAfter(t, x);
    if t'.pid > 0 {
      if t.name == x.task && x.pc.SettingPid? {
        assert Registered(disp'[d].pc);
      } else {
        assert RegisteredBy(s.disp, t.name, t.pid);
        var e :| 0 <= e < |s.disp| && s.disp[e].task == t.name && s.disp[e].pid == t.pid && Registered(s.disp[e].pc);
        if e == d {
          assert Registered(disp'[d].pc) && disp'[d].pid == t'.pid;
        } else {
          assert disp'[e] == s.disp[e];
        }
      }
    }
  }

  lemma DispatchTarget(s: Sys, d: nat, out: Outcome, c: nat)
    requires Inv(s) && Enabled(s, Dispatch(d, out)) && SafeStep(s, Dispatch(d, out)) && c < |s.clients|
    ensures TargetHeld(s.clients[c], s.disp[d := DispatcherAfter(s, s.disp[d], out)], ProcsAfter(s, d, out))
  {
    DispatcherMoves(s, d, out);
    var client := s.clients[c];
    if client.Signalling? {
      assert TargetHeld(client, s.disp, s.procs);
      var v := client.victim.value.disp;
      assert HasProc(s.disp[v]);
      if s.disp[d].pc.Reaping? || s.disp[d].pc.ReapingFailed? {
        assert d != v;
        if s.disp[d].pid > 0 {
          assert HasProc(s.disp[d]);
        }
      }
    }
  }

  lemma DispatchKeeps(s: Sys, d: nat, out: Outcome)
    requires Inv(s) && Enabled(s, Dispatch(d, out)) && SafeStep(s, Dispatch(d, out))
    requires s.disp[d].pc.Copying? ==> s.disp[d].pid <= 0
    ensures Inv(Next(s, Dispatch(d, out)))
  {
    var l := Dispatch(d, out);
    var s' := Next(s, l);
    StepNames(s, l);
    StepDisp(s, l);
    DispatchFrame(s, d, out);
    DispatchProcs(s, d, out);
    forall i | 0 <= i < |s'.db.tasks| && s'.db.tasks[i].pid > 0
      ensures RegisteredBy(s'.disp, s'.db.tasks[i].name, s'.db.tasks[i].pid)
    {
      StepTask(s, l, i);
      DispatchPids(s, d, out, i);
    }
    forall c | 0 <= c < |s'.clients| ensures TargetHeld(s'.clients[c], s'.disp, s'.procs) {
      DispatchTarget(s, d, out, c);
    }
  }

  lemma DispatchFrame(s: Sys, d: nat, out: Outcome)
    requires Enabled(s, Dispatch(d, out))
    ensures var s' := Next(s, Dispatch(d, out));
            && |s'.db.tasks| == |s.db.tasks| && s'.procs == ProcsAfter(s, d, out)
            && s'.clients == s.clients && s'.waitInhibit == s.waitInhibit
  {
  }

  // ---- all steps ----

  /** New dispatchers have no process yet. */
  ghost predicate CopyingClean(disp: seq<Dispatcher>) {
    forall d :: 0 <= d < |disp| && disp[d].pc.Copying? ==> disp[d].pid <= 0
  }

  /** Adding dispatchers that have no process changes nothing for the handshake. */
  lemma JoinKeeps(s: Sys, more: seq<Dispatcher>)
    requires Inv(s) && forall k :: 0 <= k < |more| ==> more[k].pc.Copying? && more[k].pid <= 0
    ensures ProcsOwned(s.disp + more, s.procs)
    ensures PidsRegistered(s.db.tasks, s.disp + more)
    ensures forall c :: 0 <= c < |s.clients| ==> TargetHeld(s.clients[c], s.disp + more, s.procs)
  {
    var disp' := s.disp + more;
    forall i | 0 <= i < |s.db.tasks| && s.db.tasks[i].pid > 0
      ensures RegisteredBy(disp', s.db.tasks[i].name, s.db.tasks[i].pid)
    {
      assert RegisteredBy(s.disp, s.db.tasks[i].name, s.db.tasks[i].pid);
      var d :| 0 <= d < |s.disp| && s.disp[d].task == s.db.tasks[i].name && s.disp[d].pid == s.db.tasks[i].pid
        && Registered(s.disp[d].pc);
      assert disp'[d] == s.disp[d];
    }
    forall c | 0 <= c < |s.clients| ensures TargetHeld(s.clients[c], disp', s.procs) {
      assert TargetHeld(s.clients[c], s.disp, s.procs);
    }
  }

  lemma PassKeeps(s: Sys, failAt: nat)
    requires Inv(s) && s.main == AtPass
    ensures Inv(Next(s, RunPass(failAt)))
  {
    var l := RunPass(failAt);
    var s' := Next(s, l);
    StepNames(s, l);
    PassNames(s.db, failAt);
    JoinKeeps(s, NewDispatchers(Pass(s.db, failAt).started));
    forall i | 0 <= i < |s'.db.tasks| && s'.db.tasks[i].pid > 0
      ensures RegisteredBy(s'.disp, s'.db.tasks[i].name, s'.db.tasks[i].pid)
    {
      StepTask(s, l, i);
    }
  }

  /** Operations other than the dispatchers' do not register PIDs. */
  lemma NoPidOp(t: Task, op: DbOp)
    requires op.Insert? ==> FreshTask(op.t)
    requires !op.SetPid?
    ensures Touch(t, op).name == t.name && (Touch(t, op).pid > 0 ==> Touch(t, op).pid == t.pid)
  {
  }

  lemma CommandKeeps(s: Sys, op: DbOp)
    requires Inv(s) && CommandOp(s.db, op) && !op.SetPid?
    ensures Inv(Do(s, op))
  {
    var s' := Do(s, op);
    NamesStayUnique(s.db, op);
    forall i | 0 <= i < |s'.db.tasks| && s'.db.tasks[i].pid > 0
      ensures RegisteredBy(s'.disp, s'.db.tasks[i].name, s'.db.tasks[i].pid)
    {
      if i < |s.db.tasks| {
        ApplyTask(s.db, op, i);
        NoPidOp(s.db.tasks[i], op);
      }
    }
  }

  /** A looked-up PID belongs to a registered, unreaped process of the named task. */
  lemma LookupHeld(s: Sys, name: string)
    requires Inv(s) && Has(s.db.tasks, name)
    ensures TargetHeld(SignalOrGiveUp(s, name), s.disp, s.procs)
  {
    var t := Named(s.db.tasks, name);
    if t.pid > 0 {
      var i :| 0 <= i < |s.db.tasks| && s.db.tasks[i] == t;
      assert RegisteredBy(s.disp, s.db.tasks[i].name, s.db.tasks[i].pid);
      var d :| 0 <= d < |s.disp| && s.disp[d].task == name && s.disp[d].pid == t.pid && Registered(s.disp[d].pc);
      assert HasProc(s.disp[d]);
    }
  }

  lemma ContinueKeeps(s: Sys, c: nat, ok: bool)
    requires Inv(s) && Enabled(s, Continue(c, ok)) && ReleasesLast(s, Continue(c, ok))
    ensures Inv(Next(s, Continue(c, ok)))
  {
    var s' := ContinueClient(s, c, ok);
    ContinuesHeldBack(s, c, ok);
    match s.clients[c]
    case Inhibited(n, false) =>
      InhibitKeeps(s, n);
    case Inhibited(n, true) =>
      if Has(s.db.tasks, n) {
        LookupHeld(s, n);
      }
    case Marked(n) =>
      if Has(s.db.tasks, n) {
        LookupHeld(s, n);
      }
    case SpawningStop(copy) =>
      JoinKeeps(s, [Dispatcher(copy.name, Stop, copy, -1, Copying)]);
    case _ =>
  }

  lemma InhibitKeeps(s: Sys, n: string)
    requires Inv(s)
    ensures Inv(Do(s, SetRespawnInhibit(n, true)))
  {
    var op := SetRespawnInhibit(n, true);
    var s' := Do(s, op);
    NamesStayUnique(s.db, op);
    forall i | 0 <= i < |s'.db.tasks| && s'.db.tasks[i].pid > 0
      ensures RegisteredBy(s'.disp, s'.db.tasks[i].name, s'.db.tasks[i].pid)
    {
      ApplyTask(s.db, op, i);
    }
  }

  lemma StepKeeps(s: Sys, l: Label)
    requires Inv(s) && CopyingClean(s.disp) && Enabled(s, l) && SafeStep(s, l)
    ensures Inv(Next(s, l))
  {
    match l
    case RunPass(failAt) => PassKeeps(s, failAt);
    case Dispatch(d, out) => DispatchKeeps(s, d, out);
    case Command(op) => CommandKeeps(s, op);
    case Continue(c, ok) => ContinueKeeps(s, c, ok);
    case Begin(c, name, kill) =>
    case _ =>
  }

  lemma CleanStays(s: Sys, l: Label)
    requires CopyingClean(s.disp) && Enabled(s, l)
    ensures CopyingClean(Next(s, l).disp)
  {
    StepDisp(s, l);
  }

  lemma {:induction false} RunKeeps(ss: seq<Sys>, ls: seq<Label>, k: nat)
    requires IsRun(ss, ls) && Initial(ss[0]) && k <= |ls|
    requires forall i :: 0 <= i < |ls| ==> SafeStep(ss[i], ls[i])
    ensures Inv(ss[k]) && CopyingClean(ss[k].disp)
  {
    if k > 0 {
      RunKeeps(ss, ls, k - 1);
      assert StepAt(ss, ls, k - 1);
      StepKeeps(ss[k - 1], ls[k - 1]);
      CleanStays(ss[k - 1], ls[k - 1]);
    }
  }

  /**
   * PID safety: whenever STOP or KILL sends its signal, the number still denotes the process that
   * was looked up; it has not been reaped and was started for the named task.
   */
  lemma PidSafety(ss: seq<Sys>, ls: seq<Label>, k: nat, c: nat)
    requires IsRun(ss, ls) && Initial(ss[0]) && k <= |ls|
    requires forall i :: 0 <= i < |ls| ==> SafeStep(ss[i], ls[i])
    requires c < |ss[k].clients| && ss[k].clients[c].Signalling?
    ensures var client := ss[k].clients[c];
            && client.pid in ss[k].procs
            && client.victim == Some(ss[k].procs[client.pid])
            && client.victim.value.disp < |ss[k].disp|
            && ss[k].disp[client.victim.value.disp].task == client.name
  {
    RunKeeps(ss, ls, k);
    assert TargetHeld(ss[k].clients[c], ss[k].disp, ss[k].procs);
  }

  // ---- giving up ----

  predicate NoProcess(s: Sys, name: string) {
    Has(s.db.tasks, name) ==> Named(s.db.tasks, name).pid <= 0
  }

  /** A command ends early: the task is not known or has no process, or the signal or the stop dispatcher fails. */
  predicate GivesUp(s: Sys, c: nat, ok: bool)
    requires c < |s.clients|
  {
    match s.clients[c]
    case Inhibited(n, kill) => if kill then NoProcess(s, n) else !Has(s.db.tasks, n)
    case Marked(n) => NoProcess(s, n) && (Has(s.db.tasks, n) ==> Named(s.db.tasks, n).stopCmds == 0)
    case SpawningStop(_) => !ok
    case Signalling(_, _, _) => !ok
    case _ => false
  }

  predicate EndsEarly(s: Sys, l: Label) {
    l.Continue? && l.c < |s.clients| && GivesUp(s, l.c, l.ok)
  }

  predicate Ends(s: Sys, l: Label) {
    EndsEarly(s, l) || (l.Continue? && l.c < |s.clients| && s.clients[l.c].Releasing?)
  }

  /** Commands end by these two ways only, and only by releasing do they lift the inhibition. */
  lemma GivingUpLeaks(s: Sys, c: nat, ok: bool)
    requires Enabled(s, Continue(c, ok)) && s.waitInhibit
    ensures var s' := Next(s, Continue(c, ok));
            && (s'.clients[c] == Idle <==> GivesUp(s, c, ok) || s.clients[c].Releasing?)
            && (s'.waitInhibit <==> !s.clients[c].Releasing?)
  {
  }

  ghost predicate AllIdle(s: Sys) {
    forall c :: 0 <= c < |s.clients| ==> s.clients[c] == Idle
  }

  /** Of the commands that ended before state k, the last one did so early. */
  ghost predicate LastEndedEarly(ss: seq<Sys>, ls: seq<Label>, k: nat)
    requires |ss| == |ls| + 1 && k <= |ls|
  {
    exists i :: 0 <= i < k && EndsEarly(ss[i], ls[i]) && forall j :: i < j < k ==> !Ends(ss[j], ls[j])
  }

  lemma {:induction false} RunHeldBack(ss: seq<Sys>, ls: seq<Label>, k: nat)
    requires IsRun(ss, ls) && Initial(ss[0]) && k <= |ls|
    requires forall i :: 0 <= i < |ls| ==> ReleasesLast(ss[i], ls[i])
    ensures HeldBack(ss[k])
  {
    if k > 0 {
      RunHeldBack(ss, ls, k - 1);
      assert StepAt(ss, ls, k - 1);
      StaysHeldBack(ss[k - 1], ls[k - 1]);
    }
  }

  /** A step to a state without commands: it ended the last one, or there was none before it. */
  lemma IdleStep(s: Sys, l: Label)
    requires Enabled(s, l) && HeldBack(s) && AllIdle(Next(s, l))
    ensures Ends(s, l) ==> (Next(s, l).waitInhibit <==> EndsEarly(s, l))
    ensures !Ends(s, l) ==> AllIdle(s) && Next(s, l).waitInhibit == s.waitInhibit
  {
    var s' := Next(s, l);
    if l.Continue? {
      assert s'.clients == s.clients[l.c := s'.clients[l.c]];
      assert s'.clients[l.c] == Idle;
      if !s.clients[l.c].Releasing? {
        assert Underway(s.clients[l.c]);
        GivingUpLeaks(s, l.c, l.ok);
      }
    } else if l.Begin? {
      BeginIsBusy(s, l);
    } else {
      assert s'.clients == s.clients;
    }
  }

  lemma BeginIsBusy(s: Sys, l: Label)
    requires l.Begin? && Enabled(s, l)
    ensures !AllIdle(Next(s, l))
  {
    assert Next(s, l).clients[l.c] != Idle;
  }

  lemma LastEnd(ss: seq<Sys>, ls: seq<Label>, k: nat)
    requires |ss| == |ls| + 1 && 0 < k <= |ls|
    ensures LastEndedEarly(ss, ls, k) <==>
            if Ends(ss[k - 1], ls[k - 1]) then EndsEarly(ss[k - 1], ls[k - 1]) else LastEndedEarly(ss, ls, k - 1)
  {
  }

  /**
   * Whenever no command is left in a run whose commands release last, reaping is still inhibited
   * if and only if the last command to end did so early.
   */
  lemma {:induction false} InhibitedIffEndedEarly(ss: seq<Sys>, ls: seq<Label>, k: nat)
    requires IsRun(ss, ls) && Initial(ss[0]) && k <= |ls| && AllIdle(ss[k])
    requires forall i :: 0 <= i < |ls| ==> ReleasesLast(ss[i], ls[i])
    ensures ss[k].waitInhibit <==> LastEndedEarly(ss, ls, k)
  {
    if k > 0 {
      var s, l := ss[k - 1], ls[k - 1];
      assert StepAt(ss, ls, k - 1);
      RunHeldBack(ss, ls, k - 1);
      IdleStep(s, l);
      LastEnd(ss, ls, k);
      if !Ends(s, l) {
        InhibitedIffEndedEarly(ss, ls, k - 1);
      }
    }
  }

  predicate AwaitsReaping(x: Dispatcher) {
    x.pc.Blocking? || x.pc.BlockingFailed?
  }

  /** From a state with the inhibition left set nothing is reaped until another STOP or KILL begins. */
  lemma {:induction false} StarvedReaping(ss: seq<Sys>, ls: seq<Label>, d: nat, j: nat, k: nat)
    requires IsRun(ss, ls) && j <= k <= |ls|
    requires ss[j].waitInhibit && AllIdle(ss[j]) && forall i :: j <= i < k ==> !ls[i].Begin?
    requires d < |ss[j].disp| && AwaitsReaping(ss[j].disp[d])
    ensures ss[k].waitInhibit && ss[k].clients == ss[j].clients
    ensures d < |ss[k].disp| && ss[k].disp[d] == ss[j].disp[d]
  {
    if k > j {
      StarvedReaping(ss, ls, d, j, k - 1);
      assert StepAt(ss, ls, k - 1);
      StarvedStep(ss[k - 1], ls[k - 1], d);
    }
  }

  lemma StarvedStep(s: Sys, l: Label, d: nat)
    requires Enabled(s, l) && !l.Begin? && s.waitInhibit && AllIdle(s)
    requires d < |s.disp| && AwaitsReaping(s.disp[d])
    ensures Next(s, l).waitInhibit && Next(s, l).clients == s.clients
    ensures d < |Next(s, l).disp| && Next(s, l).disp[d] == s.disp[d]
  {
    StepDisp(s, l);
  }

  /**
   * So once no command is left, a dispatcher that awaits reaping can go on unless the last command
   * ended early; if it did, the dispatcher waits for as long as no new command begins.
   */
  lemma StarvedIffEndedEarly(ss: seq<Sys>, ls: seq<Label>, d: nat, j: nat, k: nat)
    requires IsRun(ss, ls) && Initial(ss[0]) && j <= k <= |ls| && AllIdle(ss[j])
    requires forall i :: 0 <= i < |ls| ==> ReleasesLast(ss[i], ls[i])
    requires d < |ss[j].disp| && AwaitsReaping(ss[j].disp[d]) && forall i :: j <= i < k ==> !ls[i].Begin?
    ensures Enabled(ss[j], Dispatch(d, Go)) <==> !LastEndedEarly(ss, ls, j)
    ensures LastEndedEarly(ss, ls, j) ==> d < |ss[k].disp| && ss[k].disp[d] == ss[j].disp[d]
  {
    InhibitedIffEndedEarly(ss, ls, j);
    if ss[j].waitInhibit {
      StarvedReaping(ss, ls, d, j, k);
    }
  }
}
