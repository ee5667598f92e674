/**
 * Every clean run of the scheduling loop is finite, and the loop as coded can lose a wakeup.
 */
module ProgressBound {
  import opened Options
  import opened Tasks
  import opened TaskDB
  import opened Scheduler
  import opened Progress
  import opened Walk
  import Single = SingleDispatcher

  // ---- how many steps a dispatcher still needs ----

  function DoneSteps(prv: nat): nat {
    3 + prv
  }

  /** The first command also announces the start of the task. */
  function CommandSteps(i: nat, cmds: nat, prv: nat): nat
    requires i <= cmds
  {
    DoneSteps(prv) + 6 * (cmds - i) + (if i == 0 && cmds > 0 then 2 + prv else 0)
  }

  function Steps(pc: Pc, cmds: nat, prv: nat): nat
    requires PcFits(pc, cmds, prv)
  {
    match pc
    case Copying => 1 + CommandSteps(0, cmds, prv)
    case Spawning(i) => CommandSteps(i, cmds, prv)
    case SettingPid(i) => CommandSteps(i, cmds, prv) - 1
    case SettingRunning => CommandSteps(1, cmds, prv) + 6 + prv
    case FulfillingSpawn => CommandSteps(1, cmds, prv) + 5 + prv
    case ProvidingRunning(k) => CommandSteps(1, cmds, prv) + 4 + prv - k
    case Waiting(i) => CommandSteps(i + 1, cmds, prv) + 4
    case ClearingPid(i) => CommandSteps(i + 1, cmds, prv) + 3
    case Blocking(i) => CommandSteps(i + 1, cmds, prv) + 2
    case Reaping(i) => CommandSteps(i + 1, cmds, prv) + 1
    case SettingDone => DoneSteps(prv)
    case FulfillingDone => 2 + prv
    case ProvidingDone(k) => 1 + prv - k
    case Exiting => 1
    case _ => 0
  }

  lemma StepsDecrease(x: Dispatcher, out: Outcome, cmds: nat, prv: nat)
    requires !FailPath(x.pc) && !out.Fail? && !x.pc.Finished?
    requires Commands(x) == cmds && |x.copy.prv| == prv && PcFits(x.pc, cmds, prv)
    ensures PcFits(NextPc(x, out), cmds, prv)
    ensures Steps(NextPc(x, out), cmds, prv) < Steps(x.pc, cmds, prv)
  {
  }

  // ---- the work that is left ----

  /** The position of the named task's dispatcher, or the end if there is none. */
  ghost function PcOf(disp: seq<Dispatcher>, name: string): Pc {
    if exists d :: 0 <= d < |disp| && disp[d].task == name
    then var d :| 0 <= d < |disp| && disp[d].task == name; disp[d].pc
    else Finished
  }

  lemma PcOfOnly(disp: seq<Dispatcher>, d: nat)
    requires OneEach(disp) && d < |disp|
    ensures PcOf(disp, disp[d].task) == disp[d].pc
  {
  }

  /** Work left for one task; four units a step, so that a wakeup never outweighs the step causing it. */
  ghost function Weight(t: Task, disp: seq<Dispatcher>): nat {
    if t.state == LOADED then 4 * (1 + Steps(Copying, t.cmds, |t.prv|))
    else if PcFits(PcOf(disp, t.name), t.cmds, |t.prv|) then 4 * Steps(PcOf(disp, t.name), t.cmds, |t.prv|)
    else 0
  }

  ghost function Weights(s: Sys): seq<nat> {
    seq(|s.db.tasks|, i requires 0 <= i < |s.db.tasks| => Weight(s.db.tasks[i], s.disp))
  }

  function Sum(w: seq<nat>): nat {
    if w == [] then 0 else w[0] + Sum(w[1..])
  }

  function MainRank(main: MainPc): nat {
    match main
    case AtPass => 2
    case Gap => 1
    case Blocked(signalled) => if signalled then 3 else 0
  }

  ghost function Rank(s: Sys): nat {
    Sum(Weights(s)) + MainRank(s.main)
  }

  /** If no weight grows and one drops by c, the sum drops by c. */
  lemma {:induction false} SumDrops(w: seq<nat>, w': seq<nat>, k: nat, c: nat)
    requires |w| == |w'| && forall i :: 0 <= i < |w| ==> w'[i] <= w[i]
    requires k < |w| ==> w'[k] + c <= w[k]
    ensures Sum(w') + (if k < |w| then c else 0) <= Sum(w)
  {
    if w != [] {
      if k == 0 {
        SumDrops(w[1..], w'[1..], |w|, 0);
      } else {
        SumDrops(w[1..], w'[1..], k - 1, c);
      }
    }
  }

  lemma StartedWeight(t: Task, disp: seq<Dispatcher>, names: seq<string>)
    requires t.name in names && OneEach(disp + NewDispatchers(names))
    ensures Weight(t.(state := STARTING), disp + NewDispatchers(names)) == 4 * Steps(Copying, t.cmds, |t.prv|)
  {
    var a :| 0 <= a < |names| && names[a] == t.name;
    var disp' := disp + NewDispatchers(names);
    assert disp'[|disp| + a] == NewDispatcher(t.name);
    PcOfOnly(disp', |disp| + a);
  }

  lemma SameWeight(t: Task, disp: seq<Dispatcher>, more: seq<Dispatcher>)
    requires t.state != LOADED && Manned(t, disp) && OneEach(disp + more)
    ensures Weight(t, disp + more) == Weight(t, disp)
  {
    var d :| 0 <= d < |disp| && Fits(t, disp[d]);
    assert OneEach(disp) by {
      forall a, b | 0 <= a < b < |disp| ensures disp[a].task != disp[b].task {
        assert (disp + more)[a].task != (disp + more)[b].task;
      }
    }
    PcOfOnly(disp, d);
    PcOfOnly(disp + more, d);
  }

  lemma TaskPassWeight(tasks: seq<Task>, disp: seq<Dispatcher>, i: nat)
    requires UniqueNames(tasks) && i < |tasks| && !tasks[i].respawn && Manned(tasks[i], disp)
    requires OneEach(disp + NewDispatchers(ReadyNames(tasks, |tasks|)))
    ensures Weight(PassTask(tasks[i], i, |tasks|), disp + NewDispatchers(ReadyNames(tasks, |tasks|)))
         <= Weight(tasks[i], disp)
  {
    var t, names := tasks[i], ReadyNames(tasks, |tasks|);
    if IsReady(t) {
      StartedExactly(tasks, |tasks|, t.name);
      StartedWeight(t, disp, names);
    } else if t.state != LOADED {
      SameWeight(t, disp, NewDispatchers(names));
    }
  }

  /** A pass moves no task backwards. */
  lemma PassWeight(s: Sys, failAt: nat, level: string -> nat, i: nat)
    requires Core(s, level) && s.main == AtPass && failAt >= |s.db.tasks| && i < |s.db.tasks|
    ensures var disp' := s.disp + NewDispatchers(Pass(s.db, failAt).started);
            Weight(PassTask(s.db.tasks[i], i, |s.db.tasks|), disp') <= Weight(s.db.tasks[i], s.disp)
  {
    PassDisp(s, failAt, level);
    assert PlainTask(s.db.tasks, level, s.db.tasks[i]) && Manned(s.db.tasks[i], s.disp);
    TaskPassWeight(s.db.tasks, s.disp, i);
  }

  /** A dispatcher step leaves the work of other tasks as it is. */
  lemma OtherWeight(t: Task, disp: seq<Dispatcher>, d: nat, y: Dispatcher)
    requires d < |disp| && disp[d].task != t.name && y.task == disp[d].task && Manned(t, disp)
    requires OneEach(disp) && (DispatcherOp(disp[d]).Some? ==> GoodOp(DispatcherOp(disp[d]).value))
    ensures Weight(Single.TouchIf(t, DispatcherOp(disp[d])), disp[d := y]) == Weight(t, disp)
  {
    OtherTask(t, disp[d]);
    var disp' := disp[d := y];
    assert OneEach(disp');
    if t.state != LOADED {
      var e :| 0 <= e < |disp| && Fits(t, disp[e]);
      assert disp'[e] == disp[e];
      PcOfOnly(disp, e);
      PcOfOnly(disp', e);
    }
  }

  /** It moves its own task forward. */
  lemma OwnWeightDrops(t: Task, t': Task, disp: seq<Dispatcher>, d: nat, y: Dispatcher)
    requires d < |disp| && OneEach(disp) && disp[d].task == t.name == t'.name == y.task
    requires t'.cmds == t.cmds && t'.prv == t.prv && t.state != LOADED && t'.state != LOADED
    requires PcFits(disp[d].pc, t.cmds, |t.prv|) && PcFits(y.pc, t.cmds, |t.prv|)
    requires Steps(y.pc, t.cmds, |t.prv|) < Steps(disp[d].pc, t.cmds, |t.prv|)
    ensures Weight(t', disp[d := y]) + 4 <= Weight(t, disp)
  {
    var disp' := disp[d := y];
    assert OneEach(disp');
    PcOfOnly(disp, d);
    assert disp'[d] == y;
    PcOfOnly(disp', d);
  }

  lemma DispatchWeight(s: Sys, d: nat, out: Outcome, level: string -> nat, o: nat, i: nat)
    requires Core(s, level) && Enabled(s, Dispatch(d, out)) && !out.Fail? && i < |s.db.tasks|
    requires o < |s.db.tasks| && Fits(s.db.tasks[o], s.disp[d]) && s.db.tasks[o].state != LOADED
    ensures var w := Weight(s.db.tasks[i], s.disp);
            var w' := Weight(Single.TouchIf(s.db.tasks[i], DispatcherOp(s.disp[d])),
                             s.disp[d := DispatcherAfter(s, s.disp[d], out)]);
            if i == o then w' + 4 <= w else w' == w
  {
    var x, y := s.disp[d], DispatcherAfter(s, s.disp[d], out);
    if DispatcherOp(x).Some? {
      DispatcherGoodOp(s.db.tasks[o], x);
    }
    if i == o {
      var t := s.db.tasks[o];
      OwnWeight(s, t, x, out, level);
      OwnWeightDrops(t, Single.TouchIf(t, DispatcherOp(x)), s.disp, d, y);
    } else {
      assert Manned(s.db.tasks[i], s.disp);
      assert x.task != s.db.tasks[i].name;
      OtherWeight(s.db.tasks[i], s.disp, d, y);
    }
  }

  lemma OtherTask(t: Task, x: Dispatcher)
    requires x.task != t.name && (DispatcherOp(x).Some? ==> GoodOp(DispatcherOp(x).value))
    ensures var t' := Single.TouchIf(t, DispatcherOp(x));
            t'.state == t.state && t'.name == t.name && t'.cmds == t.cmds && t'.prv == t.prv
  {
  }

  lemma OwnWeight(s: Sys, t: Task, x: Dispatcher, out: Outcome, level: string -> nat)
    requires Core(s, level) && t in s.db.tasks && Fits(t, x) && DispatcherEnabled(s, x, out) && !out.Fail?
    ensures var t' := Single.TouchIf(t, DispatcherOp(x));
            var y := DispatcherAfter(s, x, out);
            && t'.name == t.name && t'.cmds == t.cmds && t'.prv == t.prv && t'.state != LOADED
            && PcFits(y.pc, t.cmds, |t.prv|)
            && Steps(y.pc, t.cmds, |t.prv|) < Steps(x.pc, t.cmds, |t.prv|)
  {
    OwnTask(t, x);
    if x.pc.Copying? {
      NamedIs(s.db.tasks, t);
    }
    StepsDecrease(if x.pc.Copying? then x.(copy := t) else x, out, t.cmds, |t.prv|);
  }

  lemma NamedIs(tasks: seq<Task>, t: Task)
    requires UniqueNames(tasks) && t in tasks
    ensures Has(tasks, t.name) && Named(tasks, t.name) == t
  {
    var i :| 0 <= i < |tasks| && tasks[i] == t;
    var u := Named(tasks, t.name);
    var j :| 0 <= j < |tasks| && tasks[j] == u;
    assert i == j;
  }

  lemma PassRank(s: Sys, failAt: nat, level: string -> nat)
    requires Core(s, level) && s.main == AtPass && failAt >= |s.db.tasks|
    ensures Rank(Next(s, RunPass(failAt))) < Rank(s)
  {
    var l := RunPass(failAt);
    var s' := Next(s, l);
    PassNames(s.db, failAt);
    forall i | 0 <= i < |s.db.tasks| ensures Weights(s')[i] <= Weights(s)[i] {
      StepTask(s, l, i);
      PassWeight(s, failAt, level, i);
    }
    SumDrops(Weights(s), Weights(s'), |s.db.tasks|, 0);
  }

  lemma DispatchWork(s: Sys, d: nat, out: Outcome, level: string -> nat, o: nat, i: nat)
    requires Core(s, level) && Enabled(s, Dispatch(d, out)) && !out.Fail? && i < |s.db.tasks|
    requires o < |s.db.tasks| && Fits(s.db.tasks[o], s.disp[d]) && s.db.tasks[o].state != LOADED
    ensures var s' := Next(s, Dispatch(d, out));
            i < |s'.db.tasks| &&
            Weight(s'.db.tasks[i], s'.disp) + (if i == o then 4 else 0) <= Weight(s.db.tasks[i], s.disp)
  {
    StepDisp(s, Dispatch(d, out));
    StepTask(s, Dispatch(d, out), i);
    DispatchWeight(s, d, out, level, o, i);
  }

  lemma DispatchRank(s: Sys, d: nat, out: Outcome, level: string -> nat)
    requires Core(s, level) && Enabled(s, Dispatch(d, out)) && !out.Fail?
    ensures Rank(Next(s, Dispatch(d, out))) < Rank(s)
  {
    var s' := Next(s, Dispatch(d, out));
    var o := OwnerOf(s, level, d);
    DispatchLength(s, d, out);
    forall i | 0 <= i < |s.db.tasks|
      ensures Weights(s')[i] + (if i == o then 4 else 0) <= Weights(s)[i]
    {
      DispatchWork(s, d, out, level, o, i);
    }
    SumDrops(Weights(s), Weights(s'), o, 4);
  }

  lemma SameWork(s: Sys, l: Label)
    requires Enabled(s, l) && (l.MainWait? || l.MainWake? || l.MainSpurious?)
    ensures Weights(Next(s, l)) == Weights(s)
  {
  }

  /** Every clean step uses up some of the rank, and a wakeup without cause adds at most two units. */
  lemma RankDrops(s: Sys, l: Label, level: string -> nat)
    requires Core(s, level) && Enabled(s, l) && RunLabel(s, l)
    ensures Rank(Next(s, l)) < Rank(s) + (if l.MainSpurious? then 3 else 0)
  {
    match l
    case RunPass(failAt) => PassRank(s, failAt, level);
    case Dispatch(d, out) => DispatchRank(s, d, out, level);
    case MainWait => SameWork(s, MainWait);
    case MainWake => SameWork(s, MainWake);
    case MainSpurious => SameWork(s, MainSpurious);
    case _ =>
  }

  lemma DispatchLength(s: Sys, d: nat, out: Outcome)
    requires Enabled(s, Dispatch(d, out))
    ensures |Next(s, Dispatch(d, out)).db.tasks| == |s.db.tasks|
    ensures MainRank(Next(s, Dispatch(d, out)).main) <= MainRank(s.main) + 3
  {
  }

  /** How often the main loop wakes up without cause. */
  function Spurious(ls: seq<Label>): nat {
    if ls == [] then 0 else Spurious(ls[..|ls| - 1]) + (if ls[|ls| - 1].MainSpurious? then 1 else 0)
  }

  /** The first k steps have used up at least k units of rank. */
  lemma {:induction false} RankSpent(ss: seq<Sys>, ls: seq<Label>, level: string -> nat, k: nat)
    requires CleanRun(ss, ls, level) && k <= |ls|
    ensures Rank(ss[k]) + k <= Rank(ss[0]) + 3 * Spurious(ls[..k])
  {
    if k > 0 {
      RankSpent(ss, ls, level, k - 1);
      assert ls[..k][..k - 1] == ls[..k - 1];
      Progress.RunKeeps(ss, ls, level, k - 1);
      assert StepAt(ss, ls, k - 1);
      RankDrops(ss[k - 1], ls[k - 1], level);
    }
  }

  /**
   * Progress: a run is no longer than the rank of its first state, wakeups lost or not, and three
   * steps for each wakeup without cause.
   */
  lemma RunsAreFinite(ss: seq<Sys>, ls: seq<Label>, level: string -> nat)
    requires CleanRun(ss, ls, level)
    ensures |ls| <= Rank(ss[0]) + 3 * Spurious(ls)
  {
    RankSpent(ss, ls, level, |ls|);
    assert ls[..|ls|] == ls;
  }

  // ---- a lost wakeup ----

  const FIRST := Task("a", 1, 0, [], [], true, [], false, false, LOADED, -1, -1, 0, false)
  const SECOND := Task("b", 1, 0, [Dep("a", EVENT_WAIT)], [], true, [], false, false, LOADED, -1, -1, 0, false)

  function FirstLevel(name: string): nat {
    if name == "a" then 0 else 1
  }

  ghost predicate CleanPath(p: Path) {
    && IsPath(p, RunLabel) && |p.disp| == 1 && !p.inhibit
    && p.ss[0] == Sys(Db([FIRST, SECOND], false), AtPass, [], map[], false, [])
  }

  lemma FirstLoadable()
    ensures Loadable(Sys(Db([FIRST, SECOND], false), AtPass, [], map[], false, []), FirstLevel)
  {
    var tasks := [FIRST, SECOND];
    assert "a" != "b";
    assert tasks[0].name == "a";
    assert Announces(tasks[0], Dep("a", EVENT_WAIT));
  }

  lemma FirstStarted() returns (p: Path)
    ensures CleanPath(p)
    ensures p.tasks == [FIRST.(state := STARTING), SECOND] && p.disp == [NewDispatcher("a")] && p.procs == map[]
  {
    var tasks := [FIRST, SECOND];
    FirstLoadable();
    p := FirstPass(tasks, [], RunLabel);
    assert ReadyNames(tasks, 1) == ReadyNames(tasks, 0) + ["a"] == ["a"];
    assert ReadyNames(tasks, 2) == ["a"];
    assert Passed(tasks) == [FIRST.(state := STARTING), SECOND];
  }

  /** The second task still waits for the first one, whose dispatcher is at a point of its work. */
  ghost predicate Waits(p: Path, pc: Pc) {
    && CleanPath(p) && |p.tasks| == 2 && p.tasks[1] == SECOND
    && var x := p.disp[0];
       x.task == "a" && x.mode.Start? && x.pc == pc && x.copy.prv == [] && x.copy.cmds == 1 && !x.copy.rearm
  }

  /** A step other than the announcement of the first task's completion. */
  lemma StillWaits(p: Path, pc: Pc, out: Outcome, pc': Pc) returns (q: Path)
    requires Waits(p, pc) && !pc.Copying? && !pc.FulfillingDone? && !FailPath(pc)
    requires DispatcherEnabled(Last(p), p.disp[0], out) && !out.Fail? && pc' == NextPc(p.disp[0], out)
    ensures Waits(q, pc')
  {
    q := GoOn(p, RunLabel, 0, out);
    assert EVENT_SPAWN != EVENT_WAIT;
    assert DepLists.SwapRemove([Dep("a", EVENT_WAIT)], Dep("a", EVENT_SPAWN), 0) == [Dep("a", EVENT_WAIT)];
  }

  lemma FirstSpawned() returns (p: Path)
    ensures Waits(p, SettingRunning)
  {
    p := FirstStarted();
    assert p.tasks[0].name == "a";
    p := Act(p, RunLabel, 0, Go);
    p := StillWaits(p, Spawning(0), Spawned(7), SettingPid(0));
    p := StillWaits(p, SettingPid(0), Go, SettingRunning);
  }

  lemma FirstExited(p: Path) returns (q: Path)
    requires Waits(p, SettingRunning)
    ensures Waits(q, ClearingPid(0))
  {
    q := StillWaits(p, SettingRunning, Go, FulfillingSpawn);
    q := StillWaits(q, FulfillingSpawn, Go, Waiting(0));
    q := StillWaits(q, Waiting(0), Go, ClearingPid(0));
  }

  lemma FirstDone(p: Path) returns (q: Path)
    requires Waits(p, ClearingPid(0))
    ensures Waits(q, FulfillingDone)
  {
    q := StillWaits(p, ClearingPid(0), Go, Blocking(0));
    q := StillWaits(q, Blocking(0), Go, Reaping(0));
    q := StillWaits(q, Reaping(0), Go, SettingDone);
    q := StillWaits(q, SettingDone, Go, FulfillingDone);
  }

  lemma FirstAnnounced(p: Path) returns (q: Path)
    requires Waits(p, FulfillingDone)
    ensures CleanPath(q) && |q.tasks| == 2 && q.tasks[1] == SECOND.(deps := []) && q.disp[0].pc == Finished
  {
    q := Act(p, RunLabel, 0, Go);
    assert DepLists.SwapRemove([Dep("a", EVENT_WAIT)], Dep("a", EVENT_WAIT), 0) == [];
    q := Act(q, RunLabel, 0, Go);
  }

  /**
   * The loop as coded: the first task completes between the pass and the wait, its broadcast is
   * lost, and the system stops with the second task ready and never started.
   */
  lemma LostWakeup() returns (ss: seq<Sys>, ls: seq<Label>)
    ensures CleanRun(ss, ls, FirstLevel) && Stopped(ss[|ls|])
    ensures exists t :: t in ss[|ls|].db.tasks && IsReady(t) && t.state == LOADED
  {
    FirstLoadable();
    var p := FirstSpawned();
    p := FirstExited(p);
    p := FirstDone(p);
    p := FirstAnnounced(p);
    ss, ls := Extend(p.ss, p.ls, RunLabel, MainWait);
    var s := ss[|ls|];
    assert s == Last(p).(main := Blocked(false));
    assert p.tasks[1] in s.db.tasks;
  }
}
