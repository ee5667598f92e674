/**
 * A task is only ever started after everything it waits for has happened.
 */
module CausalStart {
  import opened Options
  import opened Tasks
  import opened DepLists
  import opened TaskDB
  import opened Scheduler

  /** The operation delivers event d to the named task. */
  predicate Delivers(op: DbOp, name: string, d: Dep) {
    || (op.Fulfil? && op.dep == d && (op.target.None? || op.target.value == name))
    || (op.RemoveDep? && op.name == name && op.dep == d)
  }

  /** The step delivers event d to the named task: a fulfilled dependency or an ENABLE command. */
  predicate StepDelivers(s: Sys, l: Label, name: string, d: Dep) {
    Enabled(s, l) && OpOf(s, l).Some? && Delivers(OpOf(s, l).value, name, d)
  }

  /** The step overwrites the named task by a newly loaded one. */
  predicate Overwrites(l: Label, name: string) {
    l.Command? && l.op.Insert? && l.op.overwrite && l.op.t.name == name
  }

  /** The step loads t into the database. */
  predicate Loads(s: Sys, l: Label, t: Task) {
    l.Command? && l.op.Insert? && l.op.t == t && (l.op.overwrite || !Has(s.db.tasks, t.name))
  }

  /** Just before state j, d became a dependency of the named task: by loading it or by DISABLE. */
  ghost predicate Given(ss: seq<Sys>, ls: seq<Label>, j: nat, name: string, d: Dep)
    requires |ss| == |ls| + 1 && j < |ss|
  {
    if j == 0 then exists t :: t in ss[0].db.tasks && t.name == name && d in t.deps
    else
      || (exists t :: Loads(ss[j - 1], ls[j - 1], t) && t.name == name && d in t.deps)
      || (ls[j - 1] == Command(AddDep(name, d)) && Has(ss[j - 1].db.tasks, name))
  }

  /** At state j the named task waits for a trigger: just loaded with triggers, or just rearmed. */
  ghost predicate Armed(ss: seq<Sys>, ls: seq<Label>, j: nat, t: Task)
    requires |ss| == |ls| + 1 && j < |ss|
  {
    && t.trig != []
    && if j == 0 then t in ss[0].db.tasks && !t.triggered
       else
         || (Loads(ss[j - 1], ls[j - 1], t) && !t.triggered)
         || (Enabled(ss[j - 1], ls[j - 1]) && OpOf(ss[j - 1], ls[j - 1]) == Some(Rearm(t.name)) && t in ss[j].db.tasks)
  }

  /** No step from state j up to step k loads a new task over the named one. */
  ghost predicate NotOverwritten(ls: seq<Label>, j: nat, k: nat, name: string)
    requires k <= |ls|
  {
    forall m :: j <= m < k ==> !Overwrites(ls[m], name)
  }

  /** An operation that does not deliver d leaves d in the list. */
  lemma DepUntouched(t: Task, op: DbOp, d: Dep)
    requires d in t.deps && !Delivers(op, t.name, d)
    requires !(op.Insert? && op.overwrite && op.t.name == t.name)
    ensures d in Touch(t, op).deps
  {
    if (op.Fulfil? || op.RemoveDep?) && op.dep != d {
      OthersKept(t.deps, op.dep, d, 0);
      CountBound(t.deps, d);
      CountBound(SwapRemove(t.deps, op.dep, 0), d);
    }
  }

  /** In one step a dependency stays, unless its event is delivered or the task is overwritten. */
  lemma DepStays(s: Sys, l: Label, i: nat, d: Dep)
    requires Enabled(s, l) && i < |s.db.tasks| && d in s.db.tasks[i].deps
    requires !StepDelivers(s, l, s.db.tasks[i].name, d) && !Overwrites(l, s.db.tasks[i].name)
    ensures d in TaskAfter(s, l, i).deps
  {
    if OpOf(s, l).Some? {
      var op := OpOf(s, l).value;
      if op.Insert? {
        assert l.Command?;
      }
      DepUntouched(s.db.tasks[i], op, d);
    }
  }

  lemma TriggerUntouched(t: Task, op: DbOp)
    requires !t.triggered && t.trig != []
    requires forall d :: d in t.trig ==> !Delivers(op, t.name, d)
    requires !(op.Insert? && op.overwrite && op.t.name == t.name)
    ensures !Touch(t, op).triggered && Touch(t, op).trig == t.trig
  {
    if (op.Fulfil? || op.RemoveDep?) && op.dep in t.trig {
      assert !Delivers(op, t.name, op.dep);
    }
  }

  /** In one step an untriggered task stays untriggered and keeps its triggers. */
  lemma UntriggeredStays(s: Sys, l: Label, i: nat)
    requires Enabled(s, l) && i < |s.db.tasks|
    requires !s.db.tasks[i].triggered && s.db.tasks[i].trig != []
    requires forall d :: d in s.db.tasks[i].trig ==> !StepDelivers(s, l, s.db.tasks[i].name, d)
    requires !Overwrites(l, s.db.tasks[i].name)
    ensures !TaskAfter(s, l, i).triggered
    ensures TaskAfter(s, l, i).trig == s.db.tasks[i].trig
  {
    if OpOf(s, l).Some? {
      var op := OpOf(s, l).value;
      var t := s.db.tasks[i];
      if op.Insert? {
        assert l.Command?;
      }
      forall d | d in t.trig ensures !Delivers(op, t.name, d) {
        assert !StepDelivers(s, l, t.name, d);
      }
      TriggerUntouched(t, op);
    }
  }

  /** A step keeps names unique and delivers a dependency that it takes away. */
  lemma DepStep(s: Sys, l: Label, i: nat, d: Dep)
    requires Enabled(s, l) && UniqueNames(s.db.tasks) && i < |s.db.tasks| && d in s.db.tasks[i].deps
    requires !Overwrites(l, s.db.tasks[i].name)
    ensures UniqueNames(Next(s, l).db.tasks) && i < |Next(s, l).db.tasks|
    ensures Next(s, l).db.tasks[i].name == s.db.tasks[i].name
    ensures d in Next(s, l).db.tasks[i].deps || StepDelivers(s, l, s.db.tasks[i].name, d)
  {
    StepNames(s, l);
    StepTask(s, l, i);
    if !StepDelivers(s, l, s.db.tasks[i].name, d) {
      DepStays(s, l, i, d);
    }
  }

  lemma KeepStep(s: Sys, l: Label, i: nat)
    requires Enabled(s, l) && UniqueNames(s.db.tasks) && i < |s.db.tasks|
    ensures UniqueNames(Next(s, l).db.tasks) && i < |Next(s, l).db.tasks|
    ensures Next(s, l).db.tasks[i].name == s.db.tasks[i].name
  {
    StepNames(s, l);
    StepTask(s, l, i);
  }

  /** A dependency held at state j and gone at state k was delivered in between. */
  lemma {:induction false} DepRun(ss: seq<Sys>, ls: seq<Label>, i: nat, d: Dep, j: nat, k: nat)
    requires IsRun(ss, ls) && j <= k <= |ls|
    requires UniqueNames(ss[j].db.tasks) && i < |ss[j].db.tasks| && d in ss[j].db.tasks[i].deps
    requires NotOverwritten(ls, j, k, ss[j].db.tasks[i].name)
    ensures UniqueNames(ss[k].db.tasks) && i < |ss[k].db.tasks|
    ensures ss[k].db.tasks[i].name == ss[j].db.tasks[i].name
    ensures d in ss[k].db.tasks[i].deps ||
            exists m :: j <= m < k && StepDelivers(ss[m], ls[m], ss[j].db.tasks[i].name, d)
    decreases k
  {
    if j < k {
      DepRun(ss, ls, i, d, j, k - 1);
      assert StepAt(ss, ls, k - 1);
      KeepStep(ss[k - 1], ls[k - 1], i);
      if d in ss[k - 1].db.tasks[i].deps {
        DepStep(ss[k - 1], ls[k - 1], i, d);
      }
    }
  }

  lemma {:induction false} TriggerRun(ss: seq<Sys>, ls: seq<Label>, i: nat, j: nat, k: nat)
    requires IsRun(ss, ls) && j <= k <= |ls|
    requires UniqueNames(ss[j].db.tasks) && i < |ss[j].db.tasks|
    requires ss[j].db.tasks[i].trig != [] && !ss[j].db.tasks[i].triggered
    requires NotOverwritten(ls, j, k, ss[j].db.tasks[i].name)
    ensures UniqueNames(ss[k].db.tasks) && i < |ss[k].db.tasks|
    ensures ss[k].db.tasks[i].name == ss[j].db.tasks[i].name
    ensures (!ss[k].db.tasks[i].triggered && ss[k].db.tasks[i].trig == ss[j].db.tasks[i].trig) ||
            exists m, d :: j <= m < k && d in ss[j].db.tasks[i].trig &&
                           StepDelivers(ss[m], ls[m], ss[j].db.tasks[i].name, d)
    decreases k
  {
    if j < k {
      TriggerRun(ss, ls, i, j, k - 1);
      assert StepAt(ss, ls, k - 1);
      StepNames(ss[k - 1], ls[k - 1]);
      var t := ss[j].db.tasks[i];
      if !exists m, d :: j <= m < k && d in t.trig && StepDelivers(ss[m], ls[m], t.name, d) {
        forall d | d in t.trig ensures !StepDelivers(ss[k - 1], ls[k - 1], t.name, d) {
        }
        UntriggeredStays(ss[k - 1], ls[k - 1], i);
        StepTask(ss[k - 1], ls[k - 1], i);
      }
    }
  }

  /** Names are unique all along a run that starts with unique names. */
  lemma {:induction false} RunNames(ss: seq<Sys>, ls: seq<Label>, k: nat)
    requires IsRun(ss, ls) && k <= |ls| && UniqueNames(ss[0].db.tasks)
    ensures UniqueNames(ss[k].db.tasks)
  {
    if k > 0 {
      RunNames(ss, ls, k - 1);
      assert StepAt(ss, ls, k - 1);
      StepNames(ss[k - 1], ls[k - 1]);
    }
  }

  /** A given dependency is really in the list of the task at state j. */
  lemma GivenIsHeld(ss: seq<Sys>, ls: seq<Label>, j: nat, name: string, d: Dep) returns (i: nat)
    requires IsRun(ss, ls) && j <= |ls| && UniqueNames(ss[0].db.tasks)
    requires Given(ss, ls, j, name, d)
    ensures i < |ss[j].db.tasks| && ss[j].db.tasks[i].name == name && d in ss[j].db.tasks[i].deps
  {
    if j == 0 {
      var t :| t in ss[0].db.tasks && t.name == name && d in t.deps;
      i :| 0 <= i < |ss[0].db.tasks| && ss[0].db.tasks[i] == t;
    } else {
      var db := ss[j - 1].db;
      assert StepAt(ss, ls, j - 1);
      if ls[j - 1] == Command(AddDep(name, d)) && Has(db.tasks, name) {
        i :| 0 <= i < |db.tasks| && db.tasks[i].name == name;
        assert ss[j].db.tasks[i] == WithDep(db.tasks[i], d);
      } else {
        var t :| Loads(ss[j - 1], ls[j - 1], t) && t.name == name && d in t.deps;
        i := LoadedAt(ss[j - 1], ls[j - 1], t);
      }
    }
  }

  /** A loaded task is in the database afterwards. */
  lemma LoadedAt(s: Sys, l: Label, t: Task) returns (i: nat)
    requires Enabled(s, l) && Loads(s, l, t)
    ensures i < |Next(s, l).db.tasks| && Next(s, l).db.tasks[i] == t
  {
    if Has(s.db.tasks, t.name) {
      i :| 0 <= i < |s.db.tasks| && s.db.tasks[i].name == t.name;
      assert Next(s, l).db.tasks[i] == Touch(s.db.tasks[i], l.op);
    } else {
      i := |s.db.tasks|;
    }
  }

  /** A started task is ready, wherever it is stored. */
  lemma StartedIsReady(s: Sys, l: Label, i: nat)
    requires UniqueNames(s.db.tasks) && i < |s.db.tasks| && Starts(s, l, s.db.tasks[i].name)
    ensures IsReady(s.db.tasks[i])
  {
    var name := s.db.tasks[i].name;
    var end := PassEnd(s.db.tasks, l.failAt);
    StartedExactly(s.db.tasks, end, name);
    var k :| 0 <= k < end && IsReady(s.db.tasks[k]) && s.db.tasks[k].name == name;
    assert k == i;
  }

  /**
   * Causal start: whenever a pass starts a task, each dependency the task was loaded with or was
   * given by DISABLE has been delivered to it after it was given.
   */
  lemma CausalStart(ss: seq<Sys>, ls: seq<Label>, j: nat, k: nat, name: string, d: Dep)
    requires IsRun(ss, ls) && UniqueNames(ss[0].db.tasks)
    requires j <= k < |ls| && Starts(ss[k], ls[k], name)
    requires Given(ss, ls, j, name, d) && NotOverwritten(ls, j, k, name)
    ensures exists m :: j <= m < k && StepDelivers(ss[m], ls[m], name, d)
  {
    RunNames(ss, ls, j);
    var i := GivenIsHeld(ss, ls, j, name, d);
    DepRun(ss, ls, i, d, j, k);
    StartedIsReady(ss[k], ls[k], i);
  }

  /** And a task with triggers is only started after one of them fired since load or last rearm. */
  lemma TriggeredStart(ss: seq<Sys>, ls: seq<Label>, j: nat, k: nat, t: Task)
    requires IsRun(ss, ls) && UniqueNames(ss[0].db.tasks)
    requires j <= k < |ls| && Starts(ss[k], ls[k], t.name)
    requires Armed(ss, ls, j, t) && NotOverwritten(ls, j, k, t.name)
    ensures exists m, d :: j <= m < k && d in t.trig && StepDelivers(ss[m], ls[m], t.name, d)
  {
    RunNames(ss, ls, j);
    assert j > 0 ==> StepAt(ss, ls, j - 1);
    var i: nat;
    if j == 0 || !Loads(ss[j - 1], ls[j - 1], t) {
      i :| 0 <= i < |ss[j].db.tasks| && ss[j].db.tasks[i] == t;
      if j > 0 {
        RunNames(ss, ls, j - 1);
        RearmedUntriggered(ss[j - 1], ls[j - 1], i);
      }
    } else {
      i := LoadedAt(ss[j - 1], ls[j - 1], t);
    }
    TriggerRun(ss, ls, i, j, k);
    StartedIsReady(ss[k], ls[k], i);
  }

  lemma RearmedUntriggered(s: Sys, l: Label, i: nat)
    requires Enabled(s, l) && i < |Next(s, l).db.tasks|
    requires OpOf(s, l) == Some(Rearm(Next(s, l).db.tasks[i].name))
    ensures Next(s, l).db.tasks[i].triggered <==> Next(s, l).db.tasks[i].trig == []
  {
    StepTasks(s, l);
    assert Next(s, l).db.tasks[i] == Touch(s.db.tasks[i], OpOf(s, l).value);
  }
}
