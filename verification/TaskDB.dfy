/**
 * The task database. Every critical section of the database lock is one operation; `Apply` says
 * what it does to each task, and class `TaskDb` carries the operations out with find-first loops
 * and in-place updates.
 */
module TaskDB {
  import opened Options
  import opened Tasks
  import opened DepLists

  datatype Db = Db(tasks: seq<Task>, spawnInhibit: bool)

  /** The critical sections that change the database (`hookOk`: the task-added hook succeeds). */
  datatype DbOp =
    | Insert(t: Task, overwrite: bool, hookOk: bool)
    | Rearm(name: string)
    | SetState(name: string, state: TaskState)
    | SetPid(name: string, pid: int)
    | SetRespawnInhibit(name: string, inhibit: bool)
    | AddDep(name: string, dep: Dep)
    | RemoveDep(name: string, dep: Dep)
    | Fulfil(dep: Dep, target: Option<string>)
    | SetSpawnInhibit(inhibit: bool)

  /** New contents, whether the caller sees success, and whether `changed` was broadcast. */
  datatype DbResult = DbResult(db: Db, ok: bool, broadcast: bool)

  ghost predicate UniqueNames(tasks: seq<Task>) {
    forall i, j :: 0 <= i < j < |tasks| ==> tasks[i].name != tasks[j].name
  }

  predicate Has(tasks: seq<Task>, name: string) {
    exists i :: 0 <= i < |tasks| && tasks[i].name == name
  }

  /** A task that receives an event. */
  function Fulfilled(t: Task, d: Dep): Task {
    t.(deps := SwapRemove(t.deps, d, 0), triggered := t.triggered || d in t.trig)
  }

  /** A task that is put into a state; failing and finishing keep the count of consecutive failures. */
  function WithState(t: Task, s: TaskState): Task {
    var base := s.(notified := false);
    t.(state := s,
       failCount := if base == FAILED then t.failCount + 1 else if base == DONE then 0 else t.failCount)
  }

  function WithDep(t: Task, d: Dep): Task {
    if d in t.deps then t else t.(deps := t.deps + [d])
  }

  /** The effect of an operation on one task. */
  function Touch(t: Task, op: DbOp): Task {
    match op
    case Insert(u, overwrite, _) => if overwrite && t.name == u.name then u else t
    case Rearm(n) => if t.name == n then t.(triggered := t.trig == [], state := LOADED) else t
    case SetState(n, s) => if t.name == n then WithState(t, s) else t
    case SetPid(n, p) => if t.name == n then t.(pid := p) else t
    case SetRespawnInhibit(n, b) => if t.name == n then t.(inhibitRespawn := b) else t
    case AddDep(n, d) => if t.name == n then WithDep(t, d) else t
    case RemoveDep(n, d) => if t.name == n then Fulfilled(t, d) else t
    case Fulfil(d, target) => if target.None? || t.name == target.value then Fulfilled(t, d) else t
    case SetSpawnInhibit(_) => t
  }

  function TouchAll(tasks: seq<Task>, op: DbOp): seq<Task> {
    seq(|tasks|, i requires 0 <= i < |tasks| => Touch(tasks[i], op))
  }

  function Apply(db: Db, op: DbOp): DbResult {
    var touched := db.(tasks := TouchAll(db.tasks, op));
    match op
    case Insert(u, overwrite, hookOk) =>
      if !Has(db.tasks, u.name) then DbResult(db.(tasks := db.tasks + [u]), hookOk, hookOk)
      else if overwrite then DbResult(touched, hookOk, hookOk)
      else DbResult(db, false, false)
    case Rearm(n) => DbResult(touched, Has(db.tasks, n), true)
    case SetState(n, _) => DbResult(touched, Has(db.tasks, n), Has(db.tasks, n))
    case SetPid(n, _) => DbResult(touched, Has(db.tasks, n), false)
    case SetRespawnInhibit(n, _) => DbResult(touched, Has(db.tasks, n), false)
    case AddDep(n, _) => DbResult(touched, Has(db.tasks, n), false)
    case RemoveDep(n, _) => DbResult(touched, Has(db.tasks, n), Has(db.tasks, n))
    case Fulfil(_, _) => DbResult(touched, true, true)
    case SetSpawnInhibit(b) => DbResult(db.(spawnInhibit := b), true, b != db.spawnInhibit && !b)
  }

  /** Where a pass stops: at the ready task whose dispatcher cannot be created, or at the end. */
  function PassEnd(tasks: seq<Task>, failAt: nat): (n: nat) {
    if failAt < |tasks| && IsReady(tasks[failAt]) then failAt else |tasks|
  }

  function PassTask(t: Task, i: nat, end: nat): Task {
    if !IsReady(t) || i > end then t
    else t.(state := if i < end then STARTING else LOADED)
  }

  /** Names of the ready tasks among the first n, in order. */
  function ReadyNames(tasks: seq<Task>, n: nat): (r: seq<string>)
    requires n <= |tasks|
  {
    if n == 0 then []
    else ReadyNames(tasks, n - 1) + (if IsReady(tasks[n - 1]) then [tasks[n - 1].name] else [])
  }

  datatype PassResult = PassResult(db: Db, started: seq<string>, ok: bool)

  /** One scheduling pass. */
  function Pass(db: Db, failAt: nat): PassResult {
    if db.spawnInhibit then PassResult(db, [], true)
    else
      var end := PassEnd(db.tasks, failAt);
      PassResult(
        db.(tasks := seq(|db.tasks|, i requires 0 <= i < |db.tasks| => PassTask(db.tasks[i], i, end))),
        ReadyNames(db.tasks, end),
        end == |db.tasks|)
  }

  /** A pass that has come to task n. */
  function PassedUpTo(tasks: seq<Task>, n: nat, end: nat): seq<Task> {
    seq(|tasks|, i requires 0 <= i < |tasks| => if i < n then PassTask(tasks[i], i, end) else tasks[i])
  }

  lemma PassedStep(tasks: seq<Task>, n: nat, end: nat)
    requires n < |tasks| && n <= end
    ensures PassedUpTo(tasks, n, end)[n] == tasks[n]
    ensures PassedUpTo(tasks, n + 1, end) == PassedUpTo(tasks, n, end)[n := PassTask(tasks[n], n, end)]
    ensures !IsReady(tasks[n]) ==> PassedUpTo(tasks, n + 1, end) == PassedUpTo(tasks, n, end)
  {
  }

  lemma PassedAll(tasks: seq<Task>, failAt: nat, n: nat)
    requires n >= |tasks| || n > PassEnd(tasks, failAt)
    ensures PassedUpTo(tasks, n, PassEnd(tasks, failAt)) == Pass(Db(tasks, false), failAt).db.tasks
  {
  }

  /** A task the next pass would start. */
  predicate Startable(db: Db, i: nat)
    requires i < |db.tasks|
  {
    !db.spawnInhibit && IsReady(db.tasks[i])
  }

  /**
   * No wakeup is forgotten by the database: a successful operation that makes a task ready, or one
   * that lets passes start a ready task again, broadcasts `changed`, with the one exception of
   * lifting a respawn inhibition.
   */
  lemma WakeupCompleteness(db: Db, op: DbOp, i: nat)
    requires !op.SetRespawnInhibit?
    requires Apply(db, op).ok
    requires i < |Apply(db, op).db.tasks|
    requires
      || (IsReady(Apply(db, op).db.tasks[i]) && (i < |db.tasks| ==> !IsReady(db.tasks[i])))
      || (Startable(Apply(db, op).db, i) && (i < |db.tasks| ==> !Startable(db, i)))
    ensures Apply(db, op).broadcast
  {
  }

  /** The exception: it never broadcasts, and it frees exactly the tasks only inhibition held back. */
  lemma SilentWakeup(db: Db, name: string, inhibit: bool, i: nat)
    requires i < |db.tasks| && !IsReady(db.tasks[i])
    ensures !Apply(db, SetRespawnInhibit(name, inhibit)).broadcast
    ensures IsReady(Apply(db, SetRespawnInhibit(name, inhibit)).db.tasks[i]) <==>
            && db.tasks[i].name == name && !inhibit
            && db.tasks[i].respawn && db.tasks[i].inhibitRespawn
            && IsReady(db.tasks[i].(inhibitRespawn := false))
  {
    var op := SetRespawnInhibit(name, inhibit);
    assert Apply(db, op).db.tasks[i] == Touch(db.tasks[i], op);
  }

  /** A pass that succeeds without inhibition leaves no ready task behind. */
  lemma PassLeavesNoneReady(db: Db, failAt: nat, i: nat)
    requires !db.spawnInhibit && Pass(db, failAt).ok && i < |db.tasks|
    ensures !IsReady(Pass(db, failAt).db.tasks[i])
  {
    assert Pass(db, failAt).db.tasks[i] == PassTask(db.tasks[i], i, |db.tasks|);
  }

  /** A name is started by a pass exactly if it names a ready task before the stop, and then once. */
  lemma {:induction false} StartedExactly(tasks: seq<Task>, n: nat, name: string)
    requires UniqueNames(tasks) && n <= |tasks|
    ensures name in ReadyNames(tasks, n) <==> exists i :: 0 <= i < n && IsReady(tasks[i]) && tasks[i].name == name
    ensures multiset(ReadyNames(tasks, n))[name] <= 1
  {
    if n > 0 {
      StartedExactly(tasks, n - 1, name);
    }
  }

  /** The names a pass starts are pairwise different. */
  lemma {:induction false} StartedDistinct(tasks: seq<Task>, n: nat)
    requires UniqueNames(tasks) && n <= |tasks|
    ensures forall a, b :: 0 <= a < b < |ReadyNames(tasks, n)| ==> ReadyNames(tasks, n)[a] != ReadyNames(tasks, n)[b]
  {
    if n > 0 {
      StartedDistinct(tasks, n - 1);
      StartedExactly(tasks, n - 1, tasks[n - 1].name);
      assert tasks[n - 1].name !in ReadyNames(tasks, n - 1);
    }
  }

  /** Each started name belongs to a ready task before the stop. */
  lemma StartedOwner(tasks: seq<Task>, n: nat, a: nat) returns (i: nat)
    requires UniqueNames(tasks) && n <= |tasks| && a < |ReadyNames(tasks, n)|
    ensures i < n && IsReady(tasks[i]) && tasks[i].name == ReadyNames(tasks, n)[a]
  {
    var name := ReadyNames(tasks, n)[a];
    StartedExactly(tasks, n, name);
    i :| 0 <= i < n && IsReady(tasks[i]) && tasks[i].name == name;
  }

  /** The operation delivers an event to the task: to all tasks, to this target, or by ENABLE. */
  predicate Receives(t: Task, op: DbOp) {
    || (op.Fulfil? && (op.target == None || op.target == Some(t.name)))
    || (op.RemoveDep? && op.name == t.name)
  }

  /**
   * Operations keep a dependency list free of duplicates. An event is then taken out of a set, a
   * dependency given by DISABLE is put into it, and nothing else changes it.
   */
  lemma DepsStayDistinct(t: Task, op: DbOp)
    requires NoDuplicates(t.deps) && (op.Insert? ==> NoDuplicates(op.t.deps))
    ensures NoDuplicates(Touch(t, op).deps)
    ensures Receives(t, op) ==> forall e :: e in Touch(t, op).deps <==> e in t.deps && e != op.dep
    ensures op.AddDep? && op.name == t.name ==>
              forall e :: e in Touch(t, op).deps <==> e in t.deps || e == op.dep
    ensures !Receives(t, op) && !op.AddDep? && !op.Insert? ==> Touch(t, op).deps == t.deps
  {
    if Receives(t, op) {
      RemovalOnSets(t.deps, op.dep);
    }
  }

  /** A pass keeps names where they are and unique. */
  lemma PassNames(db: Db, failAt: nat)
    requires UniqueNames(db.tasks)
    ensures |Pass(db, failAt).db.tasks| == |db.tasks|
    ensures forall i :: 0 <= i < |db.tasks| ==> Pass(db, failAt).db.tasks[i].name == db.tasks[i].name
    ensures UniqueNames(Pass(db, failAt).db.tasks)
  {
    var r := Pass(db, failAt).db.tasks;
    forall i, j | 0 <= i < j < |r| ensures r[i].name != r[j].name {
      assert db.tasks[i].name != db.tasks[j].name;
    }
  }

  /** Operations never make two tasks share a name. */
  lemma NamesStayUnique(db: Db, op: DbOp)
    requires UniqueNames(db.tasks)
    ensures UniqueNames(Apply(db, op).db.tasks)
  {
    var r := Apply(db, op).db.tasks;
    forall i, j | 0 <= i < j < |r| ensures r[i].name != r[j].name {
      if j < |db.tasks| {
        assert db.tasks[i].name != db.tasks[j].name;
      }
    }
  }

  /** The database object: the array of tasks with its allocated size, and a count of broadcasts. */
  class TaskDb {
    var taskSet: seq<Task>
    var taskSetSize: nat
    var spawnInhibit: bool
    var changed: nat

    ghost predicate Valid()
      reads this
    {
      1 <= taskSetSize && |taskSet| <= taskSetSize && UniqueNames(taskSet)
    }

    function Abs(): Db
      reads this
    {
      Db(taskSet, spawnInhibit)
    }

    /** The operation happened: contents, return value and broadcast are those of `Apply`. */
    twostate predicate Performed(op: DbOp, ret: int)
      reads this
    {
      var r := Apply(old(Abs()), op);
      && Abs() == r.db
      && ret == (if r.ok then 0 else -1)
      && changed == old(changed) + (if r.broadcast then 1 else 0)
    }

    constructor (initialSize: nat)
      requires initialSize >= 1
      ensures Valid() && Abs() == Db([], false) && taskSetSize == initialSize
    {
      taskSet, taskSetSize, spawnInhibit, changed := [], initialSize, false, 0;
    }

    /** Index of the first task with the given name, or -1. */
    method FindTask(name: string) returns (idx: int)
      ensures -1 <= idx < |taskSet|
      ensures idx >= 0 ==> taskSet[idx].name == name && name !in (set i | 0 <= i < idx :: taskSet[i].name)
      ensures idx == -1 <==> !Has(taskSet, name)
    {
      idx := 0;
      while idx < |taskSet|
        invariant 0 <= idx <= |taskSet|
        invariant forall i :: 0 <= i < idx ==> taskSet[i].name != name
      {
        if taskSet[idx].name == name {
          return;
        }
        idx := idx + 1;
      }
      idx := -1;
    }

    /** Updating the first match is updating every match, because names are unique. */
    lemma FirstIsAll(idx: nat, op: DbOp)
      requires Valid() && idx < |taskSet|
      requires forall t: Task :: t.name != taskSet[idx].name ==> Touch(t, op) == t
      ensures TouchAll(taskSet, op) == taskSet[idx := Touch(taskSet[idx], op)]
    {
      forall i | 0 <= i < |taskSet|
        ensures TouchAll(taskSet, op)[i] == taskSet[idx := Touch(taskSet[idx], op)][i]
      {
        if i != idx {
          assert taskSet[i].name != taskSet[idx].name;
        }
      }
    }

    /** An operation on a name that is not there changes nothing. */
    lemma AbsentIsNone(op: DbOp)
      requires forall i :: 0 <= i < |taskSet| ==> Touch(taskSet[i], op) == taskSet[i]
      ensures TouchAll(taskSet, op) == taskSet
    {
    }

    method InsertTask(t: Task, overwrite: bool, hookOk: bool) returns (ret: int)
      requires Valid()
      modifies this
      ensures Valid() && Performed(DbOp.Insert(t, overwrite, hookOk), ret)
      ensures taskSetSize == if old(|taskSet|) == old(taskSetSize) && !Has(old(taskSet), t.name)
                             then 2 * old(taskSetSize) else old(taskSetSize)
    {
      var op := DbOp.Insert(t, overwrite, hookOk);
      NamesStayUnique(Abs(), op);
      var idx := FindTask(t.name);
      if idx >= 0 {
        if !overwrite {
          return -1;
        }
        FirstIsAll(idx, op);
        taskSet := taskSet[idx := t];
      } else {
        if |taskSet| == taskSetSize {
          taskSetSize := taskSetSize * 2;
        }
        taskSet := taskSet + [t];
      }
      if !hookOk {
        return -1;
      }
      changed := changed + 1;
      ret := 0;
    }

    /** `failAt` is the index at which creating a dispatcher thread would fail. */
    method SpawnReady(failAt: nat) returns (ret: int, started: seq<string>)
      requires Valid()
      modifies this`taskSet
      ensures Valid()
      ensures var r := Pass(old(Abs()), failAt);
              Abs() == r.db && started == r.started && ret == if r.ok then 0 else -1
    {
      started := [];
      if spawnInhibit {
        return 0, started;
      }
      ghost var before, end := taskSet, PassEnd(taskSet, failAt);
      PassNames(Abs(), failAt);
      var i := 0;
      assert taskSet == PassedUpTo(before, 0, end);
      while i < |taskSet|
        invariant 0 <= i <= end && taskSet == PassedUpTo(before, i, end)
        invariant started == ReadyNames(before, i)
      {
        PassedStep(before, i, end);
        if IsReady(taskSet[i]) {
          if i == failAt {
            taskSet := taskSet[i := taskSet[i].(state := LOADED)];
            PassedAll(before, failAt, i + 1);
            return -1, started;
          }
          started := started + [taskSet[i].name];
          taskSet := taskSet[i := taskSet[i].(state := STARTING)];
        }
        i := i + 1;
      }
      PassedAll(before, failAt, i);
      ret := 0;
    }

    method SetInhibit(inh: bool) returns (ret: int)
      requires Valid()
      modifies this
      ensures Valid() && Performed(DbOp.SetSpawnInhibit(inh), ret)
    {
      if inh != spawnInhibit {
        spawnInhibit := inh;
        if !inh {
          changed := changed + 1;
        }
      }
      ret := 0;
    }

    method RearmTrigger(name: string) returns (ret: int)
      requires Valid()
      modifies this
      ensures Valid() && Performed(DbOp.Rearm(name), ret)
    {
      var op := DbOp.Rearm(name);
      NamesStayUnique(Abs(), op);
      var idx := FindTask(name);
      if idx >= 0 {
        FirstIsAll(idx, op);
        taskSet := taskSet[idx := taskSet[idx].(triggered := taskSet[idx].trig == [], state := LOADED)];
        ret := 0;
      } else {
        AbsentIsNone(op);
        ret := -1;
      }
      changed := changed + 1;
    }

    method SetTaskState(s: TaskState, name: string) returns (ret: int)
      requires Valid()
      modifies this
      ensures Valid() && Performed(DbOp.SetState(name, s), ret)
    {
      var op := DbOp.SetState(name, s);
      NamesStayUnique(Abs(), op);
      var idx := FindTask(name);
      if idx < 0 {
        AbsentIsNone(op);
        return -1;
      }
      FirstIsAll(idx, op);
      var t := taskSet[idx].(state := s);
      var base := s.(notified := false);
      if base == FAILED {
        t := t.(failCount := t.failCount + 1);
      } else if base == DONE {
        t := t.(failCount := 0);
      }
      taskSet := taskSet[idx := t];
      changed := changed + 1;
      ret := 0;
    }

    method SetTaskPid(pid: int, name: string) returns (ret: int)
      requires Valid()
      modifies this
      ensures Valid() && Performed(DbOp.SetPid(name, pid), ret)
    {
      var op := DbOp.SetPid(name, pid);
      NamesStayUnique(Abs(), op);
      var idx := FindTask(name);
      if idx < 0 {
        AbsentIsNone(op);
        return -1;
      }
      FirstIsAll(idx, op);
      taskSet := taskSet[idx := taskSet[idx].(pid := pid)];
      ret := 0;
    }

    method SetTaskRespawnInhibit(inhibit: bool, name: string) returns (ret: int)
      requires Valid()
      modifies this
      ensures Valid() && Performed(DbOp.SetRespawnInhibit(name, inhibit), ret)
    {
      var op := DbOp.SetRespawnInhibit(name, inhibit);
      NamesStayUnique(Abs(), op);
      var idx := FindTask(name);
      if idx < 0 {
        AbsentIsNone(op);
        return -1;
      }
      FirstIsAll(idx, op);
      taskSet := taskSet[idx := taskSet[idx].(inhibitRespawn := inhibit)];
      ret := 0;
    }

    method AddDepToTask(dep: Dep, name: string) returns (ret: int)
      requires Valid()
      modifies this
      ensures Valid() && Performed(DbOp.AddDep(name, dep), ret)
    {
      var op := DbOp.AddDep(name, dep);
      NamesStayUnique(Abs(), op);
      var idx := FindTask(name);
      if idx < 0 {
        AbsentIsNone(op);
        return -1;
      }
      FirstIsAll(idx, op);
      var deps := taskSet[idx].deps;
      var j := 0;
      while j < |deps|
        invariant 0 <= j <= |deps|
        invariant dep !in deps[..j]
      {
        if deps[j] == dep {
          assert taskSet == taskSet[idx := taskSet[idx]];
          return 0;
        }
        j := j + 1;
      }
      taskSet := taskSet[idx := taskSet[idx].(deps := deps + [dep])];
      ret := 0;
    }

    /** The removal and trigger loops on one task. */
    method RemoveDepFromTaskStruct(idx: nat, dep: Dep)
      requires Valid() && idx < |taskSet|
      modifies this`taskSet
      ensures Valid()
      ensures taskSet == old(taskSet)[idx := Fulfilled(old(taskSet)[idx], dep)]
    {
      var deps := taskSet[idx].deps;
      var j := 0;
      while j < |deps|
        invariant SwapRemove(deps, dep, j) == SwapRemove(taskSet[idx].deps, dep, 0)
        decreases |deps| - j
      {
        if deps[j] == dep {
          deps := deps[j := deps[|deps| - 1]][..|deps| - 1];
        }
        j := j + 1;
      }
      var trig := taskSet[idx].trig;
      var triggered := taskSet[idx].triggered;
      j := 0;
      while j < |trig|
        invariant 0 <= j <= |trig|
        invariant triggered == (taskSet[idx].triggered || dep in trig[..j])
      {
        assert trig[..j + 1] == trig[..j] + [trig[j]];
        if trig[j] == dep {
          triggered := true;
        }
        j := j + 1;
      }
      assert trig[..|trig|] == trig;
      taskSet := taskSet[idx := taskSet[idx].(deps := deps, triggered := triggered)];
    }

    method RemoveDepFromTask(dep: Dep, name: string) returns (ret: int)
      requires Valid()
      modifies this
      ensures Valid() && Performed(DbOp.RemoveDep(name, dep), ret)
    {
      var op := DbOp.RemoveDep(name, dep);
      var idx := FindTask(name);
      if idx < 0 {
        AbsentIsNone(op);
        return -1;
      }
      FirstIsAll(idx, op);
      RemoveDepFromTaskStruct(idx, dep);
      changed := changed + 1;
      ret := 0;
    }

    method FulfillDep(dep: Dep, target: Option<string>) returns (ret: int)
      requires Valid()
      requires target.Some? ==> Has(taskSet, target.value)
      modifies this
      ensures Valid() && Performed(DbOp.Fulfil(dep, target), ret)
    {
      var op := DbOp.Fulfil(dep, target);
      if target.Some? {
        var idx := FindTask(target.value);
        FirstIsAll(idx, op);
        RemoveDepFromTaskStruct(idx, dep);
      } else {
        var i := 0;
        while i < |taskSet|
          invariant 0 <= i <= |taskSet| && |taskSet| == old(|taskSet|) && Valid()
          invariant forall k :: 0 <= k < i ==> taskSet[k] == Fulfilled(old(taskSet)[k], dep)
          invariant forall k :: i <= k < |taskSet| ==> taskSet[k] == old(taskSet)[k]
          invariant spawnInhibit == old(spawnInhibit) && changed == old(changed)
        {
          RemoveDepFromTaskStruct(i, dep);
          i := i + 1;
        }
        assert taskSet == TouchAll(old(taskSet), op);
      }
      changed := changed + 1;
      ret := 0;
    }
  }
}
