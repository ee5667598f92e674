/**
 * The task record of the daemon: state bits, dependencies and the readiness test.
 */
module Tasks {

  /** A task's state bitmask, one Boolean per bit; no bit set means the task is merely loaded. */
  datatype TaskState = TaskState(starting: bool, running: bool, done: bool, failed: bool, notified: bool)

  const LOADED := TaskState(false, false, false, false, false)
  const STARTING := TaskState(true, false, false, false, false)
  const RUNNING := TaskState(false, true, false, false, false)
  const DONE := TaskState(false, false, true, false, false)
  const FAILED := TaskState(false, false, false, true, false)

  /** A dependency or trigger `name:event`. */
  datatype Dep = Dep(name: string, event: string)

  const EVENT_SPAWN := "spawn"
  const EVENT_WAIT := "wait"
  const EVENT_FAIL := "fail"
  const PROVIDED := "@provided"

  /** A feature offered once the provider is exactly in state `stateReq`. */
  datatype Provide = Provide(name: string, stateReq: TaskState)

  /** The parts of a task that scheduling depends on; `cmds` and `stopCmds` count the commands. */
  datatype Task = Task(
    name: string,
    cmds: nat,
    stopCmds: nat,
    deps: seq<Dep>,
    trig: seq<Dep>,
    triggered: bool,
    prv: seq<Provide>,
    respawn: bool,
    rearm: bool,
    state: TaskState,
    pid: int,
    maxRetries: int,
    failCount: int,
    inhibitRespawn: bool)

  /** Whether a scheduling pass may start the task. */
  predicate IsReady(t: Task) {
    && t.deps == []
    && t.triggered
    && !t.state.running && !t.state.starting
    && !(t.respawn && t.inhibitRespawn)
    && ((t.state.failed || t.state.done) ==>
          t.respawn && (t.maxRetries == -1 || t.failCount <= t.maxRetries))
  }

  /** A task as it comes out of the configuration reader. */
  predicate FreshTask(t: Task) {
    && t.state == LOADED
    && t.pid == -1
    && t.failCount == 0
    && !t.inhibitRespawn
    && t.triggered == (t.trig == [])
  }
}

/**
 * Removing a dependency from a task's list: every match is overwritten by the last entry,
 * which is then not looked at again.
 */
module DepLists {
  import opened Tasks

  /** The removal loop from position j on. */
  function SwapRemove(deps: seq<Dep>, d: Dep, j: nat): (r: seq<Dep>)
    ensures |r| <= |deps|
    decreases |deps| - j
  {
    if j >= |deps| then deps
    else if deps[j] == d then SwapRemove(deps[j := deps[|deps| - 1]][..|deps| - 1], d, j + 1)
    else SwapRemove(deps, d, j + 1)
  }

  ghost predicate NoDuplicates(deps: seq<Dep>) {
    forall i, j :: 0 <= i < j < |deps| ==> deps[i] != deps[j]
  }

  /** How often a dependency is listed. */
  function Count(deps: seq<Dep>, d: Dep): nat {
    multiset(deps)[d]
  }

  lemma SwapOut(a: seq<Dep>, x: Dep, b: seq<Dep>, y: Dep)
    ensures multiset(a + [y] + b) == multiset(a + [x] + b + [y]) - multiset{x}
  {
    var rest := multiset(a) + multiset(b) + multiset{y};
    assert multiset(a + [y] + b) == rest;
    assert multiset(a + [x] + b + [y]) == rest + multiset{x};
  }

  lemma DropLast(deps: seq<Dep>)
    requires deps != []
    ensures multiset(deps[..|deps| - 1]) == multiset(deps) - multiset{deps[|deps| - 1]}
  {
    assert deps == deps[..|deps| - 1] + [deps[|deps| - 1]];
  }

  lemma DropInner(deps: seq<Dep>, j: nat)
    requires j < |deps| - 1
    ensures multiset(deps[j := deps[|deps| - 1]][..|deps| - 1]) == multiset(deps) - multiset{deps[j]}
  {
    var n := |deps| - 1;
    var a, b := deps[..j], deps[j + 1..n];
    assert deps == a + [deps[j]] + b + [deps[n]];
    assert deps[j := deps[n]][..n] == a + [deps[n]] + b;
    SwapOut(a, deps[j], b, deps[n]);
  }

  /** The list after the first removal step at a match. */
  lemma DropAt(deps: seq<Dep>, j: nat)
    requires j < |deps|
    ensures multiset(deps[j := deps[|deps| - 1]][..|deps| - 1]) == multiset(deps) - multiset{deps[j]}
  {
    if j < |deps| - 1 {
      DropInner(deps, j);
    } else {
      assert deps[j := deps[j]] == deps;
      DropLast(deps);
    }
  }

  /** Every other dependency keeps its number of copies, so fulfilling one event disturbs no other. */
  lemma {:induction false} OthersKept(deps: seq<Dep>, d: Dep, e: Dep, j: nat)
    requires e != d
    ensures Count(SwapRemove(deps, d, j), e) == Count(deps, e)
    decreases |deps| - j
  {
    if j < |deps| {
      if deps[j] == d {
        DropAt(deps, j);
        OthersKept(deps[j := deps[|deps| - 1]][..|deps| - 1], d, e, j + 1);
      } else {
        OthersKept(deps, d, e, j + 1);
      }
    }
  }

  /** A copy left of the cursor is never removed. */
  lemma {:induction false} PrefixKept(deps: seq<Dep>, d: Dep, j: nat, k: nat)
    requires k < j <= |deps|
    ensures k < |SwapRemove(deps, d, j)| && SwapRemove(deps, d, j)[k] == deps[k]
    decreases |deps| - j
  {
    if j < |deps| {
      var next := if deps[j] == d then deps[j := deps[|deps| - 1]][..|deps| - 1] else deps;
      if j + 1 <= |next| {
        PrefixKept(next, d, j + 1, k);
      }
    }
  }

  /** The last entries, one fewer than there are copies of the dependency. */
  function Tail(deps: seq<Dep>, d: Dep): seq<Dep> {
    CountBound(deps, d);
    if Count(deps, d) == 0 then [] else deps[|deps| - (Count(deps, d) - 1)..]
  }

  lemma CountBound(deps: seq<Dep>, d: Dep)
    ensures Count(deps, d) <= |deps|
    ensures Count(deps, d) > 0 <==> d in deps
  {
    assert |multiset(deps)| == |deps|;
    assert multiset(deps) - multiset(deps)[d := 0] == multiset{}[d := multiset(deps)[d]];
    assert |multiset(deps)[d := 0]| + multiset(deps)[d] == |multiset(deps)|;
  }

  /** All copies of a dependency that does not occur before j lie in deps[j..]. */
  lemma CountAfter(deps: seq<Dep>, d: Dep, j: nat)
    requires j <= |deps|
    requires d !in deps[..j]
    ensures Count(deps, d) <= |deps| - j
    ensures Count(deps, d) == Count(deps[j..], d)
  {
    assert deps == deps[..j] + deps[j..];
    CountBound(deps[..j], d);
    CountBound(deps[j..], d);
  }

  /** The cursor's invariant: what is left to do fails exactly if the tail holds a copy. */
  lemma {:induction false} RemovalFrom(deps: seq<Dep>, d: Dep, j: nat)
    requires j <= |deps|
    requires d !in deps[..j]
    ensures d in SwapRemove(deps, d, j) <==> d in Tail(deps, d)
    decreases |deps| - j
  {
    var n := |deps|;
    CountBound(deps, d);
    CountAfter(deps, d, j);
    if j == n {
      assert deps[..j] == deps;
    } else if deps[j] != d {
      assert deps[..j + 1] == deps[..j] + [deps[j]];
      RemovalFrom(deps, d, j + 1);
    } else {
      var next := deps[j := deps[n - 1]][..n - 1];
      DropAt(deps, j);
      assert Count(next, d) == Count(deps, d) - 1;
      if j < n - 1 && deps[n - 1] == d {
        SurvivorCase(deps, d, j);
      } else {
        ShrinkCase(deps, d, j);
      }
    }
  }

  /** The last entry is itself a copy: it is moved under the cursor and survives. */
  lemma SurvivorCase(deps: seq<Dep>, d: Dep, j: nat)
    requires j < |deps| - 1 && deps[j] == d && deps[|deps| - 1] == d
    ensures d in SwapRemove(deps, d, j)
    ensures d in Tail(deps, d)
  {
    var n := |deps|;
    var next := deps[j := deps[n - 1]][..n - 1];
    PrefixKept(next, d, j + 1, j);
    CountBound(deps, d);
    CountBound(next, d);
    DropAt(deps, j);
    assert next[j] == d;
    assert Count(deps, d) >= 2;
    assert Tail(deps, d)[Count(deps, d) - 2] == deps[n - 1];
  }

  /** The matched entry is the last one: no copy is left. */
  lemma LastCase(deps: seq<Dep>, d: Dep)
    requires deps != [] && d !in deps[..|deps| - 1] && deps[|deps| - 1] == d
    ensures d !in SwapRemove(deps, d, |deps| - 1) && d !in Tail(deps, d)
  {
    var j := |deps| - 1;
    assert deps[j := deps[j]][..j] == deps[..j];
    DropLast(deps);
    CountBound(deps[..j], d);
    CountBound(deps, d);
  }

  lemma SuffixShrinks(deps: seq<Dep>, j: nat, from: nat)
    requires j < from < |deps|
    ensures deps[from..] == deps[j := deps[|deps| - 1]][..|deps| - 1][from..] + [deps[|deps| - 1]]
  {
  }

  /** The tail of a list loses its last entry with one copy and one entry less. */
  lemma TailShrinks(deps: seq<Dep>, d: Dep, j: nat)
    requires j < |deps| - 1 && d !in deps[..j] && deps[j] == d && deps[|deps| - 1] != d
    ensures d in Tail(deps, d) <==> d in Tail(deps[j := deps[|deps| - 1]][..|deps| - 1], d)
  {
    var n := |deps|;
    var next := deps[j := deps[n - 1]][..n - 1];
    DropInner(deps, j);
    CountBound(deps, d);
    CountBound(next, d);
    CountAfter(deps, d, j);
    var c := Count(deps, d);
    assert Count(next, d) == c - 1;
    if c > 1 {
      SuffixShrinks(deps, j, n - (c - 1));
    }
  }

  /** The last entry is no copy (or is the matched one): one copy less, one entry less. */
  lemma {:induction false} ShrinkCase(deps: seq<Dep>, d: Dep, j: nat)
    requires j < |deps| && d !in deps[..j] && deps[j] == d
    requires j == |deps| - 1 || deps[|deps| - 1] != d
    ensures d in SwapRemove(deps, d, j) <==> d in Tail(deps, d)
    decreases |deps| - j, 0
  {
    var n := |deps|;
    if j == n - 1 {
      LastCase(deps, d);
    } else {
      var next := deps[j := deps[n - 1]][..n - 1];
      assert next[..j + 1] == deps[..j] + [deps[n - 1]];
      RemovalFrom(next, d, j + 1);
      TailShrinks(deps, d, j);
    }
  }

  /**
   * Fulfilling an event removes the dependency completely exactly when none of its copies sits
   * among the last (copies - 1) entries of the list.
   */
  lemma RemovalComplete(deps: seq<Dep>, d: Dep)
    ensures d !in SwapRemove(deps, d, 0) <==> d !in Tail(deps, d)
  {
    RemovalFrom(deps, d, 0);
  }

  /** Two copies are the smallest failing case. */
  lemma RemovalCanFail(d: Dep)
    ensures SwapRemove([d, d], d, 0) == [d]
  {
    var next := [d, d][0 := d][..1];
    assert next == [d];
    assert SwapRemove([d, d], d, 0) == SwapRemove(next, d, 1);
  }

  /** On a duplicate-free list, removal is set difference and keeps the list duplicate-free. */
  lemma RemovalOnSets(deps: seq<Dep>, d: Dep)
    requires NoDuplicates(deps)
    ensures NoDuplicates(SwapRemove(deps, d, 0))
    ensures forall e :: e in SwapRemove(deps, d, 0) <==> e in deps && e != d
  {
    var r := SwapRemove(deps, d, 0);
    forall e ensures Count(r, e) == if e == d then 0 else Count(deps, e) {
      if e != d {
        OthersKept(deps, d, e, 0);
      } else {
        RemovalComplete(deps, d);
        AtMostOnce(deps, d);
        CountBound(deps, d);
        CountBound(r, d);
      }
    }
    forall e ensures e in r <==> e in deps && e != d {
      CountBound(r, e);
      CountBound(deps, e);
    }
    forall i, j | 0 <= i < j < |r| ensures r[i] != r[j] {
      if r[i] == r[j] {
        AtMostOnce(deps, r[i]);
        TwoCopies(r, i, j);
      }
    }
  }

  lemma {:induction false} AtMostOnce(deps: seq<Dep>, d: Dep)
    requires NoDuplicates(deps)
    ensures Count(deps, d) <= 1
  {
    if d in deps {
      var i :| 0 <= i < |deps| && deps[i] == d;
      DropAt(deps, i);
      var next := deps[i := deps[|deps| - 1]][..|deps| - 1];
      CountBound(next, d);
    }
  }

  lemma TwoCopies(deps: seq<Dep>, i: nat, j: nat)
    requires i < j < |deps| && deps[i] == deps[j]
    ensures Count(deps, deps[i]) >= 2
  {
    assert deps == deps[..j] + [deps[j]] + deps[j + 1..];
    assert deps[..j][i] == deps[i];
  }
}
