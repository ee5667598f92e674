/**
 * The pool of timers (src/timerdb.c): two parallel lists, slot 0 of which wakes the polling
 * thread, and a number of users for each timer.
 */
module TimerPool {

  /** `fd` is the descriptor in the poll list; everything else of a timer is its `setting`. */
  datatype Timer<S> = Timer(name: string, refs: nat, setting: S)
  datatype Slot<S> = Slot(timer: Timer<S>, fd: int)

  predicate UniqueNames<S>(s: seq<Slot<S>>) {
    forall i, j :: 0 <= i < j < |s| ==> s[i].timer.name != s[j].timer.name
  }

  predicate InUse<S>(s: seq<Slot<S>>) {
    UniqueNames(s) && forall i :: 0 <= i < |s| ==> s[i].timer.refs > 0
  }

  predicate Absent<S>(s: seq<Slot<S>>, name: string) {
    forall i :: 0 <= i < |s| ==> s[i].timer.name != name
  }

  /** The number of users of the timer with this name. */
  function Users<S>(s: seq<Slot<S>>, name: string): nat {
    if s == [] then 0
    else if s[|s| - 1].timer.name == name then s[|s| - 1].timer.refs
    else Users(s[..|s| - 1], name)
  }

  function Counted<S>(x: Slot<S>, refs: nat): Slot<S> {
    x.(timer := x.timer.(refs := refs))
  }

  /** What adding makes of the slots: one more user, or a new last slot. */
  ghost predicate Added<S>(s: seq<Slot<S>>, t: seq<Slot<S>>, x: Slot<S>) {
    if Absent(s, x.timer.name) then t == s + [x]
    else exists i :: 0 <= i < |s| && s[i].timer.name == x.timer.name
                     && t == s[i := Counted(s[i], s[i].timer.refs + 1)]
  }

  /** What removing makes of the slots: one user less, or the last slot in place of the freed one. */
  ghost predicate Removed<S>(s: seq<Slot<S>>, t: seq<Slot<S>>, name: string) {
    if Absent(s, name) then t == s
    else exists i :: 0 <= i < |s| && s[i].timer.name == name && t == Without(s, i)
  }

  function Without<S>(s: seq<Slot<S>>, i: nat): seq<Slot<S>>
    requires i < |s|
  {
    if s[i].timer.refs > 1 then s[i := Counted(s[i], s[i].timer.refs - 1)]
    else s[i := s[|s| - 1]][..|s| - 1]
  }

  class Pool<S(0)> {
    const cap: nat
    const timerList: array<Timer<S>>
    const pollList: array<int>
    var size: nat

    ghost predicate Valid()
      reads this, timerList, pollList
    {
      && timerList.Length == cap && pollList.Length == cap && 1 <= size <= cap
      && InUse(Slots())
    }

    ghost function Slots(): (s: seq<Slot<S>>)
      requires timerList.Length == cap && pollList.Length == cap && 1 <= size <= cap
      reads this, timerList, pollList
      ensures |s| == size - 1
      ensures forall i :: 0 <= i < |s| ==> s[i] == Slot(timerList[i + 1], pollList[i + 1])
    {
      seq(size - 1, i requires 0 <= i < timerList.Length - 1 && i < pollList.Length - 1 reads timerList, pollList =>
        Slot(timerList[i + 1], pollList[i + 1]))
    }

    constructor (capacity: nat, eventFd: int, setting: S)
      requires capacity >= 1
      ensures Valid() && fresh(timerList) && fresh(pollList) && cap == capacity && Slots() == []
    {
      cap := capacity;
      size := 1;
      timerList := new Timer<S>[capacity](i => Timer("", 0, setting));
      pollList := new int[capacity](i => eventFd);
    }

    /**
     * `fd` is what creating and setting the timer's descriptor yields, -1 when that fails; `woken`
     * says whether the polling thread could be told. A timer it could not be told of is inserted
     * and still reported as a failure.
     */
    method InsertTimer(timer: Timer<S>, fd: int, woken: bool) returns (res: int)
      requires Valid() && timer.refs > 0 && Absent(Slots(), timer.name)
      modifies this, timerList, pollList
      ensures Valid() && pollList[0] == old(pollList[0])
      ensures res == 0 <==> old(size) < cap && fd != -1 && woken
      ensures Slots() == if old(size) < cap && fd != -1 then old(Slots()) + [Slot(timer, fd)] else old(Slots())
    {
      if size >= cap {
        return -1;
      }
      if fd == -1 {
        return -1;
      }
      timerList[size] := timer;
      pollList[size] := fd;
      size := size + 1;
      assert Slots() == old(Slots()) + [Slot(timer, fd)];
      res := if woken then 0 else -1;
    }

    method AddTimer(name: string, setting: S, fd: int, woken: bool)
      requires Valid()
      modifies this, timerList, pollList
      ensures Valid() && pollList[0] == old(pollList[0])
      ensures if !Absent(old(Slots()), name) || (old(size) < cap && fd != -1)
              then Added(old(Slots()), Slots(), Slot(Timer(name, 1, setting), fd))
              else Slots() == old(Slots())
    {
      var i := 1;
      while i < size
        invariant 1 <= i <= size && size == old(size) && Valid() && Slots() == old(Slots())
        invariant pollList[0] == old(pollList[0])
        invariant forall j :: 1 <= j < i ==> timerList[j].name != name
      {
        if timerList[i].name == name {
          timerList[i] := timerList[i].(refs := timerList[i].refs + 1);
          ghost var s := old(Slots());
          assert Slots() == s[i - 1 := Counted(s[i - 1], s[i - 1].timer.refs + 1)];
          assert s[i - 1].timer.name == name;
          return;
        }
        i := i + 1;
      }
      assert Absent(Slots(), name);
      var res := InsertTimer(Timer(name, 1, setting), fd, woken);
    }

    /** Takes one user away from slot `i` and frees the slot with the last one. */
    method DropUser(i: nat)
      requires Valid() && 1 <= i < size
      modifies this, timerList, pollList
      ensures Valid() && pollList[0] == old(pollList[0])
      ensures Slots() == Without(old(Slots()), i - 1)
    {
      ghost var s := Slots();
      WithoutInUse(s, i - 1);
      if timerList[i].refs > 0 {
        timerList[i] := timerList[i].(refs := timerList[i].refs - 1);
      }
      if timerList[i].refs == 0 {
        if i < size - 1 {
          timerList[i] := timerList[size - 1];
          pollList[i] := pollList[size - 1];
        }
        size := size - 1;
      }
      assert Slots() == Without(s, i - 1);
    }

    method RemoveTimer(name: string)
      requires Valid()
      modifies this, timerList, pollList
      ensures Valid() && pollList[0] == old(pollList[0])
      ensures Removed(old(Slots()), Slots(), name)
    {
      ghost var s, k := Slots(), -1;
      var i := 1;
      while i < size
        invariant 1 <= i && Valid() && pollList[0] == old(pollList[0])
        invariant k < 0 ==> i <= size && Slots() == s && Absent(s[..i - 1], name)
        invariant k >= 0 ==> k < |s| && s[k].timer.name == name && Slots() == Without(s, k) && i >= k + 2
        decreases size - i
      {
        assert Slots()[i - 1].timer.name == timerList[i].name;
        if k >= 0 {
          OnlyOne(s, k, i - 1);
        }
        if timerList[i].name == name {
          DropUser(i);
          k := i - 1;
        }
        i := i + 1;
      }
    }
  }

  /** Behind the place of the removed user the name does not occur again. */
  lemma OnlyOne<S>(s: seq<Slot<S>>, k: nat, j: nat)
    requires InUse(s) && k < |s| && k < j < |Without(s, k)|
    ensures Without(s, k)[j].timer.name != s[k].timer.name
  {
  }

  lemma WithoutInUse<S>(s: seq<Slot<S>>, i: nat)
    requires i < |s| && InUse(s)
    ensures InUse(Without(s, i))
  {
  }

  lemma {:induction false} UsersAt<S>(s: seq<Slot<S>>, i: nat)
    requires i < |s| && UniqueNames(s)
    ensures Users(s, s[i].timer.name) == s[i].timer.refs
  {
    if i < |s| - 1 {
      UsersAt(s[..|s| - 1], i);
    }
  }

  lemma {:induction false} AbsentUsers<S>(s: seq<Slot<S>>, name: string)
    requires Absent(s, name)
    ensures Users(s, name) == 0
  {
    if s != [] {
      AbsentUsers(s[..|s| - 1], name);
    }
  }

  /** A timer of this name keeps its descriptor, its setting and its users. */
  ghost predicate Same<S>(s: seq<Slot<S>>, t: seq<Slot<S>>, name: string) {
    && (forall x :: x in s && x.timer.name == name ==> x in t)
    && (forall x :: x in t && x.timer.name == name ==> x in s)
  }

  lemma SameUsers<S>(s: seq<Slot<S>>, t: seq<Slot<S>>, name: string)
    requires UniqueNames(s) && UniqueNames(t) && Same(s, t, name)
    ensures Users(s, name) == Users(t, name)
  {
    if i :| 0 <= i < |s| && s[i].timer.name == name {
      assert s[i] in t;
      var j :| 0 <= j < |t| && t[j] == s[i];
      UsersAt(s, i);
      UsersAt(t, j);
    } else {
      AbsentUsers(s, name);
      assert forall x :: x in t ==> x.timer.name != name;
      AbsentUsers(t, name);
    }
  }

  lemma AppendSame<S>(s: seq<Slot<S>>, x: Slot<S>, name: string)
    requires name != x.timer.name
    ensures Same(s, s + [x], name)
  {
  }

  lemma UpdateSame<S>(s: seq<Slot<S>>, i: nat, x: Slot<S>, name: string)
    requires i < |s| && s[i].timer.name != name && x.timer.name != name
    ensures Same(s, s[i := x], name)
  {
    forall y | y in s && y.timer.name == name ensures y in s[i := x] {
      var j :| 0 <= j < |s| && s[j] == y;
      assert s[i := x][j] == y;
    }
  }

  lemma WithoutSame<S>(s: seq<Slot<S>>, i: nat, name: string)
    requires i < |s| && s[i].timer.name != name
    ensures Same(s, Without(s, i), name)
  {
    var t := Without(s, i);
    if s[i].timer.refs > 1 {
      UpdateSame(s, i, Counted(s[i], s[i].timer.refs - 1), name);
    } else {
      forall y | y in s && y.timer.name == name ensures y in t {
        var j :| 0 <= j < |s| && s[j] == y;
        assert t[if j == |s| - 1 then i else j] == y;
      }
    }
  }

  lemma AppendCounts<S>(s: seq<Slot<S>>, x: Slot<S>, name: string)
    requires InUse(s) && x.timer.refs == 1 && Absent(s, x.timer.name)
    ensures InUse(s + [x])
    ensures Users(s + [x], name) == Users(s, name) + (if name == x.timer.name then 1 else 0)
  {
    if name == x.timer.name {
      AbsentUsers(s, name);
    } else {
      AppendSame(s, x, name);
      SameUsers(s, s + [x], name);
    }
  }

  lemma CountUp<S>(s: seq<Slot<S>>, i: nat, name: string)
    requires InUse(s) && i < |s|
    ensures
      var t := s[i := Counted(s[i], s[i].timer.refs + 1)];
      InUse(t) && Users(t, name) == Users(s, name) + (if name == s[i].timer.name then 1 else 0)
  {
    var t := s[i := Counted(s[i], s[i].timer.refs + 1)];
    if name == s[i].timer.name {
      UsersAt(s, i);
      UsersAt(t, i);
    } else {
      UpdateSame(s, i, t[i], name);
      SameUsers(s, t, name);
    }
  }

  /** Adding gives the timer one more user and leaves every other timer as it is. */
  lemma AddCounts<S>(s: seq<Slot<S>>, t: seq<Slot<S>>, x: Slot<S>, name: string)
    requires InUse(s) && x.timer.refs == 1 && Added(s, t, x)
    ensures InUse(t)
    ensures Users(t, name) == Users(s, name) + (if name == x.timer.name then 1 else 0)
    ensures name != x.timer.name ==> Same(s, t, name)
  {
    if Absent(s, x.timer.name) {
      AppendCounts(s, x, name);
    } else {
      var i :| 0 <= i < |s| && s[i].timer.name == x.timer.name
               && t == s[i := Counted(s[i], s[i].timer.refs + 1)];
      CountUp(s, i, name);
      if name != x.timer.name {
        UpdateSame(s, i, t[i], name);
      }
    }
  }

  /** Removing takes one user away, if there is one, and leaves every other timer as it is. */
  lemma RemoveCounts<S>(s: seq<Slot<S>>, t: seq<Slot<S>>, removed: string, name: string)
    requires InUse(s) && Removed(s, t, removed)
    ensures InUse(t)
    ensures Users(t, name) == if name == removed && Users(s, name) > 0 then Users(s, name) - 1 else Users(s, name)
    ensures name != removed ==> Same(s, t, name)
  {
    if Absent(s, removed) {
      AbsentUsers(s, removed);
    } else {
      var i :| 0 <= i < |s| && s[i].timer.name == removed && t == Without(s, i);
      WithoutInUse(s, i);
      UsersAt(s, i);
      if name != removed {
        WithoutSame(s, i, name);
        SameUsers(s, t, name);
      } else if s[i].timer.refs > 1 {
        UsersAt(t, i);
      } else {
        AbsentUsers(t, removed);
      }
    }
  }

  /** A timer is in the pool exactly while it has users. */
  lemma PresentIffUsed<S>(s: seq<Slot<S>>, name: string)
    requires InUse(s)
    ensures Absent(s, name) <==> Users(s, name) == 0
  {
    if i :| 0 <= i < |s| && s[i].timer.name == name {
      UsersAt(s, i);
    } else {
      AbsentUsers(s, name);
    }
  }

  datatype Event = Add(name: string, ok: bool) | Remove(name: string)

  /** Uses asked for and not given back, a release with nothing to give back not counting. */
  function Balance(es: seq<Event>, name: string): nat {
    if es == [] then 0
    else
      var b, e := Balance(es[..|es| - 1], name), es[|es| - 1];
      if e.name != name then b
      else if e.Add? then (if e.ok then b + 1 else b)
      else if b > 0 then b - 1 else 0
  }

  ghost predicate PoolStep<S(!new)>(s: seq<Slot<S>>, e: Event, t: seq<Slot<S>>) {
    match e
    case Remove(name) => Removed(s, t, name)
    case Add(name, ok) =>
      if ok then exists x: Slot<S> :: x.timer.name == name && x.timer.refs == 1 && Added(s, t, x) else t == s
  }

  ghost predicate PoolRun<S(!new)>(ss: seq<seq<Slot<S>>>, es: seq<Event>) {
    |ss| == |es| + 1 && ss[0] == [] && forall i :: 0 <= i < |es| ==> PoolStep(ss[i], es[i], ss[i + 1])
  }

  /** Throughout a run every timer has as many users as were added and not removed again. */
  lemma {:induction false} UsersBalance<S(!new)>(ss: seq<seq<Slot<S>>>, es: seq<Event>, name: string)
    requires PoolRun(ss, es)
    ensures InUse(ss[|es|]) && Users(ss[|es|], name) == Balance(es, name)
    ensures Absent(ss[|es|], name) <==> Balance(es, name) == 0
    decreases |es|
  {
    if es != [] {
      var n := |es| - 1;
      var before := ss[..|es|];
      assert PoolRun(before, es[..n]) by {
        forall i | 0 <= i < n ensures PoolStep(before[i], es[..n][i], before[i + 1]) {
          assert PoolStep(ss[i], es[i], ss[i + 1]);
        }
      }
      UsersBalance(before, es[..n], name);
      StepCounts(ss[n], es[n], ss[n + 1], name);
    }
    PresentIffUsed(ss[|es|], name);
  }

  lemma StepCounts<S(!new)>(s: seq<Slot<S>>, e: Event, t: seq<Slot<S>>, name: string)
    requires InUse(s) && PoolStep(s, e, t)
    ensures InUse(t)
    ensures Users(t, name) ==
            if e.name != name then Users(s, name)
            else if e.Add? then (if e.ok then Users(s, name) + 1 else Users(s, name))
            else if Users(s, name) > 0 then Users(s, name) - 1 else 0
  {
    if e.Remove? {
      RemoveCounts(s, t, e.name, name);
    } else if e.ok {
      var x: Slot<S> :| x.timer.name == e.name && x.timer.refs == 1 && Added(s, t, x);
      AddCounts(s, t, x, name);
    }
  }
}
