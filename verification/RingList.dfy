/**
 * Doubly linked rings with a list head (inc/list.h). What a ring holds is a sequence of nodes,
 * its first one the head; the operations take that sequence as a ghost argument.
 */
module RingList {

  class Node {
    var prev: Node?
    var next: Node?

    constructor ()
      ensures prev == null && next == null
    {
      prev, next := null, null;
    }
  }

  function Succ(i: nat, n: nat): nat
    requires i < n
  {
    if i + 1 == n then 0 else i + 1
  }

  function Pred(i: nat, n: nat): nat
    requires i < n
  {
    if i == 0 then n - 1 else i - 1
  }

  ghost predicate Distinct(r: seq<Node>) {
    forall i, j :: 0 <= i < j < |r| ==> r[i] != r[j]
  }

  /** Every node is linked with the one after it, the last one with the first. */
  ghost predicate Ring(r: seq<Node>)
    reads r
  {
    && r != [] && Distinct(r)
    && (forall i {:trigger r[i].next} :: 0 <= i < |r| ==> r[i].next == r[Succ(i, |r|)])
    && (forall i {:trigger r[i].prev} :: 0 <= i < |r| ==> r[i].prev == r[Pred(i, |r|)])
  }

  /** The list with this head and these entries. */
  ghost predicate IsList(list: Node, s: seq<Node>)
    reads list, s
  {
    Ring([list] + s)
  }

  method Init(list: Node)
    modifies list
    ensures IsList(list, [])
  {
    list.next := list;
    list.prev := list;
  }

  method IsEmpty(list: Node, ghost s: seq<Node>) returns (empty: bool)
    requires IsList(list, s)
    ensures empty <==> s == []
  {
    ghost var r := [list] + s;
    assert r[0].next == r[Succ(0, |r|)];
    empty := list.next == list;
  }

  function With(r: seq<Node>, k: nat, entry: Node): seq<Node>
    requires k < |r|
  {
    r[..k + 1] + [entry] + r[k + 1..]
  }

  function Without(r: seq<Node>, k: nat): seq<Node>
    requires k < |r|
  {
    r[..k] + r[k + 1..]
  }

  lemma WithIndex(r: seq<Node>, k: nat, entry: Node, i: nat)
    requires k < |r| && i <= |r|
    ensures With(r, k, entry)[i] == if i <= k then r[i] else if i == k + 1 then entry else r[i - 1]
  {
  }

  lemma WithDistinct(r: seq<Node>, k: nat, entry: Node)
    requires Distinct(r) && k < |r| && entry !in r
    ensures Distinct(With(r, k, entry))
  {
  }

  lemma Linked(r: seq<Node>, k: nat, entry: Node)
    requires Distinct(r) && entry !in r && k < |r|
    requires forall i :: 0 <= i < |r| ==> r[i].next == if i == k then entry else r[Succ(i, |r|)]
    requires forall i :: 0 <= i < |r| ==> r[i].prev == if i == Succ(k, |r|) then entry else r[Pred(i, |r|)]
    requires entry.next == r[Succ(k, |r|)] && entry.prev == r[k]
    ensures Ring(With(r, k, entry))
  {
    var q := With(r, k, entry);
    WithDistinct(r, k, entry);
    forall i | 0 <= i < |q| ensures q[i].next == q[Succ(i, |q|)] {
      WithIndex(r, k, entry, i);
      WithIndex(r, k, entry, Succ(i, |q|));
    }
    forall i | 0 <= i < |q| ensures q[i].prev == q[Pred(i, |q|)] {
      WithIndex(r, k, entry, i);
      WithIndex(r, k, entry, Pred(i, |q|));
    }
  }

  /** Puts an entry between two neighbours, the first of them the k-th node of the ring. */
  method Insert(entry: Node, prev: Node, next: Node, ghost r: seq<Node>, ghost k: nat)
    requires Ring(r) && entry !in r && k < |r| && prev == r[k] && next == r[Succ(k, |r|)]
    modifies entry, prev, next
    ensures Ring(With(r, k, entry))
  {
    entry.next := next;
    entry.prev := prev;
    next.prev := entry;
    prev.next := entry;
    Linked(r, k, entry);
  }

  lemma WithoutIndex(r: seq<Node>, k: nat, i: nat)
    requires k < |r| && i < |r| - 1
    ensures Without(r, k)[i] == if i < k then r[i] else r[i + 1]
  {
  }

  lemma WithoutDistinct(r: seq<Node>, k: nat)
    requires Distinct(r) && k < |r|
    ensures Distinct(Without(r, k)) && r[k] !in Without(r, k)
  {
  }

  lemma Unlinked(r: seq<Node>, k: nat)
    requires Distinct(r) && 0 < k < |r|
    requires forall i :: 0 <= i < |r| && i != k ==>
               r[i].next == if i == k - 1 then r[Succ(k, |r|)] else r[Succ(i, |r|)]
    requires forall i :: 0 <= i < |r| && i != k ==>
               r[i].prev == if i == Succ(k, |r|) then r[k - 1] else r[Pred(i, |r|)]
    ensures Ring(Without(r, k))
  {
    var q := Without(r, k);
    WithoutDistinct(r, k);
    forall i | 0 <= i < |q| ensures q[i].next == q[Succ(i, |q|)] {
      WithoutIndex(r, k, i);
      WithoutIndex(r, k, Succ(i, |q|));
    }
    forall i | 0 <= i < |q| ensures q[i].prev == q[Pred(i, |q|)] {
      WithoutIndex(r, k, i);
      WithoutIndex(r, k, Pred(i, |q|));
    }
  }

  /** Takes the k-th node of a ring out and clears its links. */
  method Delete(entry: Node, ghost r: seq<Node>, ghost k: nat)
    requires Ring(r) && 0 < k < |r| && entry == r[k]
    modifies entry, entry.prev, entry.next
    ensures Ring(Without(r, k)) && entry.next == null && entry.prev == null
  {
    entry.next.prev := entry.prev;
    entry.prev.next := entry.next;
    entry.next := null;
    entry.prev := null;
    Unlinked(r, k);
  }

  method Prepend(list: Node, entry: Node, ghost s: seq<Node>)
    requires IsList(list, s) && entry != list && entry !in s
    modifies list, s, entry
    ensures IsList(list, [entry] + s)
  {
    ghost var r := [list] + s;
    assert r[0].next == r[Succ(0, |r|)];
    Insert(entry, list, list.next, r, 0);
    assert With(r, 0, entry) == [list] + ([entry] + s);
  }

  method Append(list: Node, entry: Node, ghost s: seq<Node>)
    requires IsList(list, s) && entry != list && entry !in s
    modifies list, s, entry
    ensures IsList(list, s + [entry])
  {
    ghost var r := [list] + s;
    assert r[0].prev == r[|s|] && r[|s|].next == r[Succ(|s|, |r|)];
    Insert(entry, list.prev, list.prev.next, r, |s|);
    assert With(r, |s|, entry) == [list] + (s + [entry]);
  }

  /** The comparison callback orders these nodes; nodes that compare as zero are equals. */
  ghost predicate Orders(cmp: (Node, Node) -> int, nodes: seq<Node>) {
    && (forall a, b :: a in nodes && b in nodes ==> (cmp(a, b) <= 0 <==> cmp(b, a) >= 0))
    && (forall a, b, c :: a in nodes && b in nodes && c in nodes && cmp(a, b) <= 0 && cmp(b, c) <= 0 ==>
          cmp(a, c) <= 0)
  }

  ghost predicate Sorted(s: seq<Node>, cmp: (Node, Node) -> int) {
    forall i, j :: 0 <= i < j < |s| ==> cmp(s[i], s[j]) <= 0
  }

  /** The entry goes before the first one that is not smaller. */
  ghost predicate InPlace(s: seq<Node>, k: int, entry: Node, cmp: (Node, Node) -> int) {
    && 0 <= k <= |s|
    && (forall i :: 0 <= i < k ==> cmp(s[i], entry) < 0)
    && (k < |s| ==> cmp(s[k], entry) >= 0)
  }

  lemma NextEntry(list: Node, s: seq<Node>, k: nat)
    requires IsList(list, s) && k <= |s|
    ensures (if k == 0 then list else s[k - 1]).next == At(list, s, k)
  {
    var r := [list] + s;
    assert r[k].next == r[Succ(k, |r|)];
  }

  /** The loop: the first entry that is not smaller, or the head. */
  method FindPlace(list: Node, entry: Node, cmp: (Node, Node) -> int, ghost s: seq<Node>)
    returns (cur: Node, ghost k: nat)
    requires IsList(list, s)
    ensures InPlace(s, k, entry, cmp) && cur == At(list, s, k)
  {
    k := 0;
    NextEntry(list, s, 0);
    cur := list.next;
    while cur != list
      invariant k <= |s| && cur == At(list, s, k)
      invariant forall i :: 0 <= i < k ==> cmp(s[i], entry) < 0
      decreases |s| - k
    {
      if cmp(cur, entry) >= 0 {
        return;
      }
      NextEntry(list, s, k + 1);
      cur := cur.next;
      k := k + 1;
    }
    HeadIsNoEntry(list, s);
  }

  method InsertSorted(list: Node, entry: Node, cmp: (Node, Node) -> int, ghost s: seq<Node>) returns (ghost k: nat)
    requires IsList(list, s) && entry != list && entry !in s
    modifies list, s, entry
    ensures InPlace(s, k, entry, cmp) && IsList(list, s[..k] + [entry] + s[k..])
  {
    var cur;
    cur, k := FindPlace(list, entry, cmp, s);
    HeadIsNoEntry(list, s);
    if cur != list {
      ghost var r := [list] + s;
      assert r[k + 1] == cur && cur.prev == r[Pred(k + 1, |r|)];
      Insert(entry, cur.prev, cur, r, k);
      assert With(r, k, entry) == [list] + (s[..k] + [entry] + s[k..]);
    } else {
      Append(list, entry, s);
      assert s[..k] + [entry] + s[k..] == s + [entry];
    }
  }

  lemma BehindEntry(s: seq<Node>, k: int, entry: Node, cmp: (Node, Node) -> int, j: int)
    requires Orders(cmp, s + [entry]) && Sorted(s, cmp) && InPlace(s, k, entry, cmp) && k <= j < |s|
    ensures cmp(entry, s[j]) <= 0
  {
    var nodes := s + [entry];
    assert s[k] in nodes && s[j] in nodes && entry in nodes;
    assert cmp(entry, s[k]) <= 0;
    assert k < j ==> cmp(s[k], s[j]) <= 0;
  }

  lemma SortedAround(s: seq<Node>, k: int, entry: Node, cmp: (Node, Node) -> int)
    requires Sorted(s, cmp) && 0 <= k <= |s|
    requires forall i :: 0 <= i < k ==> cmp(s[i], entry) <= 0
    requires forall j :: k <= j < |s| ==> cmp(entry, s[j]) <= 0
    ensures Sorted(s[..k] + [entry] + s[k..], cmp)
  {
    var t := s[..k] + [entry] + s[k..];
    forall i, j | 0 <= i < j < |t| ensures cmp(t[i], t[j]) <= 0 {
      assert i != k ==> t[i] == s[if i < k then i else i - 1];
      assert j != k ==> t[j] == s[if j < k then j else j - 1];
    }
  }

  /** A sorted list stays sorted, and the entry stands before its equals. */
  lemma InPlaceSorted(s: seq<Node>, k: int, entry: Node, cmp: (Node, Node) -> int)
    requires Orders(cmp, s + [entry]) && Sorted(s, cmp) && InPlace(s, k, entry, cmp)
    ensures Sorted(s[..k] + [entry] + s[k..], cmp)
    ensures forall i :: 0 <= i < |s| && cmp(s[i], entry) == 0 ==> k <= i
  {
    forall j | k <= j < |s| ensures cmp(entry, s[j]) <= 0 {
      BehindEntry(s, k, entry, cmp, j);
    }
    SortedAround(s, k, entry, cmp);
  }

  ghost function Kept(s: seq<Node>, drop: Node -> bool): seq<Node> {
    if s == [] then []
    else (if drop(s[0]) then [] else [s[0]]) + Kept(s[1..], drop)
  }

  function At(list: Node, s: seq<Node>, i: nat): Node {
    if i < |s| then s[i] else list
  }

  lemma NextInList(list: Node, kept: seq<Node>, rest: seq<Node>)
    requires IsList(list, kept + rest)
    ensures rest != [] ==> rest[0] != list && rest[0].next == At(list, rest, 1)
    ensures kept == [] ==> list.next == At(list, rest, 0)
  {
    var r := [list] + (kept + rest);
    assert r[0].next == r[Succ(0, |r|)];
    if rest != [] {
      var k := |kept| + 1;
      assert r[k] == rest[0] && r[k].next == r[Succ(k, |r|)];
    }
  }

  lemma {:induction false} KeptAppend(a: seq<Node>, b: seq<Node>, drop: Node -> bool)
    ensures Kept(a + b, drop) == Kept(a, drop) + Kept(b, drop)
  {
    if a == [] {
      assert a + b == b;
    } else {
      assert (a + b)[1..] == a[1..] + b;
      KeptAppend(a[1..], b, drop);
    }
  }

  ghost predicate Within(a: seq<Node>, b: seq<Node>) {
    forall x :: x in a ==> x in b
  }

  /** The entry at hand is taken out, or stays and is passed by. */
  method Visit(list: Node, entry: Node, drop: Node -> bool, ghost kept: seq<Node>, ghost rest: seq<Node>,
               ghost nodes: seq<Node>)
    requires IsList(list, kept + rest) && rest != [] && entry == rest[0]
    requires Within(kept + rest, nodes)
    modifies list, nodes
    ensures IsList(list, kept + (if drop(entry) then [] else [entry]) + rest[1..])
    ensures Within(kept + (if drop(entry) then [] else [entry]) + rest[1..], nodes)
  {
    ghost var r := [list] + (kept + rest);
    ghost var k := |kept| + 1;
    assert r[k] in kept + rest;
    assert r[k].prev == r[k - 1] && r[k].next == r[Succ(k, |r|)];
    assert r[k - 1] == list || r[k - 1] in kept + rest;
    assert r[Succ(k, |r|)] == list || r[Succ(k, |r|)] in kept + rest;
    if drop(entry) {
      Delete(entry, r, k);
      assert Without(r, k) == [list] + (kept + [] + rest[1..]);
    } else {
      assert kept + [entry] + rest[1..] == kept + rest;
    }
  }

  lemma HeadIsNoEntry(list: Node, s: seq<Node>)
    requires IsList(list, s)
    ensures list !in s
  {
    var r := [list] + s;
    forall i | 0 <= i < |s| ensures s[i] != list {
      assert r[0] != r[i + 1];
    }
  }

  /** The deletion-safe traversal: every entry is looked at once, in order, and may be taken out. */
  method DeleteWhere(list: Node, drop: Node -> bool, ghost s: seq<Node>) returns (ghost seen: seq<Node>)
    requires IsList(list, s)
    modifies list, s
    ensures seen == s && IsList(list, Kept(s, drop))
  {
    seen := [];
    ghost var kept, rest := [], s;
    assert kept + rest == s;
    NextInList(list, kept, rest);
    var entry, temp := list.next, list.next.next;
    while entry != list
      invariant seen + rest == s && kept == Kept(seen, drop)
      invariant IsList(list, kept + rest) && Within(kept + rest, s)
      invariant entry == At(list, rest, 0) && (rest != [] ==> entry != list && temp == At(list, rest, 1))
      decreases |rest|
    {
      Visit(list, entry, drop, kept, rest, s);
      KeptAppend(seen, [entry], drop);
      seen, kept := seen + [entry], kept + (if drop(entry) then [] else [entry]);
      rest := rest[1..];
      NextInList(list, kept, rest);
      entry, temp := temp, temp.next;
    }
    assert kept + rest == kept && seen + rest == seen;
  }
}
