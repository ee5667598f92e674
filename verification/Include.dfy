/**
 * Building a task from configuration entries (src/task.c, src/confmap.c, src/confhdl.c), with
 * entries taken over from include files. The options' own handlers, which keys are known and what
 * an INCLUDE line's value leads to are parameters.
 */
module Include {
  import opened Options

  datatype Key = CAP_CLEAR | CAP_SET | CGROUP_NAME | CGROUP_PARAMS | COMMAND | DEPENDS | ENV_SET
               | FILTER_DEFINE | GROUP | INCLUDE | IO_REDIRECT | NAME | PROVIDES | RESPAWN
               | RESPAWN_RETRIES | STOP_COMMAND | TRIGGER | TRIGGER_REARM | USER

  predicate ArrayLike(k: Key) {
    k !in {CGROUP_NAME, NAME, RESPAWN, RESPAWN_RETRIES, TRIGGER_REARM, USER}
  }

  predicate IncludeSafe(k: Key) {
    k in {DEPENDS, ENV_SET, FILTER_DEFINE, IO_REDIRECT, TRIGGER}
  }

  /** The table of keys: whether one may occur more than once, and whether an include file may hold it. */
  const KEYS: seq<(Key, bool, bool)> := [
    (CAP_CLEAR, true, false), (CAP_SET, true, false), (CGROUP_NAME, false, false), (CGROUP_PARAMS, true, false),
    (COMMAND, true, false), (DEPENDS, true, true), (ENV_SET, true, true), (FILTER_DEFINE, true, true),
    (GROUP, true, false), (INCLUDE, true, false), (IO_REDIRECT, true, true), (NAME, false, false),
    (PROVIDES, true, false), (RESPAWN, false, false), (RESPAWN_RETRIES, false, false), (STOP_COMMAND, true, false),
    (TRIGGER, true, true), (TRIGGER_REARM, false, false), (USER, false, false)]

  lemma KeyRows(i: nat)
    requires i < |KEYS|
    ensures KEYS[i] == (KEYS[i].0, ArrayLike(KEYS[i].0), IncludeSafe(KEYS[i].0))
  {
  }

  /** A key that is not in the table is none. */
  datatype Entry = Entry(key: Option<Key>, val: string)

  /** The entries of an include file and the keys listed for import, if a list is given. */
  datatype Source = Source(entries: seq<Entry>, imports: Option<seq<Option<Key>>>)

  datatype Mode = Standard | Included

  /** `handle` applies one option to a task, `open` is what an INCLUDE value leads to. */
  datatype World<!T> = World(handle: (Key, string, T) -> Option<T>, open: string -> Option<Source>)

  predicate KnownImports(imports: Option<seq<Option<Key>>>) {
    imports.Some? ==> None !in imports.value
  }

  predicate Imported(imports: Option<seq<Option<Key>>>, k: Key) {
    imports.Some? ==> Some(k) in imports.value
  }

  /** How an entry is refused before its handler is asked. */
  predicate Refused(mode: Mode, k: Key, seen: set<Key>) {
    (mode.Included? && !IncludeSafe(k)) || (!ArrayLike(k) && k in seen)
  }

  function Rank(mode: Mode): nat {
    if mode.Standard? then 1 else 0
  }

  function Handle<T>(w: World<T>, mode: Mode, k: Key, val: string, t: T): Option<T>
    decreases Rank(mode), 0
  {
    if k != INCLUDE || mode.Included? then w.handle(k, val, t)
    else
      var src := w.open(val);
      if src.None? || !KnownImports(src.value.imports) then None
      else Load(w, Included, src.value.entries, src.value.imports, {}, t)
  }

  /** The task after the entries were applied one after the other, none if one was refused or failed. */
  function Load<T>(w: World<T>, mode: Mode, entries: seq<Entry>, imports: Option<seq<Option<Key>>>,
                   seen: set<Key>, t: T): Option<T>
    decreases Rank(mode), 1, |entries|
  {
    if entries == [] then Some(t)
    else if entries[0].key.None? then Load(w, mode, entries[1..], imports, seen, t)
    else
      var k := entries[0].key.value;
      if Refused(mode, k, seen) then None
      else if !Imported(imports, k) then Load(w, mode, entries[1..], imports, seen + {k}, t)
      else
        var t' := Handle(w, mode, k, entries[0].val, t);
        if t'.None? then None else Load(w, mode, entries[1..], imports, seen + {k}, t'.value)
  }

  method LoadTask<T>(w: World<T>, mode: Mode, entries: seq<Entry>, imports: Option<seq<Option<Key>>>, t: T)
    returns (r: Option<T>)
    ensures r == Load(w, mode, entries, imports, {}, t)
    decreases Rank(mode), 1
  {
    var cur, seen, rest := t, {}, entries;
    while rest != []
      invariant Load(w, mode, rest, imports, seen, cur) == Load(w, mode, entries, imports, {}, t)
      decreases |rest|
    {
      var e := rest[0];
      if e.key.Some? {
        var k := e.key.value;
        if mode.Included? && !IncludeSafe(k) {
          return None;
        }
        if !ArrayLike(k) && k in seen {
          return None;
        }
        seen := seen + {k};
        if Imported(imports, k) {
          var t' := HandleEntry(w, mode, k, e.val, cur);
          if t'.None? {
            return None;
          }
          cur := t'.value;
        }
      }
      rest := rest[1..];
    }
    r := Some(cur);
  }

  method HandleEntry<T>(w: World<T>, mode: Mode, k: Key, val: string, t: T) returns (r: Option<T>)
    ensures r == Handle(w, mode, k, val, t)
    decreases Rank(mode), 0
  {
    if k != INCLUDE || mode.Included? {
      return w.handle(k, val, t);
    }
    var src := w.open(val);
    if src.None? || !KnownImports(src.value.imports) {
      return None;
    }
    r := LoadTask(w, Included, src.value.entries, src.value.imports, t);
  }

  /** The entries of an include file that are taken over. */
  function Picked(entries: seq<Entry>, imports: Option<seq<Option<Key>>>): seq<Entry> {
    if entries == [] then []
    else
      var e := entries[0];
      (if e.key.Some? && Imported(imports, e.key.value) then [e] else []) + Picked(entries[1..], imports)
  }

  /** The entries as they would be written without include files. */
  function Flat<T>(w: World<T>, entries: seq<Entry>): seq<Entry> {
    if entries == [] then []
    else
      var e := entries[0];
      (if e.key != Some(INCLUDE) then [e]
       else
         var src := w.open(e.val);
         if src.None? then [] else Picked(src.value.entries, src.value.imports))
      + Flat(w, entries[1..])
  }

  /** Applies entries without any check, unknown keys being skipped. */
  function Run<T>(w: World<T>, entries: seq<Entry>, t: T): Option<T> {
    if entries == [] then Some(t)
    else if entries[0].key.None? then Run(w, entries[1..], t)
    else
      var t' := w.handle(entries[0].key.value, entries[0].val, t);
      if t'.None? then None else Run(w, entries[1..], t'.value)
  }

  ghost predicate AllSafe(entries: seq<Entry>) {
    forall e :: e in entries && e.key.Some? ==> IncludeSafe(e.key.value)
  }

  /** An include file may be used: its keys may occur in one and the import list is known. */
  ghost predicate Usable(src: Option<Source>) {
    src.Some? && KnownImports(src.value.imports) && AllSafe(src.value.entries)
  }

  /** The keys that may have one value only, as often as they occur. */
  function Singles(entries: seq<Entry>): seq<Key> {
    if entries == [] then []
    else
      var e := entries[0];
      (if e.key.Some? && !ArrayLike(e.key.value) then [e.key.value] else []) + Singles(entries[1..])
  }

  ghost predicate Distinct(keys: seq<Key>) {
    forall i, j :: 0 <= i < j < |keys| ==> keys[i] != keys[j]
  }

  ghost predicate IncludesUsable<T>(w: World<T>, entries: seq<Entry>) {
    forall e :: e in entries && e.key == Some(INCLUDE) ==> Usable(w.open(e.val))
  }

  /** No single-valued key occurs twice, and every include file may be used. */
  ghost predicate Acceptable<T>(w: World<T>, entries: seq<Entry>) {
    Distinct(Singles(entries)) && IncludesUsable(w, entries)
  }

  ghost predicate AcceptableAfter<T>(w: World<T>, entries: seq<Entry>, seen: set<Key>) {
    Acceptable(w, entries) && forall k :: k in Singles(entries) ==> k !in seen
  }

  /** Acceptability is decided entry by entry. */
  lemma AcceptableStep<T>(w: World<T>, entries: seq<Entry>, seen: set<Key>)
    requires entries != [] && entries[0].key.Some?
    ensures
      var k := entries[0].key.value;
      AcceptableAfter(w, entries, seen) <==>
        && !Refused(Standard, k, seen)
        && (k == INCLUDE ==> Usable(w.open(entries[0].val)))
        && AcceptableAfter(w, entries[1..], seen + {k})
  {
    var k, rest := entries[0].key.value, entries[1..];
    assert entries == [entries[0]] + rest;
    SinglesAreSingle(rest);
    if !ArrayLike(k) {
      assert Singles(entries) == [k] + Singles(rest);
      DistinctStep(k, Singles(rest));
    } else {
      assert Singles(entries) == Singles(rest);
    }
  }

  lemma DistinctStep(k: Key, keys: seq<Key>)
    ensures Distinct([k] + keys) <==> k !in keys && Distinct(keys)
  {
    var all := [k] + keys;
    if Distinct(all) {
      forall i | 0 <= i < |keys| ensures keys[i] != k {
        assert all[0] != all[i + 1];
      }
      forall i, j | 0 <= i < j < |keys| ensures keys[i] != keys[j] {
        assert all[i + 1] != all[j + 1];
      }
    }
  }

  lemma {:induction false} SinglesAreSingle(entries: seq<Entry>)
    ensures forall k :: k in Singles(entries) ==> !ArrayLike(k)
  {
    if entries != [] {
      SinglesAreSingle(entries[1..]);
    }
  }

  lemma UnknownStep<T>(w: World<T>, entries: seq<Entry>, seen: set<Key>)
    requires entries != [] && entries[0].key.None?
    ensures AcceptableAfter(w, entries, seen) <==> AcceptableAfter(w, entries[1..], seen)
  {
    assert entries == [entries[0]] + entries[1..];
    assert Singles(entries) == Singles(entries[1..]);
  }

  lemma {:induction false} RunAppend<T>(w: World<T>, a: seq<Entry>, b: seq<Entry>, t: T)
    ensures Run(w, a + b, t) == var r := Run(w, a, t); if r.None? then None else Run(w, b, r.value)
  {
    if a == [] {
      assert a + b == b;
    } else {
      assert (a + b)[1..] == a[1..] + b;
      if a[0].key.None? {
        RunAppend(w, a[1..], b, t);
      } else {
        var t' := w.handle(a[0].key.value, a[0].val, t);
        if t'.Some? {
          RunAppend(w, a[1..], b, t'.value);
        }
      }
    }
  }

  /** An include file is applied entry by entry, and refused as a whole for one unsafe key. */
  lemma {:induction false} IncludedIsPicked<T>(w: World<T>, entries: seq<Entry>, imports: Option<seq<Option<Key>>>,
                                               seen: set<Key>, t: T)
    ensures Load(w, Included, entries, imports, seen, t)
         == if AllSafe(entries) then Run(w, Picked(entries, imports), t) else None
  {
    if entries != [] {
      var e, rest := entries[0], entries[1..];
      assert entries == [e] + rest;
      var picked := Picked(rest, imports);
      if e.key.None? {
        IncludedIsPicked(w, rest, imports, seen, t);
        assert Picked(entries, imports) == picked;
      } else {
        var k := e.key.value;
        if IncludeSafe(k) && !Imported(imports, k) {
          IncludedIsPicked(w, rest, imports, seen + {k}, t);
          assert Picked(entries, imports) == picked;
        } else if IncludeSafe(k) {
          assert Picked(entries, imports)[1..] == picked;
          var t' := w.handle(k, e.val, t);
          if t'.Some? {
            IncludedIsPicked(w, rest, imports, seen + {k}, t'.value);
          }
        } else {
          assert e in entries;
        }
      }
    }
  }

  /** An include file cannot include another one. */
  lemma NoNestedInclude<T>(w: World<T>, entries: seq<Entry>, imports: Option<seq<Option<Key>>>, e: Entry, t: T)
    requires e in entries && e.key == Some(INCLUDE)
    ensures Load(w, Included, entries, imports, {}, t) == None
  {
    IncludedIsPicked(w, entries, imports, {}, t);
    assert !IncludeSafe(INCLUDE);
  }

  lemma HandleStandard<T>(w: World<T>, k: Key, val: string, t: T)
    ensures
      var src := w.open(val);
      Handle(w, Standard, k, val, t) ==
        if k != INCLUDE then w.handle(k, val, t)
        else if Usable(src) then Run(w, Picked(src.value.entries, src.value.imports), t)
        else None
  {
    var src := w.open(val);
    if k == INCLUDE && src.Some? && KnownImports(src.value.imports) {
      IncludedIsPicked(w, src.value.entries, src.value.imports, {}, t);
    }
  }

  lemma {:induction false} LoadIsFlatAfter<T>(w: World<T>, entries: seq<Entry>, seen: set<Key>, t: T)
    ensures Load(w, Standard, entries, None, seen, t)
         == if AcceptableAfter(w, entries, seen) then Run(w, Flat(w, entries), t) else None
  {
    if entries != [] {
      var e, rest := entries[0], entries[1..];
      if e.key.None? {
        UnknownStep(w, entries, seen);
        LoadIsFlatAfter(w, rest, seen, t);
        assert Flat(w, entries)[1..] == Flat(w, rest);
      } else {
        var k := e.key.value;
        AcceptableStep(w, entries, seen);
        HandleStandard(w, k, e.val, t);
        var t' := Handle(w, Standard, k, e.val, t);
        if t'.Some? {
          LoadIsFlatAfter(w, rest, seen + {k}, t'.value);
        }
        if k == INCLUDE ==> Usable(w.open(e.val)) {
          FlatStep(w, entries, t);
        }
      }
    }
  }

  lemma FlatStep<T>(w: World<T>, entries: seq<Entry>, t: T)
    requires entries != [] && entries[0].key.Some?
    requires entries[0].key == Some(INCLUDE) ==> Usable(w.open(entries[0].val))
    ensures
      var t' := Handle(w, Standard, entries[0].key.value, entries[0].val, t);
      Run(w, Flat(w, entries), t) == if t'.None? then None else Run(w, Flat(w, entries[1..]), t'.value)
  {
    var e := entries[0];
    HandleStandard(w, e.key.value, e.val, t);
    if e.key == Some(INCLUDE) {
      var src := w.open(e.val).value;
      RunAppend(w, Picked(src.entries, src.imports), Flat(w, entries[1..]), t);
    } else {
      assert Flat(w, entries)[1..] == Flat(w, entries[1..]);
    }
  }

  /**
   * A task is accepted exactly when its entries are acceptable and no handler fails, and then it
   * is what the handlers make of the entries with every include file written out in its place.
   */
  lemma LoadIsFlat<T>(w: World<T>, entries: seq<Entry>, t: T)
    ensures Load(w, Standard, entries, None, {}, t)
         == if Acceptable(w, entries) then Run(w, Flat(w, entries), t) else None
  {
    LoadIsFlatAfter(w, entries, {}, t);
  }

  lemma {:induction false} SinglesAppend(a: seq<Entry>, b: seq<Entry>)
    ensures Singles(a + b) == Singles(a) + Singles(b)
  {
    if a == [] {
      assert a + b == b;
    } else {
      assert (a + b)[1..] == a[1..] + b;
      SinglesAppend(a[1..], b);
    }
  }

  /** Nothing taken over is single-valued and nothing taken over includes further files. */
  lemma {:induction false} PickedIsSafe(entries: seq<Entry>, imports: Option<seq<Option<Key>>>)
    requires AllSafe(entries)
    ensures AllSafe(Picked(entries, imports)) && Singles(Picked(entries, imports)) == []
  {
    if entries != [] {
      assert entries[0] in entries;
      PickedIsSafe(entries[1..], imports);
      var rest := Picked(entries[1..], imports);
      if entries[0].key.Some? && Imported(imports, entries[0].key.value) {
        assert ([entries[0]] + rest)[1..] == rest;
      } else {
        assert [] + rest == rest;
      }
    }
  }

  lemma {:induction false} FlatSingles<T>(w: World<T>, entries: seq<Entry>)
    requires IncludesUsable(w, entries)
    ensures Singles(Flat(w, entries)) == Singles(entries)
    ensures forall e :: e in Flat(w, entries) ==> e.key != Some(INCLUDE)
  {
    if entries != [] {
      var e, rest := entries[0], entries[1..];
      assert e in entries;
      FlatSingles(w, rest);
      if e.key == Some(INCLUDE) {
        var src := w.open(e.val).value;
        PickedIsSafe(src.entries, src.imports);
        SinglesAppend(Picked(src.entries, src.imports), Flat(w, rest));
        assert Flat(w, entries) == Picked(src.entries, src.imports) + Flat(w, rest);
      } else {
        assert Flat(w, entries)[1..] == Flat(w, rest);
      }
    }
  }

  lemma {:induction false} FlatOfFlat<T>(w: World<T>, entries: seq<Entry>)
    requires forall e :: e in entries ==> e.key != Some(INCLUDE)
    ensures Flat(w, entries) == entries
  {
    if entries != [] {
      assert entries[0] in entries;
      FlatOfFlat(w, entries[1..]);
    }
  }

  /** Writing the include files out by hand gives the same task. */
  lemma IncludeIsSplice<T>(w: World<T>, entries: seq<Entry>, t: T)
    requires Acceptable(w, entries)
    ensures Load(w, Standard, entries, None, {}, t) == Load(w, Standard, Flat(w, entries), None, {}, t)
  {
    LoadIsFlat(w, entries, t);
    FlatSingles(w, entries);
    FlatOfFlat(w, Flat(w, entries));
    LoadIsFlat(w, Flat(w, entries), t);
  }
}
