/**
 * Environment sets (src/envset.c): an array of "key=value" strings that ends with an empty
 * entry, grown in steps.
 */
module EnvSet {
  import opened Options

  datatype Var = Var(key: string, val: string)

  ghost predicate Proper(vars: seq<Var>) {
    && (forall i :: 0 <= i < |vars| ==> '=' !in vars[i].key)
    && (forall i, j :: 0 <= i < j < |vars| ==> vars[i].key != vars[j].key)
  }

  /** The set as an ordered map. */
  function Lookup(vars: seq<Var>, key: string): Option<string> {
    if vars == [] then None
    else if vars[0].key == key then Some(vars[0].val)
    else Lookup(vars[1..], key)
  }

  /** A known variable is replaced where it is, an unknown one comes last. */
  function Updated(vars: seq<Var>, key: string, val: string): seq<Var> {
    if vars == [] then [Var(key, val)]
    else if vars[0].key == key then [Var(key, val)] + vars[1..]
    else [vars[0]] + Updated(vars[1..], key, val)
  }

  function Keys(vars: seq<Var>): seq<string> {
    seq(|vars|, i requires 0 <= i < |vars| => vars[i].key)
  }

  /** Reading gives what was last written, and writing touches no other variable. */
  lemma {:induction false} LookupUpdated(vars: seq<Var>, key: string, val: string, k: string)
    ensures Lookup(Updated(vars, key, val), k) == if k == key then Some(val) else Lookup(vars, k)
  {
    if vars != [] {
      if vars[0].key == key {
        assert Updated(vars, key, val)[1..] == vars[1..];
      } else {
        assert Updated(vars, key, val)[1..] == Updated(vars[1..], key, val);
        LookupUpdated(vars[1..], key, val, k);
      }
    }
  }

  /** Variables keep the order in which they were first written. */
  lemma {:induction false} UpdateKeepsOrder(vars: seq<Var>, key: string, val: string)
    ensures Keys(Updated(vars, key, val)) == if key in Keys(vars) then Keys(vars) else Keys(vars) + [key]
  {
    if vars != [] {
      var rest := vars[1..];
      UpdateKeepsOrder(rest, key, val);
      assert Keys(vars) == [vars[0].key] + Keys(rest);
      if vars[0].key == key {
        assert Keys(Updated(vars, key, val)) == Keys(vars);
      } else {
        assert Keys(Updated(vars, key, val)) == [vars[0].key] + Keys(Updated(rest, key, val));
      }
    }
  }

  /** The set after a sequence of writes. */
  function AfterWrites(ws: seq<Var>): seq<Var> {
    if ws == [] then [] else Updated(AfterWrites(ws[..|ws| - 1]), ws[|ws| - 1].key, ws[|ws| - 1].val)
  }

  /** The value last written under a key. */
  function LastWritten(ws: seq<Var>, key: string): Option<string> {
    if ws == [] then None
    else if ws[|ws| - 1].key == key then Some(ws[|ws| - 1].val)
    else LastWritten(ws[..|ws| - 1], key)
  }

  /** The keys in the order of their first write. */
  function FirstWrites(ws: seq<Var>): seq<string> {
    if ws == [] then []
    else
      var before, key := FirstWrites(ws[..|ws| - 1]), ws[|ws| - 1].key;
      if key in before then before else before + [key]
  }

  /** However often it is written, the set maps every key to its last value, in first-write order. */
  lemma {:induction false} WritesRefineMap(ws: seq<Var>, key: string)
    ensures Lookup(AfterWrites(ws), key) == LastWritten(ws, key)
    ensures Keys(AfterWrites(ws)) == FirstWrites(ws)
  {
    if ws != [] {
      var before, w := ws[..|ws| - 1], ws[|ws| - 1];
      WritesRefineMap(before, key);
      LookupUpdated(AfterWrites(before), w.key, w.val, key);
      UpdateKeepsOrder(AfterWrites(before), w.key, w.val);
    }
  }

  lemma {:induction false} UpdateAt(vars: seq<Var>, key: string, val: string, i: nat)
    requires i <= |vars| && (forall j :: 0 <= j < i ==> vars[j].key != key)
    requires i < |vars| ==> vars[i].key == key
    ensures Updated(vars, key, val) == if i < |vars| then vars[i := Var(key, val)] else vars + [Var(key, val)]
    ensures Lookup(vars, key) == if i < |vars| then Some(vars[i].val) else None
  {
    if i > 0 {
      UpdateAt(vars[1..], key, val, i - 1);
    }
  }

  function Text(v: Var): string {
    v.key + "=" + v.val
  }

  /** The code's comparison of an entry with a name. */
  predicate Matches(entry: string, name: string) {
    |entry| > |name| && entry[..|name|] == name && entry[|name|] == '='
  }

  lemma MatchesKey(v: Var, name: string)
    requires '=' !in v.key && '=' !in name
    ensures Matches(Text(v), name) <==> v.key == name
  {
    var e := Text(v);
    assert e[|v.key|] == '=' && e[..|v.key|] == v.key;
    if |name| < |v.key| {
      assert e[|name|] == v.key[|name|] && v.key[|name|] in v.key;
    } else if |name| > |v.key| {
      assert name[|v.key|] in name;
    }
  }

  /** What follows the first '=' of an entry. */
  function ValueOf(entry: string): Option<string> {
    if entry == "" then None
    else if entry[0] == '=' then Some(entry[1..])
    else ValueOf(entry[1..])
  }

  lemma {:induction false} ValueOfText(v: Var)
    requires '=' !in v.key
    ensures ValueOf(Text(v)) == Some(v.val)
    decreases |v.key|
  {
    if v.key == "" {
      assert Text(v)[1..] == v.val;
    } else {
      var w := Var(v.key[1..], v.val);
      assert Text(v)[1..] == Text(w);
      ValueOfText(w);
    }
  }

  class Set {
    var envp: array<Option<string>>
    var allocInc: nat
    ghost var vars: seq<Var>

    /** The array's length is the allocated size. */
    ghost predicate Valid()
      reads this, envp
    {
      && |vars| < envp.Length && Proper(vars)
      && (forall i :: 0 <= i < |vars| ==> envp[i] == Some(Text(vars[i])))
      && (forall i :: |vars| <= i < envp.Length ==> envp[i] == None)
    }

    constructor (initSize: nat, sizeIncrement: nat)
      requires initSize > 0
      ensures Valid() && fresh(envp) && vars == [] && allocInc == sizeIncrement && envp.Length == initSize
    {
      envp := new Option<string>[initSize](i => None);
      allocInc := sizeIncrement;
      vars := [];
    }

    /** The index of a variable, or of the end when it is not in the set; none for an improper name. */
    method Search(name: string) returns (idx: Option<nat>)
      requires Valid()
      ensures idx.None? <==> '=' in name
      ensures idx.Some? ==> idx.value <= |vars|
      ensures idx.Some? ==> forall j :: 0 <= j < idx.value ==> vars[j].key != name
      ensures idx.Some? && idx.value < |vars| ==> vars[idx.value].key == name
    {
      if '=' in name {
        return None;
      }
      var i := 0;
      while i < envp.Length && envp[i] != None
        invariant i <= |vars| && forall j :: 0 <= j < i ==> vars[j].key != name
      {
        MatchesKey(vars[i], name);
        if Matches(envp[i].value, name) {
          break;
        }
        i := i + 1;
      }
      idx := Some(i);
    }

    method Get(name: string) returns (r: Option<string>)
      requires Valid()
      ensures r == if '=' in name then None else Lookup(vars, name)
    {
      var idx := Search(name);
      if idx == None {
        return None;
      }
      UpdateAt(vars, name, "", idx.value);
      if envp[idx.value] == None {
        return None;
      }
      ValueOfText(vars[idx.value]);
      r := ValueOf(envp[idx.value].value);
    }

    method Dup() returns (copy: Set)
      requires Valid()
      ensures fresh(copy) && fresh(copy.envp) && copy.Valid()
      ensures copy.vars == vars && copy.allocInc == allocInc && copy.envp.Length == envp.Length
    {
      copy := new Set(envp.Length, allocInc);
      var i := 0;
      while envp[i] != None
        invariant i <= |vars| && fresh(copy) && fresh(copy.envp)
        invariant copy.envp.Length == envp.Length && copy.allocInc == allocInc && copy.vars == []
        invariant forall j :: 0 <= j < i ==> copy.envp[j] == envp[j]
        invariant forall j :: i <= j < envp.Length ==> copy.envp[j] == None
        decreases |vars| - i
      {
        copy.envp[i] := envp[i];
        i := i + 1;
      }
      copy.vars := vars;
    }

    /** `memory` says whether the larger array can be had. */
    method Grow(memory: bool) returns (ok: bool)
      requires Valid()
      modifies this
      ensures Valid() && vars == old(vars) && allocInc == old(allocInc)
      ensures ok <==> memory && allocInc > 0
      ensures if ok then fresh(envp) && envp.Length == old(envp.Length) + allocInc else envp == old(envp)
    {
      if allocInc == 0 || !memory {
        return false;
      }
      var bigger := new Option<string>[envp.Length + allocInc](i => None);
      for i := 0 to envp.Length
        invariant forall j :: 0 <= j < i ==> bigger[j] == envp[j]
        invariant forall j :: i <= j < bigger.Length ==> bigger[j] == None
        modifies bigger
      {
        bigger[i] := envp[i];
      }
      envp := bigger;
      ok := true;
    }

    method Store(idx: nat, v: Var)
      requires Valid() && idx <= |vars| && idx + 1 < envp.Length && '=' !in v.key
      requires forall j :: 0 <= j < |vars| && j != idx ==> vars[j].key != v.key
      modifies `vars, envp
      ensures Valid()
      ensures vars == if idx < old(|vars|) then old(vars)[idx := v] else old(vars) + [v]
    {
      envp[idx] := Some(Text(v));
      vars := if idx < |vars| then vars[idx := v] else vars + [v];
    }

    /** Writing needs memory unless the new text is as long as the one it replaces. */
    ghost predicate MemoryFor(v: Var)
      reads this
    {
      !exists i :: 0 <= i < |vars| && vars[i].key == v.key && |Text(vars[i])| == |Text(v)|
    }

    /** Writes a variable; `room` and `memory` say whether growing and the string's memory succeed. */
    method SetVar(name: string, val: string, room: bool, memory: bool) returns (ok: bool)
      requires Valid() && '=' !in name
      modifies this, envp
      ensures Valid() && allocInc == old(allocInc)
      ensures envp == old(envp) || fresh(envp)
      ensures ok <==> (memory || !old(MemoryFor(Var(name, val))))
                      && (Lookup(old(vars), name).Some? || old(|vars|) + 1 < old(envp.Length)
                          || (room && allocInc > 0))
      ensures vars == if ok then Updated(old(vars), name, val) else old(vars)
    {
      var newSize := |name| + |val| + 2;
      var idx := Search(name);
      UpdateAt(vars, name, val, idx.value);
      if envp[idx.value] == None {
        if idx.value >= envp.Length - 1 {
          ok := Grow(room);
          if !ok {
            return;
          }
        }
        if !memory {
          return false;
        }
      } else if newSize != |envp[idx.value].value| + 1 {
        if !memory {
          return false;
        }
      }
      Store(idx.value, Var(name, val));
      ok := true;
    }
  }
}
