/**
 * Runtime commands as text (src/rtimcmd.c, src/rtimopmap.c): an operation's name and its
 * arguments, one to a line. A string stands for a C string without its terminating NUL.
 */
module RtimCmd {
  import opened Options

  const DELIM := '\n'

  datatype Verb = ADDTASK | ADDSERIES | ENABLE | DISABLE | STOP | KILL | RESTART | NOTIFY
                | STATUS | TASKLIST | SHUTDOWN | GETVER

  /** Every verb has a command and a response. */
  datatype Op = C(verb: Verb) | R(verb: Verb)

  datatype Cmd = Cmd(op: Op, args: seq<string>)

  function VerbName(v: Verb): string {
    match v
    case ADDTASK => "ADDTASK"
    case ADDSERIES => "ADDSERIES"
    case ENABLE => "ENABLE"
    case DISABLE => "DISABLE"
    case STOP => "STOP"
    case KILL => "KILL"
    case RESTART => "RESTART"
    case NOTIFY => "NOTIFY"
    case STATUS => "STATUS"
    case TASKLIST => "TASKLIST"
    case SHUTDOWN => "SHUTDOWN"
    case GETVER => "GETVER"
  }

  function OpStr(op: Op): string {
    (if op.C? then "C_" else "R_") + VerbName(op.verb)
  }

  const VERBS: seq<Verb> := [ADDTASK, ADDSERIES, ENABLE, DISABLE, STOP, KILL, RESTART, NOTIFY,
                             STATUS, TASKLIST, SHUTDOWN, GETVER]

  /** The table of operations, commands and responses alternating. */
  function OpAt(i: nat): Op
    requires i < 24
  {
    if i % 2 == 0 then C(VERBS[i / 2]) else R(VERBS[i / 2])
  }

  function IndexOf(op: Op): (i: nat)
    ensures i < 24 && OpAt(i) == op
  {
    var v := match op.verb
             case ADDTASK => 0
             case ADDSERIES => 1
             case ENABLE => 2
             case DISABLE => 3
             case STOP => 4
             case KILL => 5
             case RESTART => 6
             case NOTIFY => 7
             case STATUS => 8
             case TASKLIST => 9
             case SHUTDOWN => 10
             case GETVER => 11;
    if op.C? then 2 * v else 2 * v + 1
  }

  lemma VerbNamesDiffer(a: Verb, b: Verb)
    requires VerbName(a) == VerbName(b)
    ensures a == b
  {
    assert |VerbName(a)| == |VerbName(b)| && VerbName(a)[0] == VerbName(b)[0] && VerbName(a)[2] == VerbName(b)[2];
  }

  lemma OpNamesDiffer(a: Op, b: Op)
    requires OpStr(a) == OpStr(b)
    ensures a == b
  {
    assert OpStr(a)[0] == OpStr(b)[0];
    assert OpStr(a)[2..] == VerbName(a.verb) && OpStr(b)[2..] == VerbName(b.verb);
    VerbNamesDiffer(a.verb, b.verb);
  }

  /** The operations as they go over the wire, in the order of the table. */
  const WIRE_NAMES := ["ADDTASK", "ADDSERIES", "ENABLE", "DISABLE", "STOP", "KILL", "RESTART", "NOTIFY",
                       "STATUS", "TASKLIST", "SHUTDOWN", "GETVER"]

  lemma WireNames(i: nat)
    requires i < |VERBS|
    ensures |VERBS| == |WIRE_NAMES| && VerbName(VERBS[i]) == WIRE_NAMES[i]
    ensures OpStr(C(VERBS[i])) == "C_" + WIRE_NAMES[i] && OpStr(R(VERBS[i])) == "R_" + WIRE_NAMES[i]
  {
  }

  /** The length of the leading part without delimiter. */
  function WordLen(s: string): (n: nat)
    ensures n <= |s| && DELIM !in s[..n] && (n < |s| ==> s[n] == DELIM)
  {
    if s == [] || s[0] == DELIM then 0
    else
      var n := WordLen(s[1..]);
      assert s[..n + 1] == [s[0]] + s[1..][..n];
      n + 1
  }

  lemma WordLenIs(s: string, n: nat)
    requires n <= |s| && DELIM !in s[..n] && (n < |s| ==> s[n] == DELIM)
    ensures WordLen(s) == n
  {
  }

  /** The non-empty lines of a text, as splitting with strtok_r yields them. */
  function Tokens(s: string): seq<string> {
    if s == [] then []
    else if s[0] == DELIM then Tokens(s[1..])
    else [s[..WordLen(s)]] + Tokens(s[WordLen(s)..])
  }

  ghost predicate NamesOp(s: string, op: Op) {
    s[..WordLen(s)] == OpStr(op)
  }

  /** What a text means: its first line names the operation, the other non-empty ones are arguments. */
  ghost predicate Means(s: string, r: Option<Cmd>) {
    match r
    case None => forall op :: !NamesOp(s, op)
    case Some(cmd) => NamesOp(s, cmd.op) && cmd.args == Tokens(s[WordLen(s)..])
  }

  function ArgText(args: seq<string>): string {
    if args == [] then "" else [DELIM] + args[0] + ArgText(args[1..])
  }

  /** The text of a command. */
  function Message(cmd: Cmd): string {
    OpStr(cmd.op) + ArgText(cmd.args)
  }

  /** The names in table order. */
  function OpNames(): (names: seq<string>)
    ensures |names| == 24 && forall i :: 0 <= i < 24 ==> names[i] == OpStr(OpAt(i))
  {
    seq(24, i requires 0 <= i < 24 => OpStr(OpAt(i)))
  }

  method FindName(names: seq<string>, word: string) returns (r: Option<nat>)
    ensures r.Some? ==> r.value < |names| && names[r.value] == word
    ensures r.None? ==> word !in names
  {
    var i := 0;
    while i < |names|
      invariant i <= |names| && word !in names[..i]
    {
      if word == names[i] {
        return Some(i);
      }
      i := i + 1;
    }
    r := None;
  }

  lemma EveryNameListed(op: Op)
    ensures OpStr(op) in OpNames()
  {
    assert OpNames()[IndexOf(op)] == OpStr(op);
  }

  method OpByStr(s: string) returns (r: Option<Op>)
    ensures r.Some? ==> NamesOp(s, r.value)
    ensures r.None? ==> forall op :: !NamesOp(s, op)
  {
    var n := 0;
    while n < |s| && s[n] != DELIM
      invariant n <= |s| && DELIM !in s[..n]
    {
      n := n + 1;
    }
    WordLenIs(s, n);
    var i := FindName(OpNames(), s[..n]);
    if i.Some? {
      return Some(OpAt(i.value));
    }
    forall op ensures !NamesOp(s, op) {
      EveryNameListed(op);
    }
    r := None;
  }

  /** How many lines begin in a text, given whether it follows a delimiter. */
  function Begins(after: bool, s: string): nat
    decreases |s|
  {
    if s == [] then 0
    else (if after && s[0] != DELIM then 1 else 0) + Begins(s[0] == DELIM, s[1..])
  }

  lemma {:induction false} BeginsWithin(s: string, n: nat)
    requires n <= |s| && DELIM !in s[..n]
    ensures Begins(false, s) == Begins(false, s[n..])
  {
    if n > 0 {
      assert s[..n][0] == s[0] && s[1..][..n - 1] == s[..n][1..];
      BeginsWithin(s[1..], n - 1);
      assert s[1..][n - 1..] == s[n..];
    }
  }

  /** The argument count is the number of tokens. */
  lemma {:induction false} BeginsAreTokens(s: string)
    ensures Begins(true, s) == |Tokens(s)|
    decreases |s|
  {
    if s == [] {
    } else if s[0] == DELIM {
      BeginsAreTokens(s[1..]);
    } else {
      var n := WordLen(s);
      BeginsAreTokens(s[n..]);
      assert s[1..][..n - 1] == s[..n][1..];
      BeginsWithin(s[1..], n - 1);
      assert s[1..][n - 1..] == s[n..];
    }
  }

  /** Leading delimiters make no difference. */
  method ParseArgs(s: string, opEnd: nat) returns (args: seq<string>)
    requires opEnd <= |s| && (opEnd < |s| ==> s[opEnd] == DELIM)
    ensures args == Tokens(s[opEnd..])
  {
    var argStart := opEnd;
    while argStart < |s| && argStart + 1 < |s| && s[argStart + 1] == DELIM
      invariant argStart <= |s| && (argStart < |s| ==> s[argStart] == DELIM)
      invariant Tokens(s[argStart..]) == Tokens(s[opEnd..])
    {
      assert s[argStart..][1..] == s[argStart + 1..];
      argStart := argStart + 1;
    }
    if argStart == |s| {
      return [];
    }
    assert s[argStart..][1..] == s[argStart + 1..];
    var argCount := CountArgs(s, argStart);
    BeginsAreTokens(s[argStart + 1..]);
    args := Split(s[argStart + 1..], argCount);
  }

  method CountArgs(s: string, argStart: nat) returns (argCount: nat)
    requires argStart < |s| && s[argStart] == DELIM
    ensures argCount == Begins(true, s[argStart + 1..])
  {
    argCount := 0;
    var runner := argStart;
    while runner < |s|
      invariant argStart <= runner <= |s|
      invariant argCount + (if runner < |s| then Begins(s[runner] == DELIM, s[runner + 1..]) else 0)
             == Begins(true, s[argStart + 1..])
    {
      assert runner + 1 < |s| ==> s[runner + 1..][1..] == s[runner + 2..];
      if s[runner] == DELIM && runner + 1 < |s| && s[runner + 1] != DELIM {
        argCount := argCount + 1;
      }
      runner := runner + 1;
    }
  }

  /** One call of strtok_r. */
  method NextToken(s: string) returns (token: string, rest: string)
    requires Tokens(s) != []
    ensures Tokens(s) == [token] + Tokens(rest)
  {
    rest := s;
    while rest[0] == DELIM
      invariant rest != [] && Tokens(rest) == Tokens(s)
      decreases |rest|
    {
      rest := rest[1..];
    }
    var n := 0;
    while n < |rest| && rest[n] != DELIM
      invariant n <= |rest| && DELIM !in rest[..n]
    {
      n := n + 1;
    }
    WordLenIs(rest, n);
    token, rest := rest[..n], rest[n..];
  }

  method Split(s: string, argCount: nat) returns (args: seq<string>)
    requires argCount == |Tokens(s)|
    ensures args == Tokens(s)
  {
    args := [];
    var rest := s;
    while |args| < argCount
      invariant args + Tokens(rest) == Tokens(s)
      decreases argCount - |args|
    {
      var token, tail := NextToken(rest);
      assert args + Tokens(rest) == args + [token] + Tokens(tail);
      args, rest := args + [token], tail;
    }
  }

  method ParseRtimCmd(s: string) returns (r: Option<Cmd>)
    ensures Means(s, r)
  {
    var op := OpByStr(s);
    if op.None? {
      return None;
    }
    var argStart := 0;
    while argStart < |s| && s[argStart] != DELIM
      invariant argStart <= |s| && DELIM !in s[..argStart]
    {
      argStart := argStart + 1;
    }
    WordLenIs(s, argStart);
    var args := ParseArgs(s, argStart);
    r := Some(Cmd(op.value, args));
  }

  method MessageLen(opStr: string, args: seq<string>) returns (outLen: nat)
    ensures outLen == |opStr| + |ArgText(args)| + 1
  {
    outLen := |opStr| + 1;
    for i := 0 to |args|
      invariant outLen + |ArgText(args[i..])| == |opStr| + |ArgText(args)| + 1
    {
      assert args[i..][1..] == args[i + 1..];
      outLen := outLen + |args[i]| + 1;
    }
  }

  /** The text, written piece by piece into a buffer of exactly the length computed before. */
  method Compose(opStr: string, args: seq<string>) returns (out: array<char>)
    ensures out[..] == opStr + ArgText(args) + ['\0']
  {
    var outLen := MessageLen(opStr, args);
    out := new char[outLen];
    var runner := Write(out, 0, opStr);
    for i := 0 to |args|
      invariant 0 <= runner && runner + |ArgText(args[i..])| + 1 == out.Length
      invariant out[runner] == '\0'
      invariant out[..runner] + ArgText(args[i..]) == opStr + ArgText(args)
    {
      assert args[i..][1..] == args[i + 1..];
      ghost var before := out[..runner];
      out[runner] := DELIM;
      runner := runner + 1;
      assert out[..runner] == before + [DELIM];
      runner := Write(out, runner, args[i]);
    }
  }

  /** Copies a string and its terminator and returns where the terminator is. */
  method Write(out: array<char>, at: nat, s: string) returns (end: nat)
    requires at + |s| < out.Length
    modifies out
    ensures end == at + |s| && out[..end] == old(out[..at]) + s && out[end] == '\0'
  {
    for i := 0 to |s|
      invariant out[..at + i] == old(out[..at]) + s[..i]
    {
      out[at + i] := s[i];
    }
    end := at + |s|;
    out[end] := '\0';
  }

  method ToMessage(cmd: Cmd) returns (out: array<char>)
    ensures out[..] == Message(cmd) + ['\0']
  {
    out := Compose(OpStr(cmd.op), cmd.args);
  }

  ghost predicate IsLine(s: string) {
    s != [] && DELIM !in s
  }

  lemma {:induction false} TokensAreLines(s: string)
    ensures forall t :: t in Tokens(s) ==> IsLine(t)
    decreases |s|
  {
    if s == [] {
    } else if s[0] == DELIM {
      TokensAreLines(s[1..]);
    } else {
      TokensAreLines(s[WordLen(s)..]);
    }
  }

  /** The tokens of all arguments, one after the other. */
  function AllTokens(args: seq<string>): seq<string> {
    if args == [] then [] else Tokens(args[0]) + AllTokens(args[1..])
  }

  /** A delimiter keeps the tokens of two texts apart. */
  lemma {:induction false} TokensApart(s: string, t: string)
    ensures Tokens(s + [DELIM] + t) == Tokens(s) + Tokens(t)
    decreases |s|
  {
    var u := s + [DELIM] + t;
    if s == [] {
      assert u[1..] == t;
    } else if s[0] == DELIM {
      assert u[1..] == s[1..] + [DELIM] + t;
      TokensApart(s[1..], t);
    } else {
      var n := WordLen(s);
      WordApart(s, t, n);
      TokensApart(s[n..], t);
      assert [s[..n]] + (Tokens(s[n..]) + Tokens(t)) == [s[..n]] + Tokens(s[n..]) + Tokens(t);
    }
  }

  lemma WordApart(s: string, t: string, n: nat)
    requires s != [] && n == WordLen(s)
    ensures var u := s + [DELIM] + t; WordLen(u) == n && u[..n] == s[..n] && u[n..] == s[n..] + [DELIM] + t
  {
    var u := s + [DELIM] + t;
    assert u[..n] == s[..n] && u[n..] == s[n..] + [DELIM] + t;
    WordLenIs(u, n);
  }

  lemma {:induction false} ArgTextTokens(args: seq<string>)
    ensures Tokens(ArgText(args)) == AllTokens(args)
  {
    if args != [] {
      var a, rest := args[0], args[1..];
      ArgTextTokens(rest);
      var t := ArgText(args);
      assert t[1..] == a + ArgText(rest);
      if rest == [] {
        assert a + ArgText(rest) == a;
        assert Tokens(a) + [] == Tokens(a);
      } else {
        var r := ArgText(rest);
        assert a + r == a + [DELIM] + r[1..];
        TokensApart(a, r[1..]);
      }
    }
  }

  lemma {:induction false} LinesStay(args: seq<string>)
    requires forall a :: a in args ==> IsLine(a)
    ensures AllTokens(args) == args
  {
    if args != [] {
      var a := args[0];
      assert a in args;
      WordLenIs(a, |a|);
      assert a[..|a|] == a && Tokens(a) == [a] + Tokens(a[|a|..]) == [a];
      LinesStay(args[1..]);
    }
  }

  lemma {:induction false} AllTokensAreLines(args: seq<string>)
    ensures forall t :: t in AllTokens(args) ==> IsLine(t)
  {
    if args != [] {
      TokensAreLines(args[0]);
      AllTokensAreLines(args[1..]);
    }
  }

  lemma NameIsLine(op: Op)
    ensures DELIM !in OpStr(op)
  {
    assert DELIM !in VerbName(op.verb);
    assert DELIM !in "C_" && DELIM !in "R_";
  }

  lemma WordThenArgs(word: string, args: seq<string>)
    requires DELIM !in word
    ensures WordLen(word + ArgText(args)) == |word|
  {
    assert (word + ArgText(args))[..|word|] == word;
    WordLenIs(word + ArgText(args), |word|);
  }

  /** Reading back a command's text gives the operation and the arguments' non-empty lines. */
  lemma ReadBack(cmd: Cmd, r: Option<Cmd>)
    requires Means(Message(cmd), r)
    ensures r == Some(Cmd(cmd.op, AllTokens(cmd.args)))
  {
    var s, op := Message(cmd), OpStr(cmd.op);
    NameIsLine(cmd.op);
    WordThenArgs(op, cmd.args);
    assert s[..|op|] == op && s[|op|..] == ArgText(cmd.args);
    assert NamesOp(s, cmd.op);
    OpNamesDiffer(cmd.op, r.value.op);
    ArgTextTokens(cmd.args);
  }

  /** A command is read back as it was exactly when its arguments are non-empty single lines. */
  lemma RoundTrip(cmd: Cmd, r: Option<Cmd>)
    requires Means(Message(cmd), r)
    ensures r == Some(cmd) <==> forall a :: a in cmd.args ==> IsLine(a)
  {
    ReadBack(cmd, r);
    AllTokensAreLines(cmd.args);
    if forall a :: a in cmd.args ==> IsLine(a) {
      LinesStay(cmd.args);
    }
  }

  /** What was read from a text survives being written and read again. */
  lemma ReadIsStable(s: string, cmd: Cmd, r: Option<Cmd>)
    requires Means(s, Some(cmd)) && Means(Message(cmd), r)
    ensures r == Some(cmd)
  {
    TokensAreLines(s[WordLen(s)..]);
    RoundTrip(cmd, r);
  }
}
