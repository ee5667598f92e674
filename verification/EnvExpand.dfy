/**
 * Expansion of the quoted value of an ENV_SET line (src/confconv.c, src/lexers.re): escape
 * sequences and references to variables that are already set. Characters are bytes.
 */
module EnvExpand {
  import opened Options
  import EnvSet

  const NUL := 0 as char

  datatype Token = End | Err | Copy(c: char) | Escape(c: char) | Hex(c: char) | Variable(name: string)

  /** A token and the rest of the text. */
  datatype Lexed = Lexed(token: Token, rest: string)

  predicate IsNameStart(c: char) { 'a' <= c <= 'z' || 'A' <= c <= 'Z' || c == '_' }

  predicate IsNameChar(c: char) { IsNameStart(c) || '0' <= c <= '9' }

  function NameLen(s: string): (n: nat)
    ensures n <= |s| && (forall i :: 0 <= i < n ==> IsNameChar(s[i])) && (n < |s| ==> !IsNameChar(s[n]))
  {
    if s == "" || !IsNameChar(s[0]) then 0 else 1 + NameLen(s[1..])
  }

  function HexDigit(c: char): Option<nat> {
    if '0' <= c <= '9' then Some(c as int - '0' as int)
    else if 'a' <= c <= 'f' then Some(c as int - 'a' as int + 10)
    else if 'A' <= c <= 'F' then Some(c as int - 'A' as int + 10)
    else None
  }

  /** Which character an escape sequence stands for; NUL for those that are not known. */
  function EscMap(c: char): char {
    match c
    case 'n' => '\n'
    case 'r' => '\r'
    case 'b' => 8 as char
    case 'a' => 7 as char
    case '"' => '"'
    case '\'' => '\''
    case '\\' => '\\'
    case 'f' => 12 as char
    case 't' => '\t'
    case 'v' => 11 as char
    case '$' => '$'
    case ' ' => ' '
    case _ => NUL
  }

  predicate StartsVariable(s: string) {
    |s| > 3 && s[0] == '$' && s[1] == '{' && IsNameStart(s[2])
    && var n := NameLen(s[2..]); n + 2 < |s| && s[n + 2] == '}'
  }

  predicate StartsHex(s: string) {
    |s| >= 4 && s[0] == '\\' && s[1] == 'x' && HexDigit(s[2]).Some? && HexDigit(s[3]).Some?
  }

  /** The longest token at the start of a text. */
  function Lex(s: string): (r: Lexed)
    ensures !r.token.End? ==> |r.rest| < |s|
    ensures r.token.End? <==> s == ""
  {
    if s == "" then Lexed(End, "")
    else if StartsHex(s) then
      Lexed(Hex((HexDigit(s[2]).value * 16 + HexDigit(s[3]).value) as char), s[4..])
    else if s[0] == '\\' then (if |s| >= 2 then Lexed(Escape(s[1]), s[2..]) else Lexed(Err, ""))
    else if StartsVariable(s) then
      var n := NameLen(s[2..]); Lexed(Variable(s[2..n + 2]), s[n + 3..])
    else Lexed(Copy(s[0]), s[1..])
  }

  function Prefixed(p: string, r: Option<string>): Option<string> {
    if r.None? then None else Some(p + r.value)
  }

  function ValueOrEmpty(vars: seq<EnvSet.Var>, name: string): string {
    var v := EnvSet.Lookup(vars, name);
    if v.None? then "" else v.value
  }

  /** What a token stands for, none for an unknown or unfinished escape sequence. */
  function Meaning(token: Token, vars: seq<EnvSet.Var>): Option<string> {
    match token
    case End => Some("")
    case Err => None
    case Copy(c) => Some([c])
    case Hex(c) => Some([c])
    case Escape(c) => if EscMap(c) == NUL then None else Some([EscMap(c)])
    case Variable(name) => Some(ValueOrEmpty(vars, name))
  }

  /** What a text stands for, none if one of its tokens stands for nothing. */
  function Expand(s: string, vars: seq<EnvSet.Var>): Option<string>
    decreases |s|
  {
    if s == "" then Some("")
    else
      var r := Lex(s);
      var m := Meaning(r.token, vars);
      if m.None? then None else Prefixed(m.value, Expand(r.rest, vars))
  }

  lemma PrefixedTwice(a: string, b: string, r: Option<string>)
    ensures Prefixed(a, Prefixed(b, r)) == Prefixed(a + b, r) && Prefixed("", r) == r
  {
    if r.Some? {
      assert a + (b + r.value) == a + b + r.value && "" + r.value == r.value;
    }
  }

  function QuoteChar(c: char): string {
    if c == '\\' || c == '$' then ['\\', c] else [c]
  }

  /** How a value is written so that it stands for itself. */
  function Quote(v: string): string {
    if v == "" then "" else QuoteChar(v[0]) + Quote(v[1..])
  }

  lemma EscapeExpands(c: char, t: string, vars: seq<EnvSet.Var>)
    requires c != 'x' && EscMap(c) != NUL
    ensures Expand(['\\', c] + t, vars) == Prefixed([EscMap(c)], Expand(t, vars))
  {
    var s := ['\\', c] + t;
    assert s[2..] == t;
  }

  /** The characters that may follow a backslash, and what they then stand for. */
  const ESCAPES := "abfnrtv\"'\\$ "
  const MEANINGS := [7, 8, 12, 10, 13, 9, 11, 34, 39, 92, 36, 32]

  lemma EscapeCodes(i: nat)
    requires i < |ESCAPES|
    ensures |MEANINGS| == |ESCAPES| && ESCAPES[i] != 'x'
    ensures EscMap(ESCAPES[i]) == MEANINGS[i] as char != NUL
  {
  }

  /** The escape sequences of C other than octal and Unicode ones, and those of dollar and space. */
  lemma KnownEscapes(i: nat, t: string, vars: seq<EnvSet.Var>)
    requires i < |ESCAPES| == |MEANINGS|
    ensures Expand(['\\', ESCAPES[i]] + t, vars) == Prefixed([MEANINGS[i] as char], Expand(t, vars))
  {
    EscapeCodes(i);
    EscapeExpands(ESCAPES[i], t, vars);
  }

  lemma NoCode(c: char)
    requires c !in ESCAPES
    ensures EscMap(c) == NUL
  {
    assert ESCAPES[0] == 'a' && ESCAPES[1] == 'b' && ESCAPES[2] == 'f' && ESCAPES[3] == 'n' && ESCAPES[4] == 'r';
    assert ESCAPES[5] == 't' && ESCAPES[6] == 'v' && ESCAPES[7] == '"' && ESCAPES[8] == '\'' && ESCAPES[9] == '\\';
    assert ESCAPES[10] == '$' && ESCAPES[11] == ' ';
  }

  /** Any other one but a complete hexadecimal one is refused. */
  lemma UnknownEscape(c: char, t: string, vars: seq<EnvSet.Var>)
    requires c !in ESCAPES && !StartsHex(['\\', c] + t)
    ensures Expand(['\\', c] + t, vars) == None
  {
    NoCode(c);
    var s := ['\\', c] + t;
    assert Lex(s).token == Escape(c);
  }

  lemma CopyExpands(c: char, t: string, vars: seq<EnvSet.Var>)
    requires c != '\\' && c != '$'
    ensures Expand([c] + t, vars) == Prefixed([c], Expand(t, vars))
  {
    var s := [c] + t;
    assert s[1..] == t;
  }

  function HexChar(n: nat): char
    requires n < 16
  {
    "0123456789abcdef"[n]
  }

  /** Every byte can be written as a hexadecimal escape sequence. */
  lemma HexExpands(b: nat, t: string, vars: seq<EnvSet.Var>)
    requires b < 256
    ensures Expand(['\\', 'x', HexChar(b / 16), HexChar(b % 16)] + t, vars) == Prefixed([b as char], Expand(t, vars))
  {
    var s := ['\\', 'x', HexChar(b / 16), HexChar(b % 16)] + t;
    HexCharDigit(b / 16);
    HexCharDigit(b % 16);
    assert s[4..] == t;
    assert StartsHex(s);
  }

  lemma HexCharDigit(n: nat)
    requires n < 16
    ensures HexDigit(HexChar(n)) == Some(n)
  {
  }

  lemma QuoteCharExpands(c: char, t: string, vars: seq<EnvSet.Var>)
    ensures Expand(QuoteChar(c) + t, vars) == Prefixed([c], Expand(t, vars))
  {
    if c == '\\' || c == '$' {
      EscapeExpands(c, t, vars);
    } else {
      CopyExpands(c, t, vars);
    }
  }

  /** A quoted value stands for itself, whatever follows it. */
  lemma {:induction false} QuoteExpands(v: string, t: string, vars: seq<EnvSet.Var>)
    ensures Expand(Quote(v) + t, vars) == Prefixed(v, Expand(t, vars))
    decreases |v|
  {
    if v == "" {
      assert Quote(v) + t == t;
      PrefixedTwice("", "", Expand(t, vars));
    } else {
      var rest := Quote(v[1..]) + t;
      QuoteExpands(v[1..], t, vars);
      assert Quote(v) + t == QuoteChar(v[0]) + rest;
      QuoteCharExpands(v[0], rest, vars);
      PrefixedTwice([v[0]], v[1..], Expand(t, vars));
      assert v == [v[0]] + v[1..];
    }
  }

  predicate IsName(n: string) {
    n != "" && IsNameStart(n[0]) && forall i :: 0 <= i < |n| ==> IsNameChar(n[i])
  }

  lemma NameLenIs(n: string, t: string)
    requires IsName(n) && t != "" && !IsNameChar(t[0])
    ensures NameLen(n + t) == |n|
  {
    assert (n + t)[|n|] == t[0];
  }

  /** A reference stands for the variable's value, for nothing if it is not set. */
  lemma VariableExpands(name: string, t: string, vars: seq<EnvSet.Var>)
    requires IsName(name)
    ensures Expand("${" + name + "}" + t, vars) == Prefixed(ValueOrEmpty(vars, name), Expand(t, vars))
  {
    var s := "${" + name + "}" + t;
    assert s[2..] == name + ("}" + t);
    NameLenIs(name, "}" + t);
    assert StartsVariable(s) && s[2..|name| + 2] == name && s[|name| + 3..] == t;
  }

  /** A buffer and how much of it is written. */
  class Buffer {
    var data: array<char>
    var pos: nat

    constructor (size: nat)
      ensures fresh(data) && data.Length == size && pos == 0
    {
      data := new char[size];
      pos := 0;
    }

    method Add(c: char)
      requires pos < data.Length
      modifies `pos, data
      ensures pos == old(pos) + 1 && data[..pos] == old(data[..pos]) + [c]
    {
      data[pos] := c;
      pos := pos + 1;
    }

    /** Makes the buffer longer by the length of a string and copies that string into it. */
    method AddString(s: string)
      requires pos < data.Length
      modifies this
      ensures fresh(data) && data.Length == old(data.Length) + |s| && pos == old(pos) + |s|
      ensures data[..pos] == old(data[..pos]) + s
    {
      var bigger := new char[data.Length + |s|];
      for i := 0 to data.Length
        invariant forall j :: 0 <= j < i ==> bigger[j] == data[j]
        modifies bigger
      {
        bigger[i] := data[i];
      }
      for i := 0 to |s|
        invariant forall j :: 0 <= j < pos ==> bigger[j] == data[j]
        invariant forall j :: 0 <= j < i ==> bigger[pos + j] == s[j]
        modifies bigger
      {
        bigger[pos + i] := s[i];
      }
      bigger[pos + |s|] := NUL;
      assert bigger[..pos + |s|] == data[..pos] + s;
      data := bigger;
      pos := pos + |s|;
    }
  }

  /** A buffer read as a C string ends at its first NUL. */
  function CString(s: string): string {
    if s == "" || s[0] == NUL then "" else [s[0]] + CString(s[1..])
  }

  function Read(r: Option<string>): Option<string> {
    if r.None? then None else Some(CString(r.value))
  }

  lemma VariableIsName(s: string)
    requires Lex(s).token.Variable?
    ensures '=' !in Lex(s).token.name
  {
  }

  /** Writes what one token stands for. */
  method Emit(es: EnvSet.Set, token: Token, buf: Buffer) returns (ok: bool)
    requires es.Valid() && buf.pos < buf.data.Length && buf.data as object != es.envp
    requires token.Variable? ==> '=' !in token.name
    modifies buf, buf.data
    ensures es.Valid() && (buf.data == old(buf.data) || fresh(buf.data))
    ensures ok <==> Meaning(token, es.vars).Some?
    ensures buf.data.Length >= buf.pos
    ensures ok ==> buf.data[..buf.pos] == old(buf.data[..buf.pos]) + Meaning(token, es.vars).value
    ensures ok && !token.Variable? && !token.End? ==> buf.pos == old(buf.pos) + 1
    ensures ok && (token.Variable? || token.End?) ==> buf.data.Length - buf.pos == old(buf.data.Length - buf.pos)
    ensures buf.data.Length >= old(buf.data.Length)
  {
    match token {
      case End =>
      case Err =>
        return false;
      case Copy(c) =>
        buf.Add(c);
      case Hex(c) =>
        buf.Add(c);
      case Escape(e) =>
        var c := EscMap(e);
        if c == NUL {
          return false;
        }
        buf.Add(c);
      case Variable(name) =>
        var substVal := es.Get(name);
        if substVal.Some? && substVal.value != "" {
          buf.AddString(substVal.value);
        }
    }
    ok := true;
  }

  /** The expansion loop; every write stays within the buffer. */
  method ExpandValue(es: EnvSet.Set, envVal: string) returns (r: Option<string>)
    requires es.Valid()
    ensures r == Read(Expand(envVal, es.vars))
  {
    var buf := new Buffer(|envVal| + 1);
    var s := envVal;
    assert buf.data[..0] == "";
    PrefixedTwice("", "", Expand(s, es.vars));
    while true
      invariant fresh(buf) && fresh(buf.data) && es.Valid()
      invariant buf.pos + |s| + 1 <= buf.data.Length
      invariant Expand(envVal, es.vars) == Prefixed(buf.data[..buf.pos], Expand(s, es.vars))
      decreases |s|
    {
      var lexed := Lex(s);
      if lexed.token.End? {
        ghost var written := buf.data[..buf.pos];
        buf.data[buf.pos] := NUL;
        assert buf.data[..buf.pos] == written && written + "" == written;
        return Some(CString(buf.data[..buf.pos]));
      }
      if lexed.token.Variable? {
        VariableIsName(s);
      }
      ghost var before, meaning := buf.data[..buf.pos], Meaning(lexed.token, es.vars);
      var ok := Emit(es, lexed.token, buf);
      if !ok {
        return None;
      }
      PrefixedTwice(before, meaning.value, Expand(lexed.rest, es.vars));
      s := lexed.rest;
    }
  }

  /**
   * Expands a value with the variables set so far and sets a variable to it; nothing changes if
   * that fails.
   */
  method SetExpanded(es: EnvSet.Set, key: string, envVal: string, room: bool, memory: bool) returns (ok: bool)
    requires es.Valid() && '=' !in key
    modifies es, es.envp
    ensures es.Valid()
    ensures ok ==> Expand(envVal, old(es.vars)).Some?
    ensures room && memory && es.allocInc > 0 ==> (ok <==> Expand(envVal, old(es.vars)).Some?)
    ensures es.vars == if ok then EnvSet.Updated(old(es.vars), key, CString(Expand(envVal, old(es.vars)).value))
                       else old(es.vars)
  {
    var parsed := ExpandValue(es, envVal);
    if parsed.None? {
      return false;
    }
    ok := es.SetVar(key, parsed.value, room, memory);
  }
}
