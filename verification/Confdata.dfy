/** confdata.c: writing the values of symbols to a configuration file and reading
    them back. */
module Confdata {
  import opened Kconfig
  import opened Symbols
  import opened SymValues

  const NUL: char := '\0'

  // ----- strings in quotes -----

  /** sym_escape_string_value, without the quotes */
  function Escape(s: string): string {
    if s == "" then ""
    else (if s[0] == '"' || s[0] == '\\' then ['\\', s[0]] else [s[0]]) + Escape(s[1..])
  }

  /** What is read from the text after the opening quote, up to the closing one. */
  function Unescape(s: string): Option<string> {
    if s == "" || s == "\\" then None
    else if s[0] == '"' then Some("")
    else
      var skip := if s[0] == '\\' then 1 else 0;
      Prepend([s[skip]], Unescape(s[skip + 1..]))
  }

  function Prepend(t: string, r: Option<string>): Option<string> {
    if r.None? then None else Some(t + r.value)
  }

  /** Every string is read back from its escaped form, whatever follows the quote. */
  lemma {:induction false} EscapeUnescape(s: string, after: string)
    ensures Unescape(Escape(s) + ['"'] + after) == Some(s)
  {
    var e := Escape(s) + ['"'] + after;
    if s == "" {
      assert e == ['"'] + after && "\\"[0] == '\\';
    } else {
      EscapeUnescape(s[1..], after);
      var rest := Escape(s[1..]) + ['"'] + after;
      assert s == [s[0]] + s[1..];
      if s[0] == '"' || s[0] == '\\' {
        assert e == ['\\', s[0]] + rest && e[2..] == rest;
      } else {
        assert e == [s[0]] + rest && e[1..] == rest && "\\"[0] == '\\';
      }
    }
  }

  /** How many characters need a backslash. */
  function Quoted(s: string): nat {
    if s == "" then 0 else (if s[0] == '"' || s[0] == '\\' then 1 else 0) + Quoted(s[1..])
  }

  /** Nothing else gets one. */
  lemma {:induction false} EscapeLength(s: string)
    ensures |Escape(s)| == |s| + Quoted(s) && (Plain(s) ==> Escape(s) == s)
  {
    if s != "" {
      EscapeLength(s[1..]);
      assert s == [s[0]] + s[1..];
    }
  }

  predicate Plain(s: string) { '"' !in s && '\\' !in s }

  lemma {:induction false} UnescapePlain(t: string, s: string)
    requires Plain(t)
    ensures Unescape(t + s) == Prepend(t, Unescape(s))
  {
    if t == "" {
      assert t + s == s && (Unescape(s).Some? ==> t + Unescape(s).value == Unescape(s).value);
    } else {
      UnescapePlain(t[1..], s);
      var u := t + s;
      assert u[0] == t[0] && t[0] != '\\' && "\\"[0] == '\\' && u[1..] == t[1..] + s;
      assert Unescape(u) == Prepend([t[0]], Unescape(u[1..]));
      assert Unescape(s).Some? ==> [t[0]] + (t[1..] + Unescape(s).value) == t + Unescape(s).value;
    }
  }

  // ----- C strings in a buffer -----

  /** The characters of s are in the buffer at i. */
  ghost predicate Carries(b: seq<char>, i: nat, s: string) {
    i + |s| <= |b| && forall k :: 0 <= k < |s| ==> b[i + k] == s[k] && s[k] != NUL
  }

  /** The string s, with its end, is in the buffer at i. */
  ghost predicate Holds(b: seq<char>, i: nat, s: string) {
    i + |s| < |b| && b[i + |s|] == NUL && Carries(b, i, s)
  }

  lemma SplitHeld(b: seq<char>, i: nat, s: string, k: nat)
    requires Holds(b, i, s) && k <= |s|
    ensures Carries(b, i, s[..k]) && Holds(b, i + k, s[k..])
    ensures b[i + k] == if k < |s| then s[k] else NUL
  {
    forall j | 0 <= j < |s| - k ensures b[i + k + j] == s[k..][j] && s[k..][j] != NUL {
      assert b[i + (k + j)] == s[k + j];
    }
  }

  lemma JoinCarried(b: seq<char>, p: nat, pre: string, t: string)
    requires Carries(b, p, pre) && Carries(b, p + |pre|, t)
    ensures Carries(b, p, pre + t)
  {
    forall k | 0 <= k < |pre + t| ensures b[p + k] == (pre + t)[k] && (pre + t)[k] != NUL {
      if k >= |pre| { assert b[p + |pre| + (k - |pre|)] == t[k - |pre|]; }
    }
  }

  /** What lies before a change is still there. */
  lemma StillCarried(b: seq<char>, c: seq<char>, p: nat, s: string)
    requires Carries(b, p, s) && p + |s| <= |c| && b[..p + |s|] == c[..p + |s|]
    ensures Carries(c, p, s)
  {
    forall k | 0 <= k < |s| ensures c[p + k] == s[k] {
      assert c[p + k] == c[..p + |s|][p + k] == b[..p + |s|][p + k];
    }
  }

  /** strpbrk(b + i, "\"\\"): the first quote or backslash of a string, or its end. */
  method StrPBrk(b: array<char>, i: nat, ghost s: string) returns (k: nat)
    requires Holds(b[..], i, s)
    ensures k <= |s| && i + k < b.Length && Plain(s[..k])
    ensures if k < |s| then b[i + k] == s[k] && (s[k] == '"' || s[k] == '\\') else b[i + k] == NUL
  {
    k := 0;
    SplitHeld(b[..], i, s, 0);
    while b[i + k] != NUL && b[i + k] != '"' && b[i + k] != '\\'
      invariant k <= |s| && Plain(s[..k]) && b[i + k] == if k < |s| then s[k] else NUL
      decreases |s| - k
    {
      assert s[..k + 1] == s[..k] + [s[k]];
      k := k + 1;
      SplitHeld(b[..], i, s, k);
    }
  }

  /** strlen(b + i) */
  method StrLen(b: array<char>, i: nat, ghost s: string) returns (n: nat)
    requires Holds(b[..], i, s)
    ensures n == |s|
  {
    n := 0;
    SplitHeld(b[..], i, s, 0);
    while b[i + n] != NUL
      invariant n <= |s| && b[i + n] == if n < |s| then s[n] else NUL
      decreases |s| - n
    {
      n := n + 1;
      SplitHeld(b[..], i, s, n);
    }
  }

  /** memmove(b + i, b + i + 1, strlen(b + i)) */
  method RemoveAt(b: array<char>, i: nat, ghost s: string)
    requires Holds(b[..], i, s) && s != ""
    modifies b
    ensures Holds(b[..], i, s[1..]) && i + |s| < b.Length && b[i + |s|] == NUL && b[..i] == old(b[..i])
  {
    var n := StrLen(b, i, s);
    ghost var was := b[..];
    forall k | i <= k < i + n {
      b[k] := b[k + 1];
    }
    forall k | 0 <= k < |s| - 1 ensures b[..][i + k] == s[1..][k] && s[1..][k] != NUL {
      assert was[i + (k + 1)] == s[k + 1];
    }
  }

  // ----- unescaping in place -----

  /** The state of the loop: the text so far is in the buffer at p, and cur is still
      to be read. */
  ghost predicate Underway(b: seq<char>, p: nat, s: string, pre: string, cur: string) {
    Carries(b, p, pre) && Holds(b, p + |pre|, cur) && Unescape(s) == Prepend(pre, Unescape(cur))
  }

  /** Past characters that stand for themselves. */
  lemma PassPlain(b: seq<char>, p: nat, s: string, pre: string, cur: string, k: nat)
    requires Underway(b, p, s, pre, cur) && k <= |cur| && Plain(cur[..k])
    ensures Underway(b, p, s, pre + cur[..k], cur[k..])
  {
    hide Carries;
    SplitHeld(b, p + |pre|, cur, k);
    JoinCarried(b, p, pre, cur[..k]);
    UnescapePlain(cur[..k], cur[k..]);
    assert cur == cur[..k] + cur[k..];
    assert Unescape(cur[k..]).Some? ==>
      pre + (cur[..k] + Unescape(cur[k..]).value) == pre + cur[..k] + Unescape(cur[k..]).value;
  }

  /** Past a backslash, which has been removed, and the character after it. */
  lemma PassEscaped(b: seq<char>, c: seq<char>, p: nat, s: string, pre: string, cur: string)
    requires Underway(b, p, s, pre, cur) && |cur| > 1 && cur[0] == '\\'
    requires Holds(c, p + |pre|, cur[1..]) && |b| == |c| && b[..p + |pre|] == c[..p + |pre|]
    ensures Underway(c, p, s, pre + [cur[1]], cur[2..])
  {
    hide Carries;
    StillCarried(b, c, p, pre);
    SplitHeld(c, p + |pre|, cur[1..], 1);
    assert cur[1..][..1] == [cur[1]] && cur[1..][1..] == cur[2..];
    JoinCarried(c, p, pre, [cur[1]]);
    assert cur != "\\" && cur[0] != '"';
    assert Unescape(cur[2..]).Some? ==>
      pre + ([cur[1]] + Unescape(cur[2..]).value) == pre + [cur[1]] + Unescape(cur[2..]).value;
  }

  /** The closing quote has been overwritten. */
  lemma PassQuote(b: seq<char>, c: seq<char>, p: nat, s: string, pre: string, cur: string)
    requires Underway(b, p, s, pre, cur) && cur != "" && cur[0] == '"' && c == b[p + |pre| := NUL]
    ensures Unescape(s) == Some(pre) && Holds(c, p, pre)
  {
    StillCarried(b, c, p, pre);
    assert "\\"[0] == '\\' && pre + "" == pre;
  }

  lemma NoMore(b: seq<char>, p: nat, s: string, pre: string, cur: string)
    requires Underway(b, p, s, pre, cur) && (cur == "" || cur == "\\")
    ensures Unescape(s) == None
  {
  }

  /** A backslash at i is removed, and the character after it is passed; there may be none. */
  method SkipEscape(b: array<char>, p: nat, i: nat, ghost s: string, ghost pre: string, ghost cur: string)
    returns (ghost pre': string, ghost cur': string, ghost beyond: bool)
    requires Underway(b[..], p, s, pre, cur) && cur != "" && cur[0] == '\\' && i == p + |pre|
    modifies b
    ensures b[..p] == old(b[..p]) && i + 1 == p + |pre'|
    ensures if beyond then Unescape(s) == None && Holds(b[..], i + 1, "")
      else Underway(b[..], p, s, pre', cur') && |cur'| < |cur|
  {
    hide Carries, Unescape, Prepend, Plain;
    ghost var was := b[..];
    RemoveAt(b, i, cur);
    assert b[..p] == b[..i][..p] == was[..i][..p];
    beyond := |cur| == 1;
    if |cur| == 1 {
      assert cur == "\\";
      NoMore(was, p, s, pre, cur);
      pre', cur' := pre + cur, "";
      NothingHeld(b[..], i + 1);
    } else {
      PassEscaped(was, b[..], p, s, pre, cur);
      pre', cur' := pre + [cur[1]], cur[2..];
    }
  }

  /** The case for strings in conf_set_sym_val: the quoted string whose text begins at
      p is unescaped in place. */
  method Unquote(b: array<char>, p: nat, ghost s: string) returns (found: bool)
    requires Holds(b[..], p, s)
    modifies b
    ensures found == Unescape(s).Some? && (found ==> Holds(b[..], p, Unescape(s).value))
    ensures b[..p] == old(b[..p])
  {
    hide Carries, Unescape, Prepend, Plain;
    var i := p;
    ghost var pre, cur, beyond := "", s, false;
    found := false;
    Begin(b[..], p, s);
    while true
      invariant i == p + |pre| && b[..p] == old(b[..p])
      invariant if beyond then Unescape(s) == None && Holds(b[..], i, "") else Underway(b[..], p, s, pre, cur)
      decreases if beyond then 0 else |cur| + 1
    {
      ghost var text := if beyond then "" else cur;
      var k := StrPBrk(b, i, text);
      if b[i + k] == NUL {
        if !beyond {
          PassPlain(b[..], p, s, pre, cur, k);
          NoMore(b[..], p, s, pre + cur[..k], cur[k..]);
        }
        break;
      }
      PassPlain(b[..], p, s, pre, cur, k);
      pre, cur := pre + cur[..k], cur[k..];
      i := i + k;
      ghost var was := b[..];
      if b[i] == '"' {
        b[i] := NUL;
        PassQuote(was, b[..], p, s, pre, cur);
        found := true;
        break;
      }
      pre, cur, beyond := SkipEscape(b, p, i, s, pre, cur);
      i := i + 1;
    }
  }

  lemma NothingHeld(b: seq<char>, i: nat)
    requires i < |b| && b[i] == NUL
    ensures Holds(b, i, "")
  {
  }

  lemma Begin(b: seq<char>, p: nat, s: string)
    requires Holds(b, p, s)
    ensures Underway(b, p, s, "", s)
  {
    assert Unescape(s).Some? ==> "" + Unescape(s).value == Unescape(s).value;
  }

  // ----- the lines of the file -----

  predicate Digit(c: char) { '0' <= c <= '9' }
  predicate HexDigit(c: char) { Digit(c) || 'a' <= c <= 'f' || 'A' <= c <= 'F' }

  predicate IsDigit(hex: bool, c: char) { if hex then HexDigit(c) else Digit(c) }

  predicate AllDigits(hex: bool, d: string) { forall k :: 0 <= k < |d| ==> IsDigit(hex, d[k]) }

  /** sym_string_valid for the types that are stored as text */
  predicate StringValid(kind: Kind, s: string) {
    match kind
    case String => true
    case Int =>
      var d := if s != "" && s[0] == '-' then s[1..] else s;
      d != "" && AllDigits(false, d) && (d[0] == '0' ==> |d| == 1)
    case Hex =>
      var d := if |s| > 1 && s[0] == '0' && (s[1] == 'x' || s[1] == 'X') then s[2..] else s;
      d != "" && AllDigits(true, d)
    case _ => false
  }

  /** conf_set_sym_val: the value that is set, if any */
  function SymVal(kind: Kind, p: string): Option<Val> {
    match kind
    case Boolean => if p != "" && p[0] == 'y' then Some(Val(2, ""))
      else if p != "" && p[0] == 'n' then Some(Val(0, "")) else None
    case Tristate =>
      if p != "" && p[0] == 'm' then Some(Val(1, ""))
      else if p != "" && p[0] == 'y' then Some(Val(2, ""))
      else if p != "" && p[0] == 'n' then Some(Val(0, ""))
      else None
    case String =>
      if p == "" || p[0] != '"' || Unescape(p[1..]).None? then None else Some(Val(0, Unescape(p[1..]).value))
    case Int => if StringValid(Int, p) then Some(Val(0, p)) else None
    case Hex => if StringValid(Hex, p) then Some(Val(0, p)) else None
    case Unknown => None
  }

  /** Of the text for a boolean or tristate symbol only the first letter counts, which is that
      of the value; m is none of a boolean symbol. */
  lemma TriTaken(kind: Kind, p: string, v: Val)
    requires kind == Boolean || kind == Tristate
    ensures SymVal(kind, p) == Some(v) <==>
            p != "" && p[0] == TriName(v.tri)[0] && v.text == "" && (kind == Boolean ==> v.tri != 1)
  {
    assert "n"[0] == 'n' && "m"[0] == 'm' && "y"[0] == 'y';
  }

  const CONFIG: string := "CONFIG_"
  const NOT_SET: string := "is not set"

  function Find(s: string, c: char, i: nat): (k: nat)
    requires i <= |s|
    ensures i <= k <= |s| && (k < |s| ==> s[k] == c) && forall j :: i <= j < k ==> s[j] != c
    decreases |s| - i
  {
    if i == |s| || s[i] == c then i else Find(s, c, i + 1)
  }

  /** The symbols that sym_find finds, and the values of the user. */
  type Table = map<string, Symbol>
  type User = map<Symbol, Val>

  /** What one line of the file sets. */
  function ReadLine(table: Table, user: User, line: string): User {
    if line != "" && line[0] == '#' then
      if |line| < 9 || line[2..9] != CONFIG then user
      else ReadUnset(table, user, line[9..])
    else if |line| < 7 || line[..7] != CONFIG then user
    else ReadSet(table, user, line[7..])
  }

  function ReadUnset(table: Table, user: User, rest: string): User {
    var k := Find(rest, ' ', 0);
    if k == |rest| || !(NOT_SET <= rest[k + 1..]) || rest[..k] !in table then user
    else
      var s := table[rest[..k]];
      if IsTri(s) then user[s := Val(0, "")] else user
  }

  function ReadSet(table: Table, user: User, rest: string): User {
    var k := Find(rest, '=', 0);
    if k == |rest| || rest[..k] !in table then user
    else
      var s := table[rest[..k]];
      match SymVal(s.Type(), Chomp(rest[k + 1..]))
      case None => user
      case Some(v) => user[s := v]
  }

  /** Without the end of the line, and a carriage return before it. */
  function Chomp(p: string): string {
    var k := Find(p, '\n', 0);
    if 0 < k < |p| && p[k - 1] == '\r' then p[..k - 1] else p[..k]
  }

  /** kconfig_print_symbol, for the string that conf_write_symbol gives it */
  function Print(s: Symbol, name: string, value: string): string {
    if IsTri(s) && value != "" && value[0] == 'n' then "# " + CONFIG + name + " " + NOT_SET + "\n"
    else CONFIG + name + "=" + value + "\n"
  }

  /** The value of a symbol as it is printed. */
  function ValueText(s: Symbol, v: Val): string {
    if IsTri(s) then TriName(v.tri)
    else if s.Type() == String then ['"'] + Escape(v.text) + ['"']
    else v.text
  }

  predicate NameOK(name: string) {
    forall c :: c in name ==> c != ' ' && c != '=' && c != '\n'
  }

  /** A value that a symbol of this type can have. */
  predicate Valued(s: Symbol, v: Val) {
    match s.Type()
    case Boolean => v.tri != 1 && v.text == ""
    case Tristate => v.text == ""
    case String => v.tri == 0 && '\n' !in v.text
    case Unknown => false
    case kind => v.tri == 0 && StringValid(kind, v.text)
  }

  function Line(s: Symbol, v: Val): string
    requires s.Var?
  {
    Print(s, s.name, ValueText(s, v))
  }

  lemma {:induction false} EscapeNoNewline(s: string)
    requires '\n' !in s
    ensures '\n' !in Escape(s)
  {
    if s != "" { EscapeNoNewline(s[1..]); }
  }

  lemma FindAfter(t: string, c: char, s: string)
    requires c !in t
    ensures Find(t + [c] + s, c, 0) == |t|
  {
    var u := t + [c] + s;
    assert u[|t|] == c;
    forall k | 0 <= k < |t| ensures u[k] != c { assert u[k] == t[k]; }
  }

  lemma NumberNoNewline(kind: Kind, s: string)
    requires (kind == Int || kind == Hex) && StringValid(kind, s)
    ensures '\n' !in s && s != "" && s[|s| - 1] != '\r'
  {
    forall k | 0 <= k < |s| ensures s[k] != '\n' && s[k] != '\r' {
      if kind == Int {
        var d := if s[0] == '-' then s[1..] else s;
        var j := k - (|s| - |d|);
        if j >= 0 { assert IsDigit(false, d[j]); }
      } else {
        var d := if |s| > 1 && s[0] == '0' && (s[1] == 'x' || s[1] == 'X') then s[2..] else s;
        var j := k - (|s| - |d|);
        if j >= 0 { assert IsDigit(true, d[j]); }
      }
    }
  }

  /** What is printed of a value is read back as the value. */
  lemma ValueRoundTrip(s: Symbol, v: Val)
    requires Valued(s, v)
    ensures SymVal(s.Type(), ValueText(s, v)) == Some(v)
    ensures '\n' !in ValueText(s, v) && ValueText(s, v) != "" && ValueText(s, v)[|ValueText(s, v)| - 1] != '\r'
  {
    if s.Type() == String {
      EscapeUnescape(v.text, "");
      EscapeNoNewline(v.text);
      assert ValueText(s, v)[1..] == Escape(v.text) + ['"'] + "";
    } else if !IsTri(s) {
      NumberNoNewline(s.Type(), v.text);
    }
  }

  lemma ChompLine(p: string)
    requires '\n' !in p && (p != "" ==> p[|p| - 1] != '\r')
    ensures Chomp(p + ['\n']) == p
  {
    FindAfter(p, '\n', "");
    assert p + ['\n'] + "" == p + ['\n'] && (p + ['\n'])[..|p|] == p;
    assert p != "" ==> (p + ['\n'])[|p| - 1] == p[|p| - 1];
  }

  lemma FindsName(name: string, c: char, after: string)
    requires c !in name
    ensures var rest := name + [c] + after;
            Find(rest, c, 0) == |name| < |rest| && rest[..|name|] == name && rest[|name| + 1..] == after
  {
    FindAfter(name, c, after);
  }

  lemma UnsetLine(table: Table, user: User, name: string)
    requires NameOK(name) && name in table && IsTri(table[name])
    ensures ReadUnset(table, user, name + [' '] + (NOT_SET + "\n")) == user[table[name] := Val(0, "")]
  {
    FindsName(name, ' ', NOT_SET + "\n");
  }

  lemma SetLine(table: Table, user: User, name: string, value: string)
    requires NameOK(name) && name in table && SymVal(table[name].Type(), value).Some?
    requires '\n' !in value && (value != "" ==> value[|value| - 1] != '\r')
    ensures ReadSet(table, user, name + ['='] + (value + ['\n']))
      == user[table[name] := SymVal(table[name].Type(), value).value]
  {
    hide SymVal, Chomp;
    FindsName(name, '=', value + ['\n']);
    ChompLine(value);
  }

  lemma AfterPrefix(pre: string, rest: string)
    ensures (pre + rest)[..|pre|] == pre && (pre + rest)[|pre|..] == rest
  {
  }

  lemma ReadAfterHash(table: Table, user: User, rest: string)
    ensures ReadLine(table, user, "# " + CONFIG + rest) == ReadUnset(table, user, rest)
  {
    hide ReadUnset, ReadSet;
    var line := "# " + CONFIG + rest;
    AfterPrefix("# " + CONFIG, rest);
    assert line[2..9] == CONFIG;
  }

  lemma ReadAfterConfig(table: Table, user: User, rest: string)
    ensures ReadLine(table, user, CONFIG + rest) == ReadSet(table, user, rest)
  {
    hide ReadUnset, ReadSet;
    AfterPrefix(CONFIG, rest);
    assert (CONFIG + rest)[0] == CONFIG[0];
  }

  /** The line that is printed for a symbol sets it to the value it has. */
  lemma LineRoundTrip(table: Table, user: User, s: Symbol, v: Val)
    requires s.Var? && NameOK(s.name) && Valued(s, v) && s.name in table && table[s.name] == s
    ensures ReadLine(table, user, Line(s, v)) == user[s := v]
  {
    hide ReadLine, ReadUnset, ReadSet, SymVal;
    var name, value := s.name, ValueText(s, v);
    ValueRoundTrip(s, v);
    if IsTri(s) && value[0] == 'n' {
      var rest := name + [' '] + (NOT_SET + "\n");
      ReadAfterHash(table, user, rest);
      UnsetLine(table, user, name);
      assert Line(s, v) == "# " + CONFIG + rest;
    } else {
      var rest := name + ['='] + (value + ['\n']);
      ReadAfterConfig(table, user, rest);
      SetLine(table, user, name, value);
      assert Line(s, v) == CONFIG + rest;
    }
  }

  /** The lines as they stand in the file. */
  lemma LinesRead(s: Symbol, v: Val)
    requires s.Var?
    ensures IsTri(s) && v.tri == 0 ==> Line(s, v) == "# CONFIG_" + s.name + " is not set\n"
    ensures IsTri(s) && v.tri == 1 ==> Line(s, v) == "CONFIG_" + s.name + "=m\n"
    ensures IsTri(s) && v.tri == 2 ==> Line(s, v) == "CONFIG_" + s.name + "=y\n"
    ensures s.Type() == Int || s.Type() == Hex ==> Line(s, v) == "CONFIG_" + s.name + "=" + v.text + "\n"
    ensures s.Type() == String && Plain(v.text) ==> Line(s, v) == "CONFIG_" + s.name + "=\"" + v.text + "\"\n"
  {
    hide Escape, Quoted, Plain;
    EscapeLength(v.text);
    var pre := "CONFIG_" + s.name + "=";
    assert pre + "m" + "\n" == pre + "m\n" && pre + "y" + "\n" == pre + "y\n";
    assert "# " + "CONFIG_" + s.name + " " + "is not set" + "\n" == "# CONFIG_" + s.name + " is not set\n";
    assert pre + (['"'] + v.text + ['"']) + "\n" == pre + "\"" + v.text + "\"\n";
  }

  // ----- conf_set_sym_val on the line buffer -----

  /** strdup(b + p) */
  method StrDup(b: array<char>, p: nat, ghost s: string) returns (r: string)
    requires Holds(b[..], p, s)
    ensures r == s
  {
    var n := StrLen(b, p, s);
    r := b[p..p + n];
    assert forall k :: 0 <= k < |s| ==> r[k] == b[..][p + k];
  }

  /** The loops of sym_string_valid: only digits up to the end. */
  method OnlyDigits(hex: bool, b: array<char>, i: nat, ghost s: string) returns (ok: bool)
    requires Holds(b[..], i, s)
    ensures ok <==> AllDigits(hex, s)
  {
    var k := 0;
    ok := true;
    SplitHeld(b[..], i, s, 0);
    while ok && b[i + k] != NUL
      invariant k <= |s| && b[i + k] == if k < |s| then s[k] else NUL
      invariant if ok then forall j :: 0 <= j < k ==> IsDigit(hex, s[j]) else k < |s| && !IsDigit(hex, s[k])
      decreases ok, |s| - k
    {
      ok := IsDigit(hex, b[i + k]);
      if ok {
        k := k + 1;
        SplitHeld(b[..], i, s, k);
      }
    }
  }

  /** One character, and then only digits. */
  method DigitsFrom(hex: bool, b: array<char>, i: nat, ghost s: string) returns (ok: bool)
    requires Holds(b[..], i, s)
    ensures ok <==> s != "" && AllDigits(hex, s)
  {
    hide IsDigit;
    SplitHeld(b[..], i, s, 0);
    assert !IsDigit(hex, NUL) by { NulNoDigit(hex); }
    ok := IsDigit(hex, b[i]);
    if ok {
      SplitHeld(b[..], i, s, 1);
      ok := OnlyDigits(hex, b, i + 1, s[1..]);
      assert forall k :: 0 < k < |s| ==> s[k] == s[1..][k - 1];
      assert forall k :: 0 <= k < |s| - 1 ==> s[1..][k] == s[k + 1];
    }
  }

  lemma NulNoDigit(hex: bool)
    ensures !IsDigit(hex, NUL)
  {
  }

  /** sym_string_valid for the text s that is in the buffer at p, of an int or hex symbol */
  method SymStringValid(kind: Kind, b: array<char>, p: nat, ghost s: string) returns (ok: bool)
    requires Holds(b[..], p, s) && (kind == Int || kind == Hex)
    ensures ok == StringValid(kind, s)
  {
    hide Carries, Holds;
    var k := 0;
    assert s[0..] == s;
    SplitHeld(b[..], p, s, 0);
    if |s| > 0 { SplitHeld(b[..], p, s, 1); }
    if kind == Int {
      if b[p] == '-' {
        k := 1;
      }
      SplitHeld(b[..], p, s, k);
      ok := DigitsFrom(false, b, p + k, s[k..]);
      if ok {
        SplitHeld(b[..], p + k, s[k..], 1);
        assert |s[k..]| > 1 ==> IsDigit(false, s[k..][1]);
        ok := b[p + k] != '0' || b[p + k + 1] == NUL;
      }
    } else {
      if b[p] == '0' && (b[p + 1] == 'x' || b[p + 1] == 'X') {
        k := 2;
      }
      SplitHeld(b[..], p, s, k);
      ok := DigitsFrom(true, b, p + k, s[k..]);
    }
  }

  /** conf_set_sym_val for the text s that is in the buffer at p */
  method SetSymVal(kind: Kind, b: array<char>, p: nat, ghost s: string) returns (r: Option<Val>)
    requires Holds(b[..], p, s)
    modifies b
    ensures r == SymVal(kind, s)
  {
    hide Holds, Carries, Unescape;
    SplitHeld(b[..], p, s, 0);
    r := None;
    if kind == Boolean || kind == Tristate {
      if kind == Tristate && b[p] == 'm' {
        r := Some(Val(1, ""));
      } else if b[p] == 'y' {
        r := Some(Val(2, ""));
      } else if b[p] == 'n' {
        r := Some(Val(0, ""));
      }
    } else if kind == String {
      if b[p] == '"' {
        SplitHeld(b[..], p, s, 1);
        var found := Unquote(b, p + 1, s[1..]);
        if found {
          var text := StrDup(b, p + 1, Unescape(s[1..]).value);
          r := Some(Val(0, text));
        }
      }
    } else if kind != Unknown {
      var ok := SymStringValid(kind, b, p, s);
      if ok {
        var text := StrDup(b, p, s);
        r := Some(Val(0, text));
      }
    }
  }

  // ----- the whole file -----

  /** The length of the line that fgets reads into a buffer of 1024 characters. */
  function LineLength(file: string): (n: nat)
    requires file != ""
    ensures 0 < n <= |file|
  {
    var k := Find(file, '\n', 0);
    var n := if k < |file| then k + 1 else k;
    if n > 1023 then 1023 else n
  }

  /** conf_read_simple for the values of the user */
  function ReadFile(table: Table, user: User, file: string): User
    decreases |file|
  {
    if file == "" then user
    else
      var n := LineLength(file);
      ReadFile(table, ReadLine(table, user, file[..n]), file[n..])
  }

  method ConfReadSimple(table: Table, file: string) returns (user: User)
    ensures user == ReadFile(table, map[], file)
  {
    hide ReadLine, LineLength;
    user := map[];
    var i := 0;
    while i < |file|
      invariant i <= |file| && ReadFile(table, map[], file) == ReadFile(table, user, file[i..])
    {
      var n := LineLength(file[i..]);
      assert file[i..][..n] == file[i..i + n] && file[i..][n..] == file[i + n..];
      user := ReadLine(table, user, file[i..i + n]);
      i := i + n;
    }
  }

  /** What a configuration file is made of: settings, and other lines. */
  datatype Item = Setting(s: Symbol, v: Val) | Remark(line: string)

  predicate OneLine(line: string) {
    0 < |line| <= 1023 && line[|line| - 1] == '\n' && '\n' !in line[..|line| - 1]
  }

  /** The symbol can be found by its name, has a value of its type, and the line fits
      the buffer; other lines are not taken for settings. */
  ghost predicate Readable(table: Table, item: Item) {
    match item
    case Setting(s, v) =>
      && s.Var? && NameOK(s.name) && s.name in table && table[s.name] == s
      && Valued(s, v) && |Line(s, v)| <= 1023
    case Remark(line) => OneLine(line) && forall user :: ReadLine(table, user, line) == user
  }

  ghost predicate AllReadable(table: Table, items: seq<Item>) {
    forall i :: 0 <= i < |items| ==> Readable(table, items[i])
  }

  function ItemText(item: Item): string {
    match item
    case Setting(s, v) => if s.Var? then Line(s, v) else ""
    case Remark(line) => line
  }

  function FileText(items: seq<Item>): string {
    if items == [] then "" else ItemText(items[0]) + FileText(items[1..])
  }

  /** The values that the settings give, later ones replacing earlier ones. */
  function Settings(user: User, items: seq<Item>): User
    decreases items
  {
    if items == [] then user
    else Settings(if items[0].Setting? then user[items[0].s := items[0].v] else user, items[1..])
  }

  lemma ItemOneLine(table: Table, item: Item)
    requires Readable(table, item)
    ensures OneLine(ItemText(item))
  {
    if item.Setting? {
      ValueRoundTrip(item.s, item.v);
      var line := Line(item.s, item.v);
      var most := if IsTri(item.s)
        && ValueText(item.s, item.v)[0] == 'n' then "# " + CONFIG + item.s.name + " " + NOT_SET
                  else CONFIG + item.s.name + "=" + ValueText(item.s, item.v);
      assert line == most + "\n" && '\n' !in CONFIG && '\n' !in NOT_SET;
      assert line[..|line| - 1] == most;
    }
  }

  lemma FirstLine(line: string, rest: string)
    requires OneLine(line)
    ensures LineLength(line + rest) == |line|
  {
    FindAfter(line[..|line| - 1], '\n', rest);
    assert line[..|line| - 1] + ['\n'] + rest == line + rest;
  }

  /** Reading a file gives back every value that was written to it, for every type,
      name and string. */
  lemma {:induction false} FileRoundTrip(table: Table, user: User, items: seq<Item>)
    requires AllReadable(table, items)
    ensures ReadFile(table, user, FileText(items)) == Settings(user, items)
    decreases |items|
  {
    if items != [] {
      hide ReadLine, LineLength, Line, OneLine;
      var line, rest := ItemText(items[0]), FileText(items[1..]);
      assert Readable(table, items[0]);
      ItemOneLine(table, items[0]);
      FirstLine(line, rest);
      AfterPrefix(line, rest);
      OneLineSome(line);
      if items[0].Setting? { LineRoundTrip(table, user, items[0].s, items[0].v); }
      assert AllReadable(table, items[1..]) by {
        assert forall i :: 0 <= i < |items[1..]| ==> items[1..][i] == items[i + 1];
      }
      FileRoundTrip(table, if items[0].Setting? then user[items[0].s := items[0].v] else user, items[1..]);
    }
  }

  lemma OneLineSome(line: string)
    requires OneLine(line)
    ensures line != ""
  {
  }

  /** Headings and titles are not taken for settings, unless a title begins like one. */
  lemma TitleIgnored(table: Table, user: User, title: string)
    requires !(CONFIG <= title + "\n")
    ensures ReadLine(table, user, "# " + title + "\n") == user
    ensures ReadLine(table, user, "#\n") == user && ReadLine(table, user, "\n") == user
  {
    var line := "# " + title + "\n";
    assert line[2..] == title + "\n";
    if |line| >= 9 {
      assert (title + "\n")[..7] == line[2..9];
    }
  }
}
