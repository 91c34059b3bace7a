/** The notification template: ${path} is replaced by a value looked up in the environment. */
module Templates {
  /** A value of the environment. text is what it prints as; only objects have fields. */
  datatype Value = Nil | Scalar(text: string) | Object(fields: map<string, Value>, text: string)

  // ---- Looking up a path --------------------------------------------------------------

  /** The first position of c in s, or -1. */
  function IndexOf(s: string, c: char): (i: int)
    ensures i == -1 <==> c !in s
    ensures i != -1 ==> 0 <= i < |s| && s[i] == c && c !in s[..i]
  {
    if s == "" then -1
    else if s[0] == c then 0
    else
      var i := IndexOf(s[1..], c);
      assert i != -1 ==> s[..i + 1] == [s[0]] + s[1..][..i];
      if i == -1 then -1 else i + 1
  }

  function Split(s: string, sep: char): (parts: seq<string>)
    ensures parts != []
    decreases |s|
  {
    var i := IndexOf(s, sep);
    if i == -1 then [s] else [s[..i]] + Split(s[i + 1..], sep)
  }

  function Join(parts: seq<string>, sep: char): string
    requires parts != []
  {
    if |parts| == 1 then parts[0] else parts[0] + [sep] + Join(parts[1..], sep)
  }

  ghost predicate Without(parts: seq<string>, sep: char) {
    forall p :: p in parts ==> sep !in p
  }

  lemma {:induction false} SplitJoins(s: string, sep: char)
    ensures Join(Split(s, sep), sep) == s && Without(Split(s, sep), sep)
    decreases |s|
  {
    var i := IndexOf(s, sep);
    if i != -1 {
      SplitJoins(s[i + 1..], sep);
      assert s == s[..i] + [sep] + s[i + 1..];
      assert Split(s, sep)[1..] == Split(s[i + 1..], sep);
    }
  }

  lemma {:induction false} JoinSplits(parts: seq<string>, sep: char)
    requires parts != [] && Without(parts, sep)
    ensures Split(Join(parts, sep), sep) == parts
    decreases |parts|
  {
    if |parts| == 1 {
      assert Join(parts, sep) == parts[0] && parts == [parts[0]];
    } else {
      hide Split;
      JoinSplits(parts[1..], sep);
      SplitFirst(parts[0], sep, Join(parts[1..], sep));
      assert parts == [parts[0]] + parts[1..];
    }
  }

  lemma SplitFirst(head: string, sep: char, rest: string)
    requires sep !in head
    ensures Split(head + [sep] + rest, sep) == [head] + Split(rest, sep)
  {
    var s := head + [sep] + rest;
    FirstSeparator(head, sep, rest);
    assert s[..|head|] == head && s[|head| + 1..] == rest;
  }

  lemma {:induction false} FirstSeparator(head: string, sep: char, rest: string)
    requires sep !in head
    ensures IndexOf(head + [sep] + rest, sep) == |head|
  {
    if head == "" {
      assert head + [sep] + rest == [sep] + rest;
    } else {
      FirstSeparator(head[1..], sep, rest);
      assert head + [sep] + rest == [head[0]] + (head[1..] + [sep] + rest);
    }
  }

  /** The value a path of field names leads to; Nil once a step leaves the objects or finds no field. */
  function Resolve(v: Value, names: seq<string>): Value
    decreases |names|
  {
    if names == [] then v
    else if v.Object? then Resolve(if names[0] in v.fields then v.fields[names[0]] else Nil, names[1..])
    else Nil
  }

  function Show(v: Value): string {
    if v.Nil? then "" else v.text
  }

  function Lookup(env: map<string, Value>, path: string): string {
    Show(Resolve(Object(env, ""), Split(path, '.')))
  }

  /** Any sequence of dot-free field names is followed by looking up the path that joins them with dots. */
  lemma LookupFollows(env: map<string, Value>, names: seq<string>)
    requires names != [] && Without(names, '.')
    ensures Lookup(env, Join(names, '.')) == Show(Resolve(Object(env, ""), names))
  {
    JoinSplits(names, '.');
  }

  lemma ResolveStep(v: Value, name: string, names: seq<string>)
    requires v.Object?
    ensures Resolve(v, [name] + names) == Resolve(if name in v.fields then v.fields[name] else Nil, names)
  {
    assert ([name] + names)[1..] == names;
  }

  lemma ResolveFields(v: Value, u: Value, names: seq<string>)
    requires v.Object? && u.Object? && v.fields == u.fields && names != []
    ensures Resolve(v, names) == Resolve(u, names)
  {
  }

  /** A single name leads to the value filed under it. */
  lemma LookupOne(env: map<string, Value>, name: string)
    requires '.' !in name
    ensures Lookup(env, name) == if name in env && !env[name].Nil? then env[name].text else ""
  {
    assert IndexOf(name, '.') == -1;
    assert Split(name, '.') == [name];
    ResolveStep(Object(env, ""), name, []);
    assert [name] + [] == [name];
  }

  /** A name and a further path lead where the path leads from the fields of what the name leads to. */
  lemma LookupNested(env: map<string, Value>, name: string, path: string)
    requires '.' !in name
    ensures Lookup(env, name + "." + path) ==
            if name in env && env[name].Object? then Lookup(env[name].fields, path) else ""
  {
    SplitFirst(name, '.', path);
    var names := Split(path, '.');
    assert name + "." + path == name + ['.'] + path;
    ResolveStep(Object(env, ""), name, names);
    if name in env && env[name].Object? {
      ResolveFields(env[name], Object(env[name].fields, ""), names);
    }
  }

  method LookupPath(env: map<string, Value>, path: string) returns (r: string)
    ensures r == Lookup(env, path)
  {
    var parts := Split(path, '.');
    var cur := Object(env, "");
    for k := 0 to |parts|
      invariant Resolve(cur, parts[k..]) == Resolve(Object(env, ""), parts)
      invariant k == 0 ==> cur == Object(env, "")
    {
      assert parts[k..][0] == parts[k] && parts[k..][1..] == parts[k + 1..];
      if !cur.Object? {
        return "";
      }
      cur := if parts[k] in cur.fields then cur.fields[parts[k]] else Nil;
    }
    assert parts[|parts|..] == [];
    if cur.Nil? {
      return "";
    }
    r := cur.text;
  }

  // ---- Interpolation, as the loop scans -----------------------------------------------

  predicate Opens(s: string) {
    |s| >= 2 && s[0] == '$' && s[1] == '{'
  }

  predicate HasOpener(s: string) {
    exists i :: 0 <= i < |s| && Opens(s[i..])
  }

  /** What the scan produces from a suffix of the template. */
  function Scan(s: string, env: map<string, Value>): string
    decreases |s|
  {
    if s == "" then ""
    else if Opens(s) && IndexOf(s[2..], '}') != -1 then
      var end := IndexOf(s[2..], '}');
      Lookup(env, s[2..2 + end]) + Scan(s[end + 3..], env)
    else [s[0]] + Scan(s[1..], env)
  }

  lemma ScanVariable(s: string, i: nat, end: nat, env: map<string, Value>)
    requires i + 1 < |s| && s[i] == '$' && s[i + 1] == '{' && IndexOf(s[i + 2..], '}') == end
    ensures Scan(s[i..], env) == Lookup(env, s[i + 2..i + 2 + end]) + Scan(s[i + end + 3..], env)
  {
    var t := s[i..];
    assert t[2..] == s[i + 2..] && t[2..2 + end] == s[i + 2..i + 2 + end] && t[end + 3..] == s[i + end + 3..];
  }

  lemma ScanVerbatim(s: string, i: nat, env: map<string, Value>)
    requires i < |s|
    requires i + 1 < |s| && s[i] == '$' && s[i + 1] == '{' ==> IndexOf(s[i + 2..], '}') == -1
    ensures Scan(s[i..], env) == [s[i]] + Scan(s[i + 1..], env)
  {
    var t := s[i..];
    assert t[1..] == s[i + 1..];
    assert |t| >= 2 ==> t[2..] == s[i + 2..];
  }

  method Interpolate(s: string, env: map<string, Value>) returns (r: string)
    ensures r == Scan(s, env)
  {
    hide Scan, Lookup;
    if !HasOpener(s) {
      VerbatimWithoutOpener(s, env);
      return s;
    }
    r := "";
    var i := 0;
    assert s[0..] == s;
    while i < |s|
      invariant i <= |s|
      invariant r + Scan(s[i..], env) == Scan(s, env)
    {
      if i + 1 < |s| && s[i] == '$' && s[i + 1] == '{' {
        var end := IndexOf(s[i + 2..], '}');
        if end == -1 {
          ScanVerbatim(s, i, env);
          r := r + [s[i]];
          i := i + 1;
          continue;
        }
        ScanVariable(s, i, end, env);
        var value := LookupPath(env, s[i + 2..i + 2 + end]);
        r := r + value;
        i := i + 2 + end + 1;
        continue;
      }
      ScanVerbatim(s, i, env);
      r := r + [s[i]];
      i := i + 1;
    }
    ScanNothing(s, env);
  }

  lemma ScanNothing(s: string, env: map<string, Value>)
    ensures Scan(s[|s|..], env) == ""
  {
  }

  /** The shortcut agrees with the loop. */
  lemma {:induction false} VerbatimWithoutOpener(s: string, env: map<string, Value>)
    requires !HasOpener(s)
    ensures Scan(s, env) == s
    decreases |s|
  {
    if s != "" {
      assert s[0..] == s;
      forall i | 0 <= i < |s[1..]|
        ensures !Opens(s[1..][i..])
      {
        assert s[1..][i..] == s[i + 1..];
      }
      VerbatimWithoutOpener(s[1..], env);
    }
  }

  // ---- Interpolation, as a language ---------------------------------------------------

  datatype Token = Lit(text: string) | Var(path: string)

  /** A template's tokens, and a tail that opens a variable it never closes. */
  datatype Parsed = Parsed(tokens: seq<Token>, tail: string)

  function PrintToken(t: Token): string {
    match t
    case Lit(text) => text
    case Var(path) => "${" + path + "}"
  }

  function Print(p: Parsed): string
    decreases |p.tokens|
  {
    if p.tokens == [] then p.tail else PrintToken(p.tokens[0]) + Print(Parsed(p.tokens[1..], p.tail))
  }

  function RenderToken(t: Token, env: map<string, Value>): string {
    match t
    case Lit(text) => text
    case Var(path) => Lookup(env, path)
  }

  /** The meaning of a template: literals as they are, each variable's value, and the tail as it is. */
  function Render(p: Parsed, env: map<string, Value>): string
    decreases |p.tokens|
  {
    if p.tokens == [] then p.tail else RenderToken(p.tokens[0], env) + Render(Parsed(p.tokens[1..], p.tail), env)
  }

  predicate WellFormed(t: Token) {
    match t
    case Lit(text) => text != "" && !HasOpener(text)
    case Var(path) => '}' !in path
  }

  predicate StartsLit(p: Parsed) {
    p.tokens != [] && p.tokens[0].Lit?
  }

  /** Literals are non-empty, hold no opener and are never adjacent; paths hold no closing brace; the tail
      is empty or opens and never closes. */
  predicate Normal(p: Parsed)
    decreases |p.tokens|
  {
    if p.tokens == [] then p.tail == "" || (Opens(p.tail) && '}' !in p.tail)
    else
      var rest := Parsed(p.tokens[1..], p.tail);
      WellFormed(p.tokens[0]) && Normal(rest) && !(p.tokens[0].Lit? && StartsLit(rest))
  }

  function Prepend(text: string, p: Parsed): Parsed {
    if StartsLit(p) then Parsed([Lit(text + p.tokens[0].text)] + p.tokens[1..], p.tail)
    else Parsed([Lit(text)] + p.tokens, p.tail)
  }

  function Parse(s: string): Parsed
    decreases |s|
  {
    if s == "" then Parsed([], "")
    else if Opens(s) then
      var end := IndexOf(s[2..], '}');
      if end == -1 then Parsed([], s)
      else
        var rest := Parse(s[end + 3..]);
        Parsed([Var(s[2..2 + end])] + rest.tokens, rest.tail)
    else Prepend([s[0]], Parse(s[1..]))
  }

  lemma VarFirst(path: string, p: Parsed, env: map<string, Value>)
    ensures var q := Parsed([Var(path)] + p.tokens, p.tail);
            && Print(q) == "${" + path + "}" + Print(p) && Render(q, env) == Lookup(env, path) + Render(p, env)
            && (Normal(q) <==> '}' !in path && Normal(p))
  {
    var q := Parsed([Var(path)] + p.tokens, p.tail);
    assert Parsed(q.tokens[1..], q.tail) == p;
  }

  lemma LitFirst(text: string, p: Parsed, env: map<string, Value>)
    ensures var q := Parsed([Lit(text)] + p.tokens, p.tail);
            && Print(q) == text + Print(p) && Render(q, env) == text + Render(p, env)
            && (Normal(q) <==> WellFormed(Lit(text)) && Normal(p) && !StartsLit(p))
  {
    var q := Parsed([Lit(text)] + p.tokens, p.tail);
    assert Parsed(q.tokens[1..], q.tail) == p;
  }

  lemma PrependMeans(text: string, p: Parsed, env: map<string, Value>)
    ensures Print(Prepend(text, p)) == text + Print(p) && Render(Prepend(text, p), env) == text + Render(p, env)
  {
    hide Print, Render, Normal;
    if StartsLit(p) {
      var rest := Parsed(p.tokens[1..], p.tail);
      assert p == Parsed([Lit(p.tokens[0].text)] + rest.tokens, rest.tail);
      LitFirst(p.tokens[0].text, rest, env);
      LitFirst(text + p.tokens[0].text, rest, env);
    } else {
      LitFirst(text, p, env);
    }
  }

  lemma ParseClosed(s: string)
    requires Opens(s) && IndexOf(s[2..], '}') != -1
    ensures var end := IndexOf(s[2..], '}');
            var path, rest := s[2..2 + end], s[end + 3..];
            && s == "${" + path + "}" + rest && '}' !in path
            && Parse(s) == Parsed([Var(path)] + Parse(rest).tokens, Parse(rest).tail)
  {
    var end := IndexOf(s[2..], '}');
    assert s[2..2 + end] == s[2..][..end];
  }

  /** Parsing loses nothing. */
  lemma {:induction false} PrintParse(s: string)
    ensures Print(Parse(s)) == s
    decreases |s|
  {
    if s != "" && Opens(s) && IndexOf(s[2..], '}') != -1 {
      hide Parse, Print;
      var end := IndexOf(s[2..], '}');
      ParseClosed(s);
      PrintParse(s[end + 3..]);
      VarFirst(s[2..2 + end], Parse(s[end + 3..]), map[]);
    } else if s != "" && !Opens(s) {
      hide Print;
      PrintParse(s[1..]);
      PrependMeans([s[0]], Parse(s[1..]), map[]);
    }
  }

  lemma NoNewOpener(c: char, text: string)
    requires !HasOpener(text) && !Opens([c] + text)
    ensures !HasOpener([c] + text)
  {
    forall i | 0 <= i < |[c] + text|
      ensures !Opens(([c] + text)[i..])
    {
      if i > 0 {
        assert ([c] + text)[i..] == text[i - 1..];
      } else {
        assert ([c] + text)[0..] == [c] + text;
      }
    }
  }

  lemma PrependNormal(c: char, p: Parsed)
    requires Normal(p) && !Opens([c] + Print(p))
    ensures Normal(Prepend([c], p))
  {
    var rest := if StartsLit(p) then Parsed(p.tokens[1..], p.tail) else p;
    var text := if StartsLit(p) then p.tokens[0].text else "";
    if StartsLit(p) {
      assert p == Parsed([Lit(text)] + rest.tokens, rest.tail);
      LitFirst(text, rest, map[]);
      assert Print(p)[0] == text[0];
    }
    NoNewOpener(c, text);
    LitFirst([c] + text, rest, map[]);
  }

  lemma {:induction false} ParseNormal(s: string)
    ensures Normal(Parse(s))
    decreases |s|
  {
    hide Normal, Print, WellFormed, IndexOf;
    if s == "" || (Opens(s) && IndexOf(s[2..], '}') == -1) {
      NormalTail(s);
    } else if Opens(s) {
      var end := IndexOf(s[2..], '}');
      ParseClosed(s);
      ParseNormal(s[end + 3..]);
      VarFirst(s[2..2 + end], Parse(s[end + 3..]), map[]);
    } else {
      ParseNormal(s[1..]);
      PrintParse(s[1..]);
      assert s == [s[0]] + s[1..];
      PrependNormal(s[0], Parse(s[1..]));
    }
  }

  lemma NormalTail(s: string)
    requires s == "" || (Opens(s) && '}' !in s[2..])
    ensures Normal(Parsed([], s))
  {
    if s != "" {
      assert '}' !in s[..2] && s == s[..2] + s[2..];
    }
  }

  lemma {:induction false} VerbatimWithoutCloser(s: string, env: map<string, Value>)
    requires '}' !in s
    ensures Scan(s, env) == s
    decreases |s|
  {
    if s != "" {
      assert |s| >= 2 ==> '}' !in s[2..];
      VerbatimWithoutCloser(s[1..], env);
    }
  }

  /** The interpolator is the parser followed by the meaning: every template, on every environment, gives
      its literals and looked-up values in order; values are not scanned again, and a tail that never
      closes its variable comes out as it is. */
  lemma {:induction false} ScanRenders(s: string, env: map<string, Value>)
    ensures Scan(s, env) == Render(Parse(s), env)
    decreases |s|
  {
    if s == "" {
    } else if Opens(s) {
      var end := IndexOf(s[2..], '}');
      if end == -1 {
        assert s == s[..2] + s[2..];
        VerbatimWithoutCloser(s, env);
      } else {
        ScanRenders(s[end + 3..], env);
        VarFirst(s[2..2 + end], Parse(s[end + 3..]), env);
      }
    } else {
      ScanRenders(s[1..], env);
      PrependMeans([s[0]], Parse(s[1..]), env);
    }
  }

  lemma {:induction false} ParseLiteral(text: string, rest: string)
    requires !HasOpener(text) && text != "" && (rest == "" || rest[0] == '$')
    ensures Parse(text + rest) == Prepend(text, Parse(rest))
    decreases |text|
  {
    var s := text + rest;
    assert s[0] == text[0] && s[1..] == text[1..] + rest;
    assert text[0..] == text;
    assert !Opens(s);
    if |text| == 1 {
      assert text[1..] + rest == rest && text == [text[0]];
      assert s == [text[0]] + rest && s[1..] == rest;
    } else {
      forall i | 0 <= i < |text[1..]|
        ensures !Opens(text[1..][i..])
      {
        assert text[1..][i..] == text[i + 1..];
      }
      ParseLiteral(text[1..], rest);
      PrependTwice(text[0], text[1..], Parse(rest));
      assert [text[0]] + text[1..] == text;
    }
  }

  lemma PrependTwice(c: char, text: string, p: Parsed)
    ensures Prepend([c], Prepend(text, p)) == Prepend([c] + text, p)
  {
    if StartsLit(p) {
      assert [c] + (text + p.tokens[0].text) == [c] + text + p.tokens[0].text;
    }
  }

  lemma ParseVariable(path: string, rest: string)
    requires '}' !in path
    ensures Parse("${" + path + "}" + rest) == Parsed([Var(path)] + Parse(rest).tokens, Parse(rest).tail)
  {
    var s := "${" + path + "}" + rest;
    assert s[2..] == path + ['}'] + rest;
    FirstSeparator(path, '}', rest);
    assert s[2..2 + |path|] == path && s[|path| + 3..] == rest;
  }

  lemma PrintStart(p: Parsed)
    requires Normal(p) && !StartsLit(p)
    ensures Print(p) == "" || Print(p)[0] == '$'
  {
  }

  /** Printing loses nothing either: the parser gives back every normal template, so normal templates and
      strings correspond one to one. */
  lemma {:induction false} ParsePrint(p: Parsed)
    requires Normal(p)
    ensures Parse(Print(p)) == p
    decreases |p.tokens|
  {
    hide Parse, Prepend, WellFormed;
    if p.tokens == [] {
      ParseTail(p.tail);
    } else {
      var rest := Parsed(p.tokens[1..], p.tail);
      ParsePrint(rest);
      ParseToken(p.tokens[0], rest);
      assert p.tokens == [p.tokens[0]] + rest.tokens;
    }
  }

  lemma ParseTail(tail: string)
    requires tail == "" || (Opens(tail) && '}' !in tail)
    ensures Parse(tail) == Parsed([], tail)
  {
    if tail != "" {
      assert tail == tail[..2] + tail[2..];
    }
  }

  lemma ParseToken(t: Token, rest: Parsed)
    requires WellFormed(t) && Normal(rest) && !(t.Lit? && StartsLit(rest)) && Parse(Print(rest)) == rest
    ensures Parse(PrintToken(t) + Print(rest)) == Parsed([t] + rest.tokens, rest.tail)
  {
    hide Parse, Print, Normal;
    match t
    case Lit(text) =>
      PrintStart(rest);
      ParseLiteral(text, Print(rest));
    case Var(path) =>
      ParseVariable(path, Print(rest));
  }

  /** Printing a normal template and interpolating it gives its meaning. */
  lemma InterpolatePrinted(p: Parsed, env: map<string, Value>)
    requires Normal(p)
    ensures Scan(Print(p), env) == Render(p, env)
  {
    ParsePrint(p);
    ScanRenders(Print(p), env);
  }
}
