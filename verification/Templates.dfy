/** Prompt templates: `{name}` placeholders, their replacement one variable at a time, and the templates
    that are meant. */
module Templates {
  import opened Wrappers

  // ----- Placeholders -----

  predicate NameStart(c: char) {
    'a' <= c <= 'z' || 'A' <= c <= 'Z'
  }

  predicate NameChar(c: char) {
    NameStart(c) || '0' <= c <= '9' || c == '_' || c == '-'
  }

  /** [a-zA-Z] and [a-zA-Z0-9_-]. */
  lemma CharacterClasses(c: char)
    ensures NameStart(c) <==> c in "abcdefghijklmnopqrstuvwxyzABCDEFGHIJKLMNOPQRSTUVWXYZ"
    ensures NameChar(c) <==> NameStart(c) || c in "0123456789_-"
  {
    var lower, upper, digits := "abcdefghijklmnopqrstuvwxyz", "ABCDEFGHIJKLMNOPQRSTUVWXYZ", "0123456789_-";
    Consecutive(lower, 'a', c);
    Consecutive(upper, 'A', c);
    assert c in digits <==> '0' <= c <= '9' || c == '_' || c == '-';
    assert lower + upper == "abcdefghijklmnopqrstuvwxyzABCDEFGHIJKLMNOPQRSTUVWXYZ";
  }

  lemma Consecutive(s: string, first: char, c: char)
    requires forall i | 0 <= i < |s| :: s[i] as int == first as int + i
    ensures c in s <==> first as int <= c as int < first as int + |s|
  {
    if first as int <= c as int < first as int + |s| {
      assert s[c as int - first as int] == c;
    }
  }

  predicate IsName(s: string) {
    s != [] && NameStart(s[0]) && forall i | 0 <= i < |s| :: NameChar(s[i])
  }

  /** The longest run of name characters at the start. */
  function NameRun(t: string): (n: nat)
    ensures n <= |t|
    ensures forall i | 0 <= i < n :: NameChar(t[i])
    ensures n < |t| ==> !NameChar(t[n])
  {
    if t == [] || !NameChar(t[0]) then 0 else 1 + NameRun(t[1..])
  }

  /** The name of a placeholder at the start of a text. */
  function PlaceholderAt(t: string): (r: Option<string>)
    ensures r.Some? ==> IsName(r.value) && Hole(r.value) <= t
  {
    if t == [] || t[0] != '{' then None
    else
      var n := NameRun(t[1..]);
      var name := t[1..][..n];
      if IsName(name) && n + 1 < |t| && t[n + 1] == '}'
      then assert t[..n + 2] == Hole(name); Some(name)
      else None
  }

  function Hole(name: string): string {
    ['{'] + name + ['}']
  }

  /** matchAll over a text: the names found from left to right. */
  function Names(t: string): seq<string>
    decreases |t|
  {
    if t == [] then []
    else
      match PlaceholderAt(t)
      case Some(name) => [name] + Names(t[|name| + 2..])
      case None => Names(t[1..])
  }

  function OnceEach(names: seq<string>): seq<string> {
    if names == [] then []
    else
      var init, last := OnceEach(names[..|names| - 1]), names[|names| - 1];
      if last in init then init else init + [last]
  }

  /** extractVariables. */
  method ExtractVariables(body: string) returns (variables: seq<string>)
    ensures variables == OnceEach(Names(body))
  {
    variables := [];
    var seen: set<string> := {};
    var matches := Names(body);
    for i := 0 to |matches|
      invariant variables == OnceEach(matches[..i])
      invariant forall v :: v in seen <==> v in variables
    {
      assert matches[..i + 1][..i] == matches[..i];
      if matches[i] !in seen {
        seen := seen + {matches[i]};
        variables := variables + [matches[i]];
      }
    }
    assert matches[..|matches|] == matches;
  }

  lemma {:induction false} OnceEachIs(names: seq<string>)
    ensures forall n :: n in OnceEach(names) <==> n in names
    ensures forall i, j | 0 <= i < j < |OnceEach(names)| :: OnceEach(names)[i] != OnceEach(names)[j]
  {
    if names != [] {
      OnceEachIs(names[..|names| - 1]);
      assert names == names[..|names| - 1] + [names[|names| - 1]];
    }
  }

  // ----- One replacement -----

  /** GetSubstitution without capture groups: `$$`, `$&`, `` $` `` and `$'` are special. */
  function Expand(value: string, matched: string, before: string, after: string): string {
    if value == [] then []
    else if value[0] == '$' && |value| >= 2 && value[1] == '$' then ['$'] + Expand(value[2..], matched, before, after)
    else if value[0] == '$' && |value| >= 2 && value[1] == '&' then matched + Expand(value[2..], matched, before, after)
    else if value[0] == '$' && |value| >= 2 && value[1] == '`' then before + Expand(value[2..], matched, before, after)
    else if value[0] == '$' && |value| >= 2 && value[1] == '\'' then after + Expand(value[2..], matched, before, after)
    else [value[0]] + Expand(value[1..], matched, before, after)
  }

  /** Expansion pattern by pattern: up to a dollar sign nothing happens; then `$$` is a dollar sign, `$&` the
      placeholder, `` $` `` and `$'` what lies before and after it, and any other dollar sign itself. */
  lemma ExpandIs(rest: string, matched: string, before: string, after: string)
    ensures Expand("$$" + rest, matched, before, after) == "$" + Expand(rest, matched, before, after)
    ensures Expand("$&" + rest, matched, before, after) == matched + Expand(rest, matched, before, after)
    ensures Expand("$`" + rest, matched, before, after) == before + Expand(rest, matched, before, after)
    ensures Expand("$'" + rest, matched, before, after) == after + Expand(rest, matched, before, after)
    ensures rest == "" || (rest[0] != '$' && rest[0] != '&' && rest[0] != '`' && rest[0] != '\'') ==>
      Expand("$" + rest, matched, before, after) == "$" + Expand(rest, matched, before, after)
  {
    assert ("$$" + rest)[2..] == rest && ("$&" + rest)[2..] == rest;
    assert ("$`" + rest)[2..] == rest && ("$'" + rest)[2..] == rest && ("$" + rest)[1..] == rest;
  }

  /** Characters other than dollar signs stay. */
  lemma ExpandText(c: char, rest: string, matched: string, before: string, after: string)
    requires c != '$'
    ensures Expand([c] + rest, matched, before, after) == [c] + Expand(rest, matched, before, after)
  {
    assert ([c] + rest)[1..] == rest;
  }

  /** rendered.replace(/\{name\}/g, value), from a point with `before` to its left. */
  function ReplaceFrom(before: string, t: string, name: string, value: string): string
    decreases |t|
  {
    if t == [] then []
    else if Hole(name) <= t then
      var rest := t[|Hole(name)|..];
      Expand(value, Hole(name), before, rest) + ReplaceFrom(before + Hole(name), rest, name, value)
    else [t[0]] + ReplaceFrom(before + [t[0]], t[1..], name, value)
  }

  function Replace(t: string, name: string, value: string): string {
    ReplaceFrom([], t, name, value)
  }

  /** values[name] || '' */
  function ValueOf(values: map<string, string>, name: string): string {
    if name in values then values[name] else ""
  }

  /** Replacing one variable after the other. */
  function ReplaceEach(body: string, variables: seq<string>, values: map<string, string>): string {
    if variables == [] then body
    else
      var n := |variables| - 1;
      Replace(ReplaceEach(body, variables[..n], values), variables[n], ValueOf(values, variables[n]))
  }

  // ----- Simultaneous substitution -----

  datatype Piece = Text(text: string) | Variable(name: string)

  predicate NoBraces(s: string) {
    '{' !in s && '}' !in s
  }

  predicate ProperPiece(p: Piece) {
    match p
    case Text(text) => NoBraces(text)
    case Variable(name) => IsName(name)
  }

  predicate Proper(pieces: seq<Piece>) {
    forall i | 0 <= i < |pieces| :: ProperPiece(pieces[i])
  }

  function PrintPiece(p: Piece): string {
    match p
    case Text(text) => text
    case Variable(name) => Hole(name)
  }

  function Print(pieces: seq<Piece>): string {
    Fill(pieces, {}, map[])
  }

  /** The variables in `done` filled in, the others left as placeholders. */
  function Fill(pieces: seq<Piece>, done: set<string>, values: map<string, string>): string {
    if pieces == [] then []
    else
      (match pieces[0]
       case Text(text) => text
       case Variable(name) => if name in done then ValueOf(values, name) else Hole(name))
      + Fill(pieces[1..], done, values)
  }

  function VariablesOf(pieces: seq<Piece>): seq<string> {
    if pieces == [] then []
    else (if pieces[0].Variable? then [pieces[0].name] else []) + VariablesOf(pieces[1..])
  }

  /** Every variable filled in at once. */
  function Substitute(pieces: seq<Piece>, values: map<string, string>): string {
    if pieces == [] then []
    else
      (match pieces[0]
       case Text(text) => text
       case Variable(name) => ValueOf(values, name))
      + Substitute(pieces[1..], values)
  }

  function Among(variables: seq<string>): set<string> {
    set v | v in variables
  }

  lemma TextFirst(text: string, rest: seq<Piece>, done: set<string>, values: map<string, string>)
    ensures NoBraces(text) && Proper(rest) ==> Proper([Text(text)] + rest)
    ensures VariablesOf([Text(text)] + rest) == VariablesOf(rest)
    ensures Print([Text(text)] + rest) == text + Print(rest)
    ensures Fill([Text(text)] + rest, done, values) == text + Fill(rest, done, values)
    ensures Substitute([Text(text)] + rest, values) == text + Substitute(rest, values)
  {
    assert ([Text(text)] + rest)[1..] == rest;
  }

  lemma VariableFirst(name: string, rest: seq<Piece>, done: set<string>, values: map<string, string>)
    ensures IsName(name) && Proper(rest) ==> Proper([Variable(name)] + rest)
    ensures VariablesOf([Variable(name)] + rest) == [name] + VariablesOf(rest)
    ensures Print([Variable(name)] + rest) == Hole(name) + Print(rest)
    ensures var first := if name in done then ValueOf(values, name) else Hole(name);
      Fill([Variable(name)] + rest, done, values) == first + Fill(rest, done, values)
    ensures Substitute([Variable(name)] + rest, values) == ValueOf(values, name) + Substitute(rest, values)
  {
    assert ([Variable(name)] + rest)[1..] == rest;
  }

  lemma {:induction false} FillIgnoresValues(pieces: seq<Piece>, values: map<string, string>)
    ensures Fill(pieces, {}, values) == Print(pieces)
  {
    if pieces != [] {
      FillIgnoresValues(pieces[1..], values);
    }
  }

  lemma {:induction false} FillIsSubstitute(pieces: seq<Piece>, done: set<string>, values: map<string, string>)
    requires forall v | v in VariablesOf(pieces) :: v in done
    ensures Fill(pieces, done, values) == Substitute(pieces, values)
  {
    if pieces != [] {
      assert pieces[0].Variable? ==> pieces[0].name in VariablesOf(pieces);
      FillIsSubstitute(pieces[1..], done, values);
    }
  }

  // ----- Which variables are found -----

  lemma {:induction false} NamesSkipText(u: string, t: string)
    requires '{' !in u
    ensures Names(u + t) == Names(t)
  {
    if u == [] {
      assert u + t == t;
    } else {
      assert (u + t)[1..] == u[1..] + t;
      NamesSkipText(u[1..], t);
    }
  }

  lemma {:induction false} RunOfName(name: string, t: string)
    requires forall i | 0 <= i < |name| :: NameChar(name[i])
    ensures NameRun(name + ['}'] + t) == |name|
  {
    var s := name + ['}'] + t;
    if name != [] {
      assert s[1..] == name[1..] + ['}'] + t;
      RunOfName(name[1..], t);
    }
  }

  lemma NamesFindHole(name: string, t: string)
    requires IsName(name)
    ensures PlaceholderAt(Hole(name) + t) == Some(name) && (Hole(name) + t)[|name| + 2..] == t
    ensures Names(Hole(name) + t) == [name] + Names(t)
  {
    var s := Hole(name) + t;
    assert s[1..] == name + ['}'] + t;
    RunOfName(name, t);
    assert s[1..][..|name|] == name;
    assert s[|name| + 1] == '}';
    assert s[|name| + 2..] == t;
  }

  lemma {:induction false} NamesArePrinted(pieces: seq<Piece>)
    requires Proper(pieces)
    ensures Names(Print(pieces)) == VariablesOf(pieces)
    ensures forall v | v in VariablesOf(pieces) :: IsName(v)
  {
    if pieces != [] {
      assert Proper(pieces[1..]);
      NamesArePrinted(pieces[1..]);
      match pieces[0]
      case Text(text) => NamesSkipText(text, Print(pieces[1..]));
      case Variable(name) => NamesFindHole(name, Print(pieces[1..]));
    }
  }

  // ----- Bodies whose braces occur only in placeholders -----

  predicate Tidy(t: string)
    decreases |t|
  {
    if t == [] then true
    else if PlaceholderAt(t).Some? then Tidy(t[|PlaceholderAt(t).value| + 2..])
    else t[0] != '{' && t[0] != '}' && Tidy(t[1..])
  }

  function Parse(t: string): seq<Piece>
    decreases |t|
  {
    if t == [] then []
    else if PlaceholderAt(t).Some? then
      [Variable(PlaceholderAt(t).value)] + Parse(t[|PlaceholderAt(t).value| + 2..])
    else [Text([t[0]])] + Parse(t[1..])
  }

  lemma TidyStep(t: string) returns (p: Piece, rest: string)
    requires Tidy(t) && t != []
    ensures |rest| < |t| && Tidy(rest) && Parse(t) == [p] + Parse(rest)
    ensures ProperPiece(p) && t == PrintPiece(p) + rest
  {
    match PlaceholderAt(t)
    case Some(name) =>
      p, rest := Variable(name), t[|name| + 2..];
      assert t == Hole(name) + rest;
    case None =>
      p, rest := Text([t[0]]), t[1..];
      assert t == [t[0]] + rest;
  }

  lemma {:induction false} TidyBodiesParse(t: string)
    requires Tidy(t)
    ensures Proper(Parse(t)) && Print(Parse(t)) == t
    decreases |t|
  {
    if t != [] {
      var p, rest := TidyStep(t);
      TidyBodiesParse(rest);
      PiecePrints(p, Parse(rest));
    }
  }

  lemma PiecePrints(p: Piece, rest: seq<Piece>)
    requires ProperPiece(p) && Proper(rest)
    ensures Proper([p] + rest) && Print([p] + rest) == PrintPiece(p) + Print(rest)
  {
    match p
    case Text(text) => TextFirst(text, rest, {}, map[]);
    case Variable(name) => VariableFirst(name, rest, {}, map[]);
  }

  /** Placeholders at the start of a text are found exactly where they stand. */
  lemma PlaceholderIff(t: string, name: string)
    ensures PlaceholderAt(t) == Some(name) <==> IsName(name) && Hole(name) <= t
  {
    if IsName(name) && Hole(name) <= t {
      assert t == Hole(name) + t[|name| + 2..];
      NamesFindHole(name, t[|name| + 2..]);
    }
  }

  lemma {:induction false} TextIsTidy(u: string, t: string)
    requires NoBraces(u)
    ensures Tidy(u + t) <==> Tidy(t)
  {
    if u == [] {
      assert u + t == t;
    } else {
      TextIsTidy(u[1..], t);
      assert (u + t)[1..] == u[1..] + t;
    }
  }

  lemma CharacterIsText(c: char, t: string, values: map<string, string>)
    requires c != '{' && c != '}'
    ensures Substitute(Parse([c] + t), values) == [c] + Substitute(Parse(t), values)
  {
    assert ([c] + t)[1..] == t;
    TextFirst([c], Parse(t), {}, values);
  }

  lemma {:induction false} CharacterByCharacter(f: string -> string, u: string, t: string)
    requires NoBraces(u) && forall c, r | c != '{' && c != '}' :: f([c] + r) == [c] + f(r)
    ensures f(u + t) == u + f(t)
  {
    if u == [] {
      assert u + t == t;
    } else {
      CharacterByCharacter(f, u[1..], t);
      assert u + t == [u[0]] + (u[1..] + t);
    }
  }

  lemma TextStays(u: string, t: string, values: map<string, string>)
    requires NoBraces(u)
    ensures Substitute(Parse(u + t), values) == u + Substitute(Parse(t), values)
  {
    var f := r => Substitute(Parse(r), values);
    forall c, r | c != '{' && c != '}'
      ensures f([c] + r) == [c] + f(r)
    {
      CharacterIsText(c, r, values);
    }
    CharacterByCharacter(f, u, t);
    assert f(u + t) == u + f(t);
  }

  /** Printed templates are tidy bodies, and mean the same when read back. */
  lemma {:induction false} PrintsAreTidy(pieces: seq<Piece>, values: map<string, string>)
    requires Proper(pieces)
    ensures Tidy(Print(pieces))
    ensures Substitute(Parse(Print(pieces)), values) == Substitute(pieces, values)
  {
    if pieces != [] {
      var t := Print(pieces[1..]);
      assert Proper(pieces[1..]);
      PrintsAreTidy(pieces[1..], values);
      match pieces[0]
      case Text(text) =>
        TextIsTidy(text, t);
        TextStays(text, t, values);
      case Variable(name) =>
        NamesFindHole(name, t);
        VariableFirst(name, Parse(t), {}, values);
    }
  }
}
