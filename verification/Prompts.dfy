/** Rendering a prompt: replacing one variable after the other means substituting all at once exactly for
    values that hold no live replacement pattern, no other placeholder and no two halves of one. */
module Prompts {
  import opened Templates

  // ----- What a value may hold -----

  /** The characters that a dollar sign makes special. */
  predicate Special(c: char) {
    c == '$' || c == '&' || c == '`' || c == '\''
  }

  predicate PlainDollars(v: string) {
    forall i | 0 <= i < |v| - 1 && v[i] == '$' :: !Special(v[i + 1])
  }

  predicate AllNameChars(s: string) {
    forall i | 0 <= i < |s| :: NameChar(s[i])
  }

  /** A placeholder opened at i and still open at the end. */
  predicate OpensAt(v: string, i: int) {
    0 <= i < |v| && v[i] == '{' && AllNameChars(v[i + 1..]) && (i + 1 < |v| ==> NameStart(v[i + 1]))
  }

  predicate Opens(v: string) {
    exists i | 0 <= i < |v| :: OpensAt(v, i)
  }

  /** Name characters and then a closing brace: the rest of a placeholder opened before. */
  predicate Closes(v: string) {
    exists k | 0 <= k < |v| :: v[k] == '}' && AllNameChars(v[..k])
  }

  /** Whole placeholders in a value are its own, or stand for themselves. */
  predicate KeepsPlaceholders(x: string, v: string, values: map<string, string>) {
    forall i | 0 <= i < |v| ::
      var p := PlaceholderAt(v[i..]);
      p.Some? && p.value != x ==> ValueOf(values, p.value) == Hole(p.value)
  }

  /** The test on values: only those under names can ever be inserted. */
  predicate Harmless(values: map<string, string>) {
    && (forall x | x in values && IsName(x) :: PlainDollars(values[x]) && KeepsPlaceholders(x, values[x], values))
    && ((forall x | x in values && IsName(x) :: !Opens(values[x]))
        || (forall y | y in values && IsName(y) :: !Closes(values[y])))
  }

  /** Placeholders of the given names in a value are its own, or stand for themselves. */
  predicate KeepsPlaceholdersOf(names: set<string>, x: string, v: string, values: map<string, string>) {
    forall i | 0 <= i < |v| ::
      var p := PlaceholderAt(v[i..]);
      p.Some? && p.value in names && p.value != x ==> ValueOf(values, p.value) == Hole(p.value)
  }

  /** The test for bodies of given variables: other values, and placeholders of other names, do not matter. */
  predicate HarmlessFor(names: set<string>, values: map<string, string>) {
    && (forall x | x in names ::
          PlainDollars(ValueOf(values, x)) && KeepsPlaceholdersOf(names, x, ValueOf(values, x), values))
    && ((forall x | x in names :: !Opens(ValueOf(values, x))) || (forall y | y in names :: !Closes(ValueOf(values, y))))
  }

  lemma HarmlessForAll(names: set<string>, values: map<string, string>)
    requires Harmless(values) && forall x | x in names :: IsName(x)
    ensures HarmlessFor(names, values)
  {
    forall x | x in names
      ensures PlainDollars(ValueOf(values, x)) && KeepsPlaceholdersOf(names, x, ValueOf(values, x), values)
    {
      if x in values {
        assert KeepsPlaceholders(x, values[x], values);
      }
    }
  }

  // ----- Dollar signs -----

  lemma {:induction false} ExpandPlain(value: string, matched: string, before: string, after: string)
    requires PlainDollars(value)
    ensures Expand(value, matched, before, after) == value
  {
    if value != [] {
      assert value == [value[0]] + value[1..];
      assert forall i | 0 <= i < |value[1..]| :: value[1..][i] == value[i + 1];
      ExpandPlain(value[1..], matched, before, after);
    }
  }

  function Dollars(k: nat): string {
    if k == 0 then [] else ['$'] + Dollars(k - 1)
  }

  lemma {:induction false} MoreDollars(k: nat, w: string)
    ensures Dollars(k) + (['$'] + w) == Dollars(k + 1) + w
  {
    if k > 0 {
      MoreDollars(k - 1, w);
      assert Dollars(k) + (['$'] + w) == ['$'] + (Dollars(k - 1) + (['$'] + w));
      assert Dollars(k + 1) + w == ['$'] + (Dollars(k) + w);
    }
  }

  /** In the context `a`..`a` an expansion never differs from its value by leading dollar signs alone. */
  lemma {:induction false} NoDollarsGained(w: string, matched: string, k: nat)
    requires matched != [] && matched[0] != '$' && k > 0
    ensures Expand(w, matched, "a", "a") != Dollars(k) + w
  {
    var e, d := Expand(w, matched, "a", "a"), Dollars(k) + w;
    assert d == ['$'] + (Dollars(k - 1) + w);
    assert d[0] == '$';
    if w != [] && w[0] == '$' {
      assert w == ['$'] + w[1..];
      MoreDollars(k - 1, w[1..]);
      assert d == ['$'] + (Dollars(k) + w[1..]);
      if |w| >= 2 && w[1] == '$' {
        assert w[1..] == ['$'] + w[2..];
        MoreDollars(k, w[2..]);
        NoDollarsGained(w[2..], matched, k + 1);
        assert e == ['$'] + Expand(w[2..], matched, "a", "a");
        assert e[1..] == Expand(w[2..], matched, "a", "a") && d[1..] == Dollars(k + 1) + w[2..];
      } else if |w| < 2 || !Special(w[1]) {
        NoDollarsGained(w[1..], matched, k);
        assert e == ['$'] + Expand(w[1..], matched, "a", "a");
        assert e[1..] == Expand(w[1..], matched, "a", "a") && d[1..] == Dollars(k) + w[1..];
      } else {
        assert e[0] == matched[0] || e[0] == 'a';
      }
    } else if w != [] {
      assert e[0] == w[0];
    }
  }

  /** A live pattern shows in that context. */
  lemma {:induction false} ExpandDiffers(v: string, matched: string)
    requires matched != [] && matched[0] != '$' && !PlainDollars(v)
    ensures Expand(v, matched, "a", "a") != v
  {
    var e := Expand(v, matched, "a", "a");
    assert v == [v[0]] + v[1..];
    if v[0] == '$' && Special(v[1]) {
      if v[1] == '$' {
        NoDollarsGained(v[2..], matched, 1);
        assert Dollars(1) == ['$'] + Dollars(0);
        assert v[1..] == Dollars(1) + v[2..];
        assert e[1..] == Expand(v[2..], matched, "a", "a");
      }
    } else {
      var i :| 0 <= i < |v| - 1 && v[i] == '$' && Special(v[i + 1]);
      assert v[1..][i - 1] == '$' && v[1..][i] == v[i + 1];
      ExpandDiffers(v[1..], matched);
      assert e[1..] == Expand(v[1..], matched, "a", "a");
    }
  }

  /** Expansion does nothing, whatever the context, exactly when no dollar sign stands before a dollar sign,
      an ampersand, a backtick or an apostrophe. */
  lemma ExpandsToItselfIff(v: string)
    ensures PlainDollars(v) <==> forall matched, before, after :: Expand(v, matched, before, after) == v
  {
    if PlainDollars(v) {
      forall matched, before, after
        ensures Expand(v, matched, before, after) == v
      {
        ExpandPlain(v, matched, before, after);
      }
    } else {
      ExpandDiffers(v, "{");
    }
  }

  // ----- Replacement by a plain value -----

  /** Every placeholder of one name replaced, as it stands. */
  function Swap(t: string, name: string, value: string): string
    decreases |t|
  {
    if t == [] then []
    else if Hole(name) <= t then value + Swap(t[|Hole(name)|..], name, value)
    else [t[0]] + Swap(t[1..], name, value)
  }

  lemma {:induction false} ReplaceIsSwap(before: string, t: string, name: string, value: string)
    requires PlainDollars(value)
    ensures ReplaceFrom(before, t, name, value) == Swap(t, name, value)
    decreases |t|
  {
    if t != [] {
      if Hole(name) <= t {
        var rest := t[|Hole(name)|..];
        ExpandPlain(value, Hole(name), before, rest);
        ReplaceIsSwap(before + Hole(name), rest, name, value);
      } else {
        ReplaceIsSwap(before + [t[0]], t[1..], name, value);
      }
    }
  }

  ghost predicate Holds(t: string, name: string) {
    exists i | 0 <= i < |t| :: Hole(name) <= t[i..]
  }

  lemma HoldsLater(t: string, name: string)
    requires t != []
    ensures Holds(t, name) <==> Hole(name) <= t || Holds(t[1..], name)
  {
    assert t[0..] == t;
    assert forall i | 0 <= i < |t[1..]| :: t[1..][i..] == t[i + 1..];
    if Holds(t[1..], name) {
      var i :| 0 <= i < |t[1..]| && Hole(name) <= t[1..][i..];
      assert Hole(name) <= t[i + 1..];
    }
    if Holds(t, name) && !(Hole(name) <= t) {
      var i :| 0 <= i < |t| && Hole(name) <= t[i..];
      assert t[1..][i - 1..] == t[i..];
    }
  }

  /** Nothing to replace, or a placeholder replaced by itself. */
  lemma {:induction false} SwapIsIdle(t: string, name: string, value: string)
    requires !Holds(t, name) || value == Hole(name)
    ensures Swap(t, name, value) == t
    decreases |t|
  {
    if t != [] {
      HoldsLater(t, name);
      if Hole(name) <= t {
        assert t == Hole(name) + t[|Hole(name)|..];
        SwapIsIdle(t[|Hole(name)|..], name, value);
      } else {
        SwapIsIdle(t[1..], name, value);
        assert t == [t[0]] + t[1..];
      }
    }
  }

  lemma {:induction false} SwapLength(t: string, name: string, value: string)
    ensures |value| <= |Hole(name)| ==> |Swap(t, name, value)| <= |t|
    ensures |value| >= |Hole(name)| ==> |Swap(t, name, value)| >= |t|
    decreases |t|
  {
    if t != [] {
      if Hole(name) <= t {
        SwapLength(t[|Hole(name)|..], name, value);
      } else {
        SwapLength(t[1..], name, value);
      }
    }
  }

  /** Otherwise the text changes, and shrinks when the value is shorter than the placeholder. */
  lemma {:induction false} SwapChanges(t: string, name: string, value: string)
    requires Holds(t, name) && value != Hole(name)
    ensures Swap(t, name, value) != t
    ensures |value| < |Hole(name)| ==> |Swap(t, name, value)| < |t|
    decreases |t|
  {
    HoldsLater(t, name);
    if Hole(name) <= t {
      var rest := t[|Hole(name)|..];
      assert t == Hole(name) + rest;
      SwapLength(rest, name, value);
      if |value| == |Hole(name)| {
        assert Swap(t, name, value)[..|value|] == value && t[..|value|] == Hole(name);
      }
    } else {
      SwapChanges(t[1..], name, value);
      assert Swap(t, name, value)[1..] == Swap(t[1..], name, value);
    }
  }

  // ----- No placeholder across a boundary -----

  /** A placeholder of the name begins at i in u and ends beyond it. */
  ghost predicate Crosses(u: string, v: string, name: string, i: int) {
    0 <= i < |u| && Hole(name) <= (u + v)[i..] && |u| < i + |Hole(name)|
  }

  lemma CrossingOpensAndCloses(u: string, v: string, name: string, i: int)
    requires IsName(name) && Crosses(u, v, name, i)
    ensures OpensAt(u, i) && Closes(v)
  {
    var h, s := Hole(name), (u + v)[i..];
    var k := i + |name| + 1 - |u|;
    assert forall j | 0 <= j < |h| :: (u + v)[i + j] == s[j] == h[j];
    assert forall j | 0 <= j < |name| :: h[j + 1] == name[j];
    var w := u[i + 1..];
    forall j | 0 <= j < |w|
      ensures w[j] == name[j]
    {
      assert w[j] == (u + v)[i + (j + 1)] == h[j + 1];
    }
    assert u[i] == (u + v)[i + 0] == h[0];
    assert v[k] == (u + v)[i + (|name| + 1)] == h[|name| + 1];
    var x := v[..k];
    forall j | 0 <= j < |x|
      ensures NameChar(x[j])
    {
      assert x[j] == (u + v)[i + (|u| - i + j)] == h[|u| - i + j];
    }
  }

  lemma {:induction false} SwapConcat(u: string, v: string, name: string, value: string)
    requires forall i :: !Crosses(u, v, name, i)
    ensures Swap(u + v, name, value) == Swap(u, name, value) + Swap(v, name, value)
    decreases |u|
  {
    if u == [] {
      assert u + v == v;
    } else {
      var n := |Hole(name)|;
      assert (u + v)[0..] == u + v;
      assert !Crosses(u, v, name, 0);
      if Hole(name) <= u + v {
        assert (u + v)[n..] == u[n..] + v;
        LaterBoundary(u, v, name, n);
        SwapConcat(u[n..], v, name, value);
        assert Hole(name) <= u;
      } else {
        assert (u + v)[1..] == u[1..] + v;
        LaterBoundary(u, v, name, 1);
        SwapConcat(u[1..], v, name, value);
        assert !(Hole(name) <= u);
      }
    }
  }

  lemma LaterBoundary(u: string, v: string, name: string, n: nat)
    requires n <= |u| && forall i :: !Crosses(u, v, name, i)
    ensures forall i :: !Crosses(u[n..], v, name, i)
  {
    forall i
      ensures !Crosses(u[n..], v, name, i)
    {
      if 0 <= i < |u[n..]| {
        assert (u[n..] + v)[i..] == (u + v)[n + i..];
        assert !Crosses(u, v, name, n + i);
      }
    }
  }

  /** Where nothing opens on the left or nothing closes on the right, the two sides are swapped apart. */
  lemma SwapApart(u: string, v: string, name: string, value: string)
    requires IsName(name) && (!Opens(u) || !Closes(v))
    ensures Swap(u + v, name, value) == Swap(u, name, value) + Swap(v, name, value)
  {
    forall i
      ensures !Crosses(u, v, name, i)
    {
      if Crosses(u, v, name, i) {
        CrossingOpensAndCloses(u, v, name, i);
      }
    }
    SwapConcat(u, v, name, value);
  }

  lemma TextIsQuiet(u: string, name: string)
    requires '{' !in u
    ensures !Opens(u) && !Holds(u, name)
  {
    forall i | 0 <= i < |u|
      ensures !(Hole(name) <= u[i..])
    {
      assert Hole(name)[0] == '{' && u[i..][0] == u[i];
    }
  }

  lemma HoleIsClosed(name: string, t: string)
    requires IsName(name)
    ensures !Opens(Hole(name)) && !Closes(Hole(name) + t)
  {
    var h := Hole(name);
    assert h[0] == '{' && h[|h| - 1] == '}' && (h + t)[0] == '{';
    forall i | 0 <= i < |h|
      ensures !OpensAt(h, i)
    {
      if i < |h| - 1 {
        assert h[i + 1..][|h| - i - 2] == '}';
      }
    }
    forall k | 0 <= k < |h + t| && (h + t)[k] == '}'
      ensures !AllNameChars((h + t)[..k])
    {
      assert (h + t)[..k][0] == '{';
    }
  }

  lemma SwapsHole(name: string, t: string, value: string)
    ensures Swap(Hole(name) + t, name, value) == value + Swap(t, name, value)
  {
    assert (Hole(name) + t)[|Hole(name)|..] == t;
  }

  lemma OtherHoleIsQuiet(other: string, name: string)
    requires IsName(name) && IsName(other) && name != other
    ensures !Holds(Hole(other), name)
  {
    forall i | 0 <= i < |Hole(other)|
      ensures !(Hole(name) <= Hole(other)[i..])
    {
      if i == 0 {
        PlaceholderIff(Hole(other), name);
        NamesFindHole(other, []);
        assert Hole(other) + [] == Hole(other)[0..] == Hole(other);
      } else {
        assert Hole(other)[i..][0] == Hole(other)[i] != '{';
      }
    }
  }

  // ----- One pass -----

  lemma ClosesEither(u: string, v: string)
    requires Closes(u + v)
    ensures Closes(u) || Closes(v)
  {
    var k :| 0 <= k < |u + v| && (u + v)[k] == '}' && AllNameChars((u + v)[..k]);
    if k < |u| {
      assert (u + v)[..k] == u[..k];
    } else {
      var n := k - |u|;
      assert v[n] == '}';
      var w := v[..n];
      forall j | 0 <= j < |w|
        ensures NameChar(w[j])
      {
        assert w[j] == (u + v)[..k][|u| + j];
      }
    }
  }

  /** When no value filled in closes anything, nothing in the text does. */
  lemma {:induction false} FilledNeverCloses(pieces: seq<Piece>, done: set<string>, values: map<string, string>)
    requires Proper(pieces) && forall y | y in done :: !Closes(ValueOf(values, y))
    ensures !Closes(Fill(pieces, done, values))
  {
    if pieces != [] {
      var rest := Fill(pieces[1..], done, values);
      assert Proper(pieces[1..]);
      FilledNeverCloses(pieces[1..], done, values);
      match pieces[0]
      case Text(text) =>
        if Closes(text + rest) { ClosesEither(text, rest); }
      case Variable(name) =>
        if name in done {
          if Closes(ValueOf(values, name) + rest) { ClosesEither(ValueOf(values, name), rest); }
        } else {
          HoleIsClosed(name, rest);
        }
    }
  }

  /** What one pass needs of the values already filled in. */
  ghost predicate Passable(done: set<string>, name: string, values: map<string, string>) {
    && (forall x | x in done :: !Holds(ValueOf(values, x), name) || ValueOf(values, name) == Hole(name))
    && ((forall x | x in done :: !Opens(ValueOf(values, x))) || (forall y | y in done :: !Closes(ValueOf(values, y))))
  }

  /** Swapping one more variable fills in exactly its placeholders. */
  lemma {:induction false} SwapFills(pieces: seq<Piece>, done: set<string>, name: string, values: map<string, string>)
    requires Proper(pieces) && IsName(name) && Passable(done, name, values)
    ensures Swap(Fill(pieces, done, values), name, ValueOf(values, name)) == Fill(pieces, done + {name}, values)
  {
    if pieces != [] {
      var rest, value := Fill(pieces[1..], done, values), ValueOf(values, name);
      assert Proper(pieces[1..]);
      SwapFills(pieces[1..], done, name, values);
      match pieces[0]
      case Text(text) =>
        TextIsQuiet(text, name);
        SwapApart(text, rest, name, value);
        SwapIsIdle(text, name, value);
      case Variable(other) =>
        if other in done {
          var filled := ValueOf(values, other);
          if forall y | y in done :: !Closes(ValueOf(values, y)) {
            FilledNeverCloses(pieces[1..], done, values);
          }
          SwapApart(filled, rest, name, value);
          SwapIsIdle(filled, name, value);
        } else if other == name {
          SwapsHole(name, rest, value);
        } else {
          HoleIsClosed(other, rest);
          OtherHoleIsQuiet(other, name);
          SwapApart(Hole(other), rest, name, value);
          SwapIsIdle(Hole(other), name, value);
        }
    }
  }

  /** Replacing one more variable fills in exactly its placeholders. */
  lemma ReplaceFills(pieces: seq<Piece>, done: set<string>, name: string, values: map<string, string>)
    requires Proper(pieces) && IsName(name) && Passable(done, name, values) && PlainDollars(ValueOf(values, name))
    ensures Replace(Fill(pieces, done, values), name, ValueOf(values, name)) == Fill(pieces, done + {name}, values)
  {
    ReplaceIsSwap([], Fill(pieces, done, values), name, ValueOf(values, name));
    SwapFills(pieces, done, name, values);
  }

  // ----- All passes -----

  predicate DistinctNames(names: seq<string>) {
    forall i, j | 0 <= i < j < |names| :: names[i] != names[j]
  }

  /** None of the values holds its own placeholder, other than being it. */
  ghost predicate NoneNamesItself(names: set<string>, values: map<string, string>) {
    forall x | x in names :: !Holds(ValueOf(values, x), x) || ValueOf(values, x) == Hole(x)
  }

  lemma HarmlessIsPassable(names: set<string>, values: map<string, string>, done: set<string>, name: string)
    requires HarmlessFor(names, values) && name in names && done <= names && IsName(name)
    requires name in done ==> NoneNamesItself(names, values)
    ensures Passable(done, name, values) && PlainDollars(ValueOf(values, name))
  {
    forall x | x in done
      ensures !Holds(ValueOf(values, x), name) || ValueOf(values, name) == Hole(name)
    {
      var v := ValueOf(values, x);
      if Holds(v, name) && x != name {
        var i :| 0 <= i < |v| && Hole(name) <= v[i..];
        PlaceholderIff(v[i..], name);
        assert KeepsPlaceholdersOf(names, x, v, values);
      }
    }
  }

  lemma {:induction false} EachFills(pieces: seq<Piece>, variables: seq<string>, names: set<string>,
                                     values: map<string, string>)
    requires Proper(pieces) && HarmlessFor(names, values)
    requires forall v | v in variables :: IsName(v) && v in names
    requires DistinctNames(variables) || NoneNamesItself(names, values)
    ensures ReplaceEach(Print(pieces), variables, values) == Fill(pieces, Among(variables), values)
  {
    if variables == [] {
      FillIgnoresValues(pieces, values);
      assert Among(variables) == {};
    } else {
      var n := |variables| - 1;
      var last, done := variables[n], Among(variables[..n]);
      assert variables == variables[..n] + [last];
      EachFills(pieces, variables[..n], names, values);
      HarmlessIsPassable(names, values, done, last);
      ReplaceFills(pieces, done, last, values);
      assert Among(variables) == done + {last};
    }
  }

  /** For values harmless to the variables replaced, one variable at a time in any order is substitution all at
      once; and with any repetition, unless a value holds its own placeholder. */
  lemma SequentialIsSimultaneous(pieces: seq<Piece>, variables: seq<string>, values: map<string, string>)
    requires Proper(pieces) && HarmlessFor(Among(variables), values)
    requires forall v | v in variables :: IsName(v)
    requires forall v | v in VariablesOf(pieces) :: v in variables
    requires DistinctNames(variables) || NoneNamesItself(Among(variables), values)
    ensures ReplaceEach(Print(pieces), variables, values) == Substitute(pieces, values)
  {
    EachFills(pieces, variables, Among(variables), values);
    FillIsSubstitute(pieces, Among(variables), values);
  }

  // ----- Rendering -----

  /** String.prototype.trim. */
  predicate IsJsSpace(c: char) {
    || '\t' <= c <= '\r' || c == ' ' || c == '\U{00A0}' || c == '\U{1680}' || '\U{2000}' <= c <= '\U{200A}'
    || c == '\U{2028}' || c == '\U{2029}' || c == '\U{202F}' || c == '\U{205F}' || c == '\U{3000}' || c == '\U{FEFF}'
  }

  function TrimStart(s: string): string {
    if s != [] && IsJsSpace(s[0]) then TrimStart(s[1..]) else s
  }

  function TrimEnd(s: string): string {
    if s != [] && IsJsSpace(s[|s| - 1]) then TrimEnd(s[..|s| - 1]) else s
  }

  function TrimJs(s: string): string {
    TrimEnd(TrimStart(s))
  }

  /** Trimming takes white space off both ends, all of it, and nothing else. */
  lemma TrimIs(s: string) returns (before: string, after: string)
    ensures s == before + TrimJs(s) + after
    ensures forall c | c in before || c in after :: IsJsSpace(c)
    ensures TrimJs(s) != "" ==> !IsJsSpace(TrimJs(s)[0]) && !IsJsSpace(TrimJs(s)[|TrimJs(s)| - 1])
  {
    before := StartIs(s);
    after := EndIs(TrimStart(s));
    assert s == before + (TrimJs(s) + after);
  }

  lemma {:induction false} StartIs(s: string) returns (before: string)
    ensures s == before + TrimStart(s) && forall c | c in before :: IsJsSpace(c)
    ensures TrimStart(s) != "" ==> !IsJsSpace(TrimStart(s)[0])
  {
    before := "";
    if s != [] && IsJsSpace(s[0]) {
      before := StartIs(s[1..]);
      before := [s[0]] + before;
      assert s == [s[0]] + s[1..];
    }
  }

  lemma {:induction false} EndIs(s: string) returns (after: string)
    ensures s == TrimEnd(s) + after && forall c | c in after :: IsJsSpace(c)
    ensures TrimEnd(s) != "" ==> !IsJsSpace(TrimEnd(s)[|TrimEnd(s)| - 1])
  {
    after := "";
    if s != [] && IsJsSpace(s[|s| - 1]) {
      after := EndIs(s[..|s| - 1]);
      after := after + [s[|s| - 1]];
      assert s == s[..|s| - 1] + [s[|s| - 1]];
    }
  }

  predicate TrimmedJs(s: string) {
    s != "" && !IsJsSpace(s[0]) && !IsJsSpace(s[|s| - 1])
  }

  lemma TrimmedStays(s: string)
    requires TrimmedJs(s)
    ensures TrimJs(s) == s
  {
  }

  const CONTEXT := "context"
  const SEPARATOR := "\n\n---\nContext:\n"

  /** The context as a value, where the body has a variable for it. */
  function Merged(values: map<string, string>, variables: seq<string>, contextText: string): map<string, string> {
    if CONTEXT in variables && contextText != "" then values[CONTEXT := contextText] else values
  }

  /** renderPrompt: the variables replaced, in the order found; then the context at the end, unless it is empty or
      has its own variable. */
  method RenderPrompt(body: string, values: map<string, string>, contextText: string) returns (text: string)
    ensures "context" !in Names(body) || contextText == "" ==>
      var rendered := ReplaceEach(body, OnceEach(Names(body)), values);
      text == if contextText == "" then TrimJs(rendered)
              else TrimJs(TrimJs(rendered) + "\n\n---\nContext:\n" + contextText)
    ensures "context" in Names(body) && contextText != "" ==>
      text == TrimJs(ReplaceEach(body, OnceEach(Names(body)), values["context" := contextText]))
    ensures var given := if "context" in Names(body) && contextText != ""
                         then values["context" := contextText] else values;
      var rendered := TrimJs(Substitute(Parse(body), given));
      Tidy(body) && HarmlessFor(Among(Names(body)), given) ==>
      if contextText == "" || "context" in Names(body) then text == rendered
      else
        && text == TrimJs(rendered + "\n\n---\nContext:\n" + contextText)
        && (TrimmedJs(rendered) && TrimmedJs(contextText) ==>
              text == rendered + "\n\n---\nContext:\n" + contextText)
  {
    var variables := ExtractVariables(body);
    var hasContextVariable := CONTEXT in variables;
    var mergedValues := values;
    if hasContextVariable && contextText != "" {
      mergedValues := mergedValues[CONTEXT := contextText];
    }
    var rendered := body;
    for i := 0 to |variables|
      invariant rendered == ReplaceEach(body, variables[..i], mergedValues)
    {
      assert variables[..i + 1][..i] == variables[..i];
      rendered := Replace(rendered, variables[i], ValueOf(mergedValues, variables[i]));
    }
    assert variables[..|variables|] == variables;
    RenderedIs(body, values, contextText);
    if contextText != "" && !hasContextVariable {
      AppendedStays(TrimJs(rendered), contextText);
      rendered := TrimJs(rendered) + SEPARATOR + contextText;
    }
    text := TrimJs(rendered);
  }

  lemma AppendedStays(rendered: string, contextText: string)
    ensures TrimmedJs(rendered) && TrimmedJs(contextText) ==>
      TrimJs(rendered + SEPARATOR + contextText) == rendered + SEPARATOR + contextText
  {
    if TrimmedJs(rendered) && TrimmedJs(contextText) {
      TrimmedStays(rendered + SEPARATOR + contextText);
    }
  }

  /** For tidy bodies and values harmless to their variables, rendering is simultaneous substitution. */
  lemma RenderedIs(body: string, values: map<string, string>, contextText: string)
    ensures var names, variables := Names(body), OnceEach(Names(body));
      var merged := Merged(values, variables, contextText);
      && merged == Merged(values, names, contextText)
      && (CONTEXT in variables <==> CONTEXT in names)
      && (Tidy(body) && HarmlessFor(Among(names), merged) ==>
            ReplaceEach(body, variables, merged) == Substitute(Parse(body), merged))
  {
    OnceEachIs(Names(body));
    var merged := Merged(values, OnceEach(Names(body)), contextText);
    if Tidy(body) && HarmlessFor(Among(Names(body)), merged) {
      TidyBodyIsRendered(body, merged);
    }
  }

  lemma TidyBodyIsRendered(body: string, values: map<string, string>)
    requires Tidy(body) && HarmlessFor(Among(Names(body)), values)
    ensures ReplaceEach(body, OnceEach(Names(body)), values) == Substitute(Parse(body), values)
  {
    var variables := OnceEach(Names(body));
    OnceEachIs(Names(body));
    TidyBodiesParse(body);
    NamesArePrinted(Parse(body));
    assert Among(variables) == Among(Names(body));
    SequentialIsSimultaneous(Parse(body), variables, values);
  }

  // ----- Values that fail the test -----

  /** What the renderer makes of a template, with its variables in the order it finds them. */
  function Rendered(pieces: seq<Piece>, values: map<string, string>): string {
    ReplaceEach(Print(pieces), OnceEach(VariablesOf(pieces)), values)
  }

  lemma OneMore(body: string, names: seq<string>, last: string, values: map<string, string>)
    ensures ReplaceEach(body, names + [last], values)
         == Replace(ReplaceEach(body, names, values), last, ValueOf(values, last))
    ensures last in OnceEach(names) ==> OnceEach(names + [last]) == OnceEach(names)
    ensures last !in OnceEach(names) ==> OnceEach(names + [last]) == OnceEach(names) + [last]
  {
    assert (names + [last])[..|names|] == names;
  }

  lemma OneName(x: string, body: string, values: map<string, string>)
    ensures OnceEach([x]) == [x]
    ensures ReplaceEach(body, [x], values) == Replace(body, x, ValueOf(values, x))
  {
    OneMore(body, [], x, values);
    assert [] + [x] == [x];
  }

  lemma SuffixCancels(a: string, b: string, c: string)
    requires a != b
    ensures a + c != b + c
  {
    if |a| == |b| {
      var i :| 0 <= i < |a| && a[i] != b[i];
      assert (a + c)[i] == a[i] && (b + c)[i] == b[i];
    }
  }

  lemma ReplaceAround(x: string, v: string)
    requires IsName(x)
    ensures Replace("a" + (Hole(x) + "a"), x, v) == "a" + (Expand(v, Hole(x), "a", "a") + "a")
  {
    var t := Hole(x) + "a";
    assert ("a" + t)[0] == 'a' && Hole(x)[0] == '{' && ("a" + t)[1..] == t;
    assert t[|Hole(x)|..] == "a";
    var b := [] + ['a'];
    assert b == "a";
    assert !(Hole(x) <= "a") && "a"[1..] == [];
    assert ReplaceFrom("a" + Hole(x), "a", x, v) == ['a'] + ReplaceFrom("a" + Hole(x) + ['a'], [], x, v);
    assert ReplaceFrom("a", t, x, v) == Expand(v, Hole(x), "a", "a") + "a";
  }

  /** A live dollar pattern shows in a body with one placeholder. */
  lemma DollarsShow(x: string, values: map<string, string>) returns (pieces: seq<Piece>)
    requires IsName(x) && !PlainDollars(ValueOf(values, x))
    ensures Proper(pieces) && Rendered(pieces, values) != Substitute(pieces, values)
  {
    var a, v := [Text("a")] + [], ValueOf(values, x);
    pieces := [Text("a")] + ([Variable(x)] + a);
    TextFirst("a", [], {}, values);
    VariableFirst(x, a, {}, values);
    TextFirst("a", [Variable(x)] + a, {}, values);
    assert "a" + [] == "a" && [x] + [] == [x];
    OneName(x, Print(pieces), values);
    ReplaceAround(x, v);
    ExpandDiffers(v, Hole(x));
    var e := Expand(v, Hole(x), "a", "a");
    SuffixCancels(e, v, "a");
    assert ("a" + (e + "a"))[1..] == e + "a" && ("a" + (v + "a"))[1..] == v + "a";
  }

  /** The first variable filled in. */
  lemma FirstPass(pieces: seq<Piece>, x: string, values: map<string, string>)
    requires Proper(pieces) && IsName(x) && PlainDollars(ValueOf(values, x))
    ensures ReplaceEach(Print(pieces), [x], values) == Fill(pieces, {x}, values)
  {
    OneName(x, Print(pieces), values);
    FillIgnoresValues(pieces, values);
    ReplaceFills(pieces, {}, x, values);
    assert {} + {x} == {x};
  }

  /** A last placeholder goes, and so does every copy of it that the values have formed before it. */
  lemma LastPass(t: string, name: string, value: string)
    requires IsName(name) && PlainDollars(value) && Holds(t, name) && value != Hole(name)
    ensures Replace(t + (Hole(name) + []), name, value) != t + (value + [])
  {
    ReplaceIsSwap([], t + (Hole(name) + []), name, value);
    HoleIsClosed(name, []);
    SwapApart(t, Hole(name) + [], name, value);
    SwapsHole(name, [], value);
    SwapChanges(t, name, value);
    SuffixCancels(Swap(t, name, value), t, value + []);
  }

  /** A placeholder within another's value is replaced after all. */
  lemma PlaceholdersShow(x: string, name: string, values: map<string, string>) returns (pieces: seq<Piece>)
    requires IsName(x) && IsName(name) && name != x
    requires PlainDollars(ValueOf(values, x)) && PlainDollars(ValueOf(values, name))
    requires Holds(ValueOf(values, x), name) && ValueOf(values, name) != Hole(name)
    ensures Proper(pieces) && Rendered(pieces, values) != Substitute(pieces, values)
  {
    var last := [Variable(name)] + [];
    pieces := [Variable(x)] + last;
    VariableFirst(name, [], {x}, values);
    VariableFirst(x, last, {x}, values);
    OneName(x, Print(pieces), values);
    OneMore(Print(pieces), [x], name, values);
    FirstPass(pieces, x, values);
    assert [name] + [] == [name];
    LastPass(ValueOf(values, x), name, ValueOf(values, name));
  }

  // ----- Two halves of a placeholder -----

  function Filler(k: nat): string {
    if k == 0 then "a" else ['a'] + Filler(k - 1)
  }

  lemma {:induction false} FillerIs(k: nat)
    ensures |Filler(k)| == k + 1 && IsName(Filler(k)) && NoBraces(Filler(k))
  {
    if k > 0 {
      FillerIs(k - 1);
    }
  }

  lemma {:induction false} LongerThanAll(names: set<string>) returns (k: nat)
    ensures forall n | n in names :: |n| < k
  {
    if names == {} {
      k := 0;
    } else {
      var n :| n in names;
      var others := LongerThanAll(names - {n});
      k := if others <= |n| then |n| + 1 else others;
      forall m | m in names ensures |m| < k {
        assert m == n || m in names - {n};
      }
    }
  }

  /** Two halves and a filler between them make a placeholder. */
  lemma HalvesMeet(u: string, i: int, v: string, k: int, mid: string) returns (name: string)
    requires OpensAt(u, i) && 0 <= k < |v| && v[k] == '}' && AllNameChars(v[..k]) && IsName(mid)
    ensures IsName(name) && |name| >= |mid| && Holds(u + (mid + v), name)
  {
    var p, q := u[i + 1..], v[..k];
    name := p + mid + q;
    assert name[0] == if p != [] then p[0] else mid[0];
    var t := u + (mid + v);
    assert u == u[..i] + ['{'] + p && v == q + ['}'] + v[k + 1..];
    assert t[i..] == Hole(name) + v[k + 1..];
  }

  /** The halves in two values, or in one, meet in a body that has its own placeholder of that name at the end. */
  lemma HalvesShow(x: string, y: string, values: map<string, string>) returns (pieces: seq<Piece>)
    requires IsName(x) && IsName(y) && Opens(ValueOf(values, x)) && Closes(ValueOf(values, y))
    requires PlainDollars(ValueOf(values, x)) && PlainDollars(ValueOf(values, y))
    requires x != y ==> Passable({x}, y, values)
    ensures Proper(pieces) && Rendered(pieces, values) != Substitute(pieces, values)
  {
    var u, v := ValueOf(values, x), ValueOf(values, y);
    var i :| OpensAt(u, i);
    var k :| 0 <= k < |v| && v[k] == '}' && AllNameChars(v[..k]);
    var length := LongerThanAll(values.Keys + {x, y});
    var mid := Filler(length);
    FillerIs(length);
    var name := HalvesMeet(u, i, v, k, mid);
    assert name !in values.Keys + {x, y};
    pieces := Halves(x, mid, y, name);
    HalvesDiffer(x, mid, y, name, values);
  }

  lemma HalvesDiffer(x: string, mid: string, y: string, name: string, values: map<string, string>)
    requires IsName(x) && IsName(y) && IsName(name) && NoBraces(mid) && name != x && name != y && name !in values
    requires PlainDollars(ValueOf(values, x)) && PlainDollars(ValueOf(values, y))
    requires x != y ==> Passable({x}, y, values)
    requires Holds(ValueOf(values, x) + (mid + ValueOf(values, y)), name)
    ensures var pieces := Halves(x, mid, y, name);
      Proper(pieces) && Rendered(pieces, values) != Substitute(pieces, values)
  {
    HalvesAreProper(x, mid, y, name);
    HalvesAre(x, mid, y, name, values);
    HalvesRendered(x, mid, y, name, values);
    LastPass(ValueOf(values, x) + (mid + ValueOf(values, y)), name, "");
  }

  lemma HalvesRendered(x: string, mid: string, y: string, name: string, values: map<string, string>)
    requires IsName(x) && IsName(y) && IsName(name) && NoBraces(mid) && name != x && name != y && name !in values
    requires PlainDollars(ValueOf(values, x)) && PlainDollars(ValueOf(values, y))
    requires x != y ==> Passable({x}, y, values)
    ensures var t := ValueOf(values, x) + (mid + ValueOf(values, y));
      Rendered(Halves(x, mid, y, name), values) == Replace(t + (Hole(name) + []), name, "")
  {
    HalvesAreProper(x, mid, y, name);
    HalvesAre(x, mid, y, name, values);
    HalvesFilled(x, y, name, Halves(x, mid, y, name), values);
  }

  function Halves(x: string, mid: string, y: string, name: string): seq<Piece> {
    [Variable(x)] + ([Text(mid)] + ([Variable(y)] + ([Variable(name)] + [])))
  }

  lemma HalvesAreProper(x: string, mid: string, y: string, name: string)
    requires IsName(x) && IsName(y) && IsName(name) && NoBraces(mid)
    ensures Proper(Halves(x, mid, y, name))
  {
  }

  lemma HalvesAre(x: string, mid: string, y: string, name: string, values: map<string, string>)
    requires name != x && name != y && name !in values
    ensures var pieces, t := Halves(x, mid, y, name), ValueOf(values, x) + (mid + ValueOf(values, y));
      && VariablesOf(pieces) == ([x] + [y]) + [name]
      && Fill(pieces, {x, y}, values) == t + (Hole(name) + [])
      && Substitute(pieces, values) == t + ("" + [])
  {
    var last := [Variable(name)] + [];
    var d := {x, y};
    VariableFirst(name, [], d, values);
    VariableFirst(y, last, d, values);
    TextFirst(mid, [Variable(y)] + last, d, values);
    VariableFirst(x, [Text(mid)] + ([Variable(y)] + last), d, values);
    Reassociate(ValueOf(values, x), mid, ValueOf(values, y), Hole(name) + []);
    Reassociate(ValueOf(values, x), mid, ValueOf(values, y), "" + []);
    assert [x] + ([y] + ([name] + [])) == ([x] + [y]) + [name];
  }

  lemma Reassociate(a: string, b: string, c: string, d: string)
    ensures a + (b + (c + d)) == (a + (b + c)) + d
  {
  }

  /** The passes before the last. */
  lemma HalvesFilled(x: string, y: string, name: string, pieces: seq<Piece>, values: map<string, string>)
    requires Proper(pieces) && IsName(x) && IsName(y) && name != x && name != y
    requires PlainDollars(ValueOf(values, x)) && PlainDollars(ValueOf(values, y))
    requires x != y ==> Passable({x}, y, values)
    ensures var body := Print(pieces);
      ReplaceEach(body, OnceEach(([x] + [y]) + [name]), values)
        == Replace(Fill(pieces, {x, y}, values), name, ValueOf(values, name))
  {
    var body := Print(pieces);
    FirstPass(pieces, x, values);
    OneName(x, body, values);
    OneMore(body, [x], y, values);
    OneMore(body, [x] + [y], name, values);
    if x != y {
      ReplaceFills(pieces, {x}, y, values);
      assert {x} + {y} == {x, y};
    } else {
      OneMore(body, [x], name, values);
      assert {x, y} == {x};
    }
  }

  // ----- The test is exact -----

  /** Rendering is simultaneous substitution in every tidy body exactly for harmless values. */
  lemma HarmlessIff(values: map<string, string>)
    ensures Harmless(values) <==>
      forall body | Tidy(body) ::
        ReplaceEach(body, OnceEach(Names(body)), values) == Substitute(Parse(body), values)
  {
    if Harmless(values) {
      forall body | Tidy(body)
        ensures ReplaceEach(body, OnceEach(Names(body)), values) == Substitute(Parse(body), values)
      {
        TidyBodiesParse(body);
        NamesArePrinted(Parse(body));
        HarmlessForAll(Among(Names(body)), values);
        TidyBodyIsRendered(body, values);
      }
    } else {
      var pieces := HarmShows(values);
      NamesArePrinted(pieces);
      PrintsAreTidy(pieces, values);
    }
  }

  /** For values that fail the test some template shows it. */
  lemma HarmShows(values: map<string, string>) returns (pieces: seq<Piece>)
    requires !Harmless(values)
    ensures Proper(pieces) && Rendered(pieces, values) != Substitute(pieces, values)
  {
    if x :| x in values && IsName(x) && !PlainDollars(values[x]) {
      pieces := DollarsShow(x, values);
    } else if x :| x in values && IsName(x) && !KeepsPlaceholders(x, values[x], values) {
      var i :| 0 <= i < |values[x]| && var p := PlaceholderAt(values[x][i..]);
        p.Some? && p.value != x && ValueOf(values, p.value) != Hole(p.value);
      pieces := PlaceholdersShow(x, PlaceholderAt(values[x][i..]).value, values);
    } else {
      var x :| x in values && IsName(x) && Opens(values[x]);
      var y :| y in values && IsName(y) && Closes(values[y]);
      if Closes(values[x]) {
        pieces := HalvesShow(x, x, values);
      } else {
        KeptIsPassable(x, y, values);
        pieces := HalvesShow(x, y, values);
      }
    }
  }

  lemma KeptIsPassable(x: string, y: string, values: map<string, string>)
    requires x in values && x != y && IsName(y)
    requires KeepsPlaceholders(x, values[x], values) && !Closes(values[x])
    ensures Passable({x}, y, values)
  {
    var v := values[x];
    if Holds(v, y) {
      var i :| 0 <= i < |v| && Hole(y) <= v[i..];
      PlaceholderIff(v[i..], y);
    }
  }

  // ----- Two values that fail it -----

  /** A value that looks like a placeholder is filled in by a later replacement. */
  lemma BracesInValuesAreReplaced()
    ensures var pieces, values := [Variable("a"), Variable("b")], map["a" := Hole("b"), "b" := "x"];
      Proper(pieces) && ReplaceEach(Print(pieces), ["a", "b"], values) != Substitute(pieces, values)
  {
    var pieces, values := [Variable("a")] + ([Variable("b")] + []), map["a" := Hole("b"), "b" := "x"];
    assert Hole("b")[0..] == Hole("b");
    assert Hole("b")[0] == '{' && "x"[0] == 'x';
    assert Holds(Hole("b"), "b");
    VariableFirst("b", [], {"a"}, values);
    VariableFirst("a", [Variable("b")] + [], {"a"}, values);
    FirstPass(pieces, "a", values);
    OneMore(Print(pieces), ["a"], "b", values);
    assert ["a", "b"] == ["a"] + ["b"];
    LastPass(Hole("b"), "b", "x");
  }

  /** A dollar sign in a value may stand for the placeholder itself. */
  lemma DollarsInValuesAreExpanded()
    ensures var pieces, values := [Variable("a")], map["a" := "$&"];
      Proper(pieces) && ReplaceEach(Print(pieces), ["a"], values) != Substitute(pieces, values)
  {
  }
}
