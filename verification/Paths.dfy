/** Repository file paths: percent-decoding, normalisation, and the prefix test. */
module Paths {
  import opened Wrappers
  import opened Text

  datatype PathError = EmptyPath | InvalidPath | BadEscape

  // ----- Percent-decoding -----

  function HexValue(c: char): Option<nat> {
    if '0' <= c <= '9' then Some((c - '0') as int)
    else if 'a' <= c <= 'f' then Some((c - 'a') as int + 10)
    else if 'A' <= c <= 'F' then Some((c - 'A') as int + 10)
    else None
  }

  const HEX := "0123456789abcdef"
  const UPPER_HEX := "0123456789ABCDEF"

  /** A digit's value is its place in the row of digits. */
  lemma HexValueIs(c: char, v: nat)
    ensures HexValue(c) == Some(v) <==> v < 16 && (c == HEX[v] || c == UPPER_HEX[v])
  {
    assert forall i | 0 <= i < 10 :: HEX[i] as int == 48 + i && UPPER_HEX[i] as int == 48 + i;
    assert forall i | 10 <= i < 16 :: HEX[i] as int == 87 + i && UPPER_HEX[i] as int == 55 + i;
  }

  lemma HexBound(c: char)
    requires HexValue(c).Some?
    ensures HexValue(c).value < 16
  {
  }

  /** url.PathUnescape. */
  function Unescape(s: string): Result<string, PathError> {
    if s == [] then Success([])
    else if s[0] != '%' then
      var rest :- Unescape(s[1..]);
      Success([s[0]] + rest)
    else if |s| < 3 || HexValue(s[1]).None? || HexValue(s[2]).None? then Failure(BadEscape)
    else
      var rest :- Unescape(s[3..]);
      HexBound(s[1]);
      HexBound(s[2]);
      Success([(16 * HexValue(s[1]).value + HexValue(s[2]).value) as char] + rest)
  }

  /** Decoding leaves a text alone exactly when it holds no percent sign; otherwise it shortens it or fails. */
  lemma {:induction false} UnescapeIsIdentityIff(s: string)
    ensures Unescape(s) == Success(s) <==> '%' !in s
    ensures Unescape(s).Success? ==> |Unescape(s).value| <= |s| && (|Unescape(s).value| == |s| ==> '%' !in s)
  {
    if s != [] {
      assert s == [s[0]] + s[1..];
      if s[0] != '%' {
        UnescapeIsIdentityIff(s[1..]);
      } else if Unescape(s).Success? {
        UnescapeIsIdentityIff(s[3..]);
      }
    }
  }

  /** Every character written as a percent sign and two hexadecimal digits. */
  function Escaped(s: string): string
    requires forall c | c in s :: c as int < 256
  {
    if s == [] then []
    else
      assert s[0] in s;
      assert forall c | c in s[1..] :: c in s;
      ['%', HEX[s[0] as int / 16], HEX[s[0] as int % 16]] + Escaped(s[1..])
  }

  lemma EscapeIsRead(c: char, rest: string)
    requires c as int < 256
    ensures Unescape(['%', HEX[c as int / 16], HEX[c as int % 16]] + rest)
         == (if Unescape(rest).Success? then Success([c] + Unescape(rest).value) else Failure(Unescape(rest).error))
  {
    var n := c as int;
    var s := ['%', HEX[n / 16], HEX[n % 16]] + rest;
    HexValueIs(HEX[n / 16], n / 16);
    HexValueIs(HEX[n % 16], n % 16);
    assert s[3..] == rest;
  }

  /** Decoding undoes that. */
  lemma {:induction false} UnescapeEscaped(s: string)
    requires forall c | c in s :: c as int < 256
    ensures Unescape(Escaped(s)) == Success(s)
  {
    if s != [] {
      assert s[0] in s;
      assert forall c | c in s[1..] :: c in s;
      UnescapeEscaped(s[1..]);
      EscapeIsRead(s[0], Escaped(s[1..]));
      assert s == [s[0]] + s[1..];
    }
  }

  /** Decoding again and again, at most n times, until nothing changes. */
  function Decoded(s: string, n: nat): Result<string, PathError>
    decreases n
  {
    if n == 0 then Success(s)
    else
      var next :- Unescape(s);
      if next == s then Success(s) else Decoded(next, n - 1)
  }

  const ROUNDS := 3

  // ----- path.Clean -----

  /** Empty and `.` segments go; `..` takes the segment before it along. */
  function CleanSegments(stack: seq<string>, segments: seq<string>, rooted: bool): seq<string>
    decreases |segments|
  {
    if segments == [] then stack
    else
      var s, rest := segments[0], segments[1..];
      if s == "" || s == "." then CleanSegments(stack, rest, rooted)
      else if s == ".." then
        if stack != [] && stack[|stack| - 1] != ".." then CleanSegments(stack[..|stack| - 1], rest, rooted)
        else if rooted then CleanSegments(stack, rest, rooted)
        else CleanSegments(stack + [".."], rest, rooted)
      else CleanSegments(stack + [s], rest, rooted)
  }

  function Clean(p: string): string {
    var rooted := p != [] && p[0] == '/';
    var body := Join(CleanSegments([], Split(p, '/'), rooted), '/');
    if rooted then "/" + body
    else if body == [] then "."
    else body
  }

  // ----- Normalisation -----

  predicate PlainSegment(s: string) {
    s != "" && s != "." && s != ".."
  }

  predicate PlainSegments(segments: seq<string>) {
    forall i | 0 <= i < |segments| :: PlainSegment(segments[i])
  }

  /** A relative path without empty, `.` or `..` segments and without backslashes. */
  predicate PlainPath(p: string) {
    '\\' !in p && PlainSegments(Split(p, '/'))
  }

  predicate Suspicious(s: string) {
    HasPrefix(s, "/") || '\\' in s
  }

  predicate Contains(s: string, t: string) {
    HasPrefix(s, t) || (s != [] && Contains(s[1..], t))
  }

  lemma {:induction false} ContainedAt(s: string, t: string) returns (i: nat)
    requires Contains(s, t)
    ensures i + |t| <= |s| && s[i..i + |t|] == t
  {
    if HasPrefix(s, t) {
      i := 0;
    } else {
      i := ContainedAt(s[1..], t);
      assert s[1..][i..i + |t|] == s[i + 1..i + 1 + |t|];
      i := i + 1;
    }
  }

  /** The last check of NormalizePath. */
  predicate FailsCleanCheck(p: string) {
    Clean(p) == "." || HasPrefix(Clean(p), "../") || Contains(Clean(p), "/../") || Clean(p) != p
  }

  function Normalize(value: string): Result<string, PathError> {
    var v := Trim(value);
    if v == "" then Failure(EmptyPath)
    else if Suspicious(v) then Failure(InvalidPath)
    else
      var decoded :- Decoded(v, ROUNDS);
      if Suspicious(decoded) || !PlainSegments(Split(decoded, '/')) || FailsCleanCheck(decoded)
      then Failure(InvalidPath)
      else Success(Clean(decoded))
  }

  /** The decoding loop. */
  method Decode(value: string) returns (r: Result<string, PathError>)
    ensures r == Decoded(value, ROUNDS)
  {
    var decoded := value;
    for i := 0 to ROUNDS
      invariant Decoded(value, ROUNDS) == Decoded(decoded, ROUNDS - i)
    {
      var next :- Unescape(decoded);
      if next == decoded { return Success(decoded); }
      decoded := next;
    }
    r := Success(decoded);
  }

  /** The loop over segments. */
  method CheckSegments(segments: seq<string>) returns (plain: bool)
    ensures plain == PlainSegments(segments)
  {
    for i := 0 to |segments|
      invariant PlainSegments(segments[..i])
    {
      assert segments[..i + 1] == segments[..i] + [segments[i]];
      if !PlainSegment(segments[i]) { return false; }
    }
    assert segments[..|segments|] == segments;
    plain := true;
  }

  /** NormalizePath. */
  method NormalizePath(value: string) returns (r: Result<string, PathError>)
    ensures r == Normalize(value)
  {
    var v := Trim(value);
    if v == "" { return Failure(EmptyPath); }
    if Suspicious(v) { return Failure(InvalidPath); }
    var decoded :- Decode(v);
    if Suspicious(decoded) { return Failure(InvalidPath); }
    var plain := CheckSegments(Split(decoded, '/'));
    if !plain { return Failure(InvalidPath); }
    if FailsCleanCheck(decoded) { return Failure(InvalidPath); }
    r := Success(Clean(decoded));
  }

  // ----- Accepted paths -----

  lemma {:induction false} PlainSegmentsStay(stack: seq<string>, segments: seq<string>, rooted: bool)
    requires PlainSegments(segments)
    ensures CleanSegments(stack, segments, rooted) == stack + segments
    decreases |segments|
  {
    if segments == [] {
      assert stack + segments == stack;
    } else {
      assert PlainSegment(segments[0]);
      PlainSegmentsStay(stack + [segments[0]], segments[1..], rooted);
      assert stack + [segments[0]] + segments[1..] == stack + segments;
    }
  }

  lemma FirstSegmentIsEmptyIff(p: string)
    ensures Split(p, '/')[0] == [] <==> p == [] || p[0] == '/'
  {
  }

  lemma PlainPathIsRelative(p: string)
    requires PlainSegments(Split(p, '/'))
    ensures p != [] && p[0] != '/'
  {
    FirstSegmentIsEmptyIff(p);
    assert PlainSegment(Split(p, '/')[0]);
  }

  /** path.Clean leaves such a path alone. */
  lemma CleanIsIdentity(p: string)
    requires PlainSegments(Split(p, '/'))
    ensures Clean(p) == p
  {
    PlainPathIsRelative(p);
    PlainSegmentsStay([], Split(p, '/'), false);
    assert [] + Split(p, '/') == Split(p, '/');
  }

  /** And a path that is one from the root. */
  lemma CleanIsIdentityOnRooted(p: string)
    requires PlainSegments(Split(p, '/'))
    ensures Clean("/" + p) == "/" + p
  {
    var segments := Split(p, '/');
    assert "/" + p == [] + ['/'] + p;
    SplitWhole([]);
    SplitConcat([], p, '/');
    assert Split("/" + p, '/') == [[]] + segments;
    assert ([[]] + segments)[1..] == segments;
    PlainSegmentsStay([], segments, true);
    assert [] + segments == segments;
  }

  /** A stretch between slashes that begins within the first segment is that segment. */
  lemma FirstSegmentAt(first: string, rest: string, i: nat, n: nat)
    requires '/' !in first && i <= |first|
    requires var p := first + ['/'] + rest;
      i + n <= |p| && '/' !in p[i..i + n]
      && (i == 0 || p[i - 1] == '/') && (i + n == |p| || p[i + n] == '/')
    ensures (first + ['/'] + rest)[i..i + n] == first
  {
    var p, h := first + ['/'] + rest, |first|;
    assert p[h] == '/';
    assert forall k | 0 <= k < h :: p[k] == first[k] != '/';
    assert i == 0;
    assert forall k | 0 <= k < n :: p[k] == p[0..n][k] != '/';
  }

  lemma {:induction false} SegmentAt(segments: seq<string>, i: nat, n: nat)
    requires segments != [] && forall s | s in segments :: '/' !in s
    requires var p := Join(segments, '/');
      i + n <= |p| && '/' !in p[i..i + n]
      && (i == 0 || p[i - 1] == '/') && (i + n == |p| || p[i + n] == '/')
    ensures Join(segments, '/')[i..i + n] in segments
    decreases |segments|
  {
    var p, first := Join(segments, '/'), segments[0];
    assert first in segments;
    if |segments| == 1 {
      assert p == first;
      assert i == 0;
      assert i + n == |p|;
      assert p[i..i + n] == p;
    } else {
      var rest := Join(segments[1..], '/');
      if i <= |first| {
        FirstSegmentAt(first, rest, i, n);
      } else {
        var j := i - |first| - 1;
        assert p[|first| + 1..] == rest;
        assert p[i..i + n] == rest[j..j + n];
        assert forall s | s in segments[1..] :: s in segments;
        SegmentAt(segments[1..], j, n);
      }
    }
  }

  lemma DotsAreNoSegment(w: string)
    requires 1 <= |w| <= 2 && forall k | 0 <= k < |w| :: w[k] == '.'
    ensures !PlainSegment(w)
  {
    assert w == "." || w == "..";
  }

  lemma NotPlainMember(segments: seq<string>, w: string)
    requires w in segments && !PlainSegment(w)
    ensures !PlainSegments(segments)
  {
    var j :| 0 <= j < |segments| && segments[j] == w;
  }

  /** A segment of one or two dots makes a path not plain. */
  lemma DotsAreNotPlain(p: string, i: nat, n: nat)
    requires 1 <= n <= 2 && i + n <= |p| && forall k | i <= k < i + n :: p[k] == '.'
    requires (i == 0 || p[i - 1] == '/') && (i + n == |p| || p[i + n] == '/')
    ensures !PlainSegments(Split(p, '/'))
  {
    DotsAmong(p, Split(p, '/'), i, n);
  }

  lemma DotsAmong(p: string, segments: seq<string>, i: nat, n: nat)
    requires segments != [] && Join(segments, '/') == p && forall s | s in segments :: '/' !in s
    requires 1 <= n <= 2 && i + n <= |p| && forall k | i <= k < i + n :: p[k] == '.'
    requires (i == 0 || p[i - 1] == '/') && (i + n == |p| || p[i + n] == '/')
    ensures !PlainSegments(segments)
  {
    SegmentAt(segments, i, n);
    DotsAreNoSegment(p[i..i + n]);
    NotPlainMember(segments, p[i..i + n]);
  }

  lemma DotIsNotPlain()
    ensures !PlainSegments(Split(".", '/'))
  {
    DotsAreNotPlain(".", 0, 1);
  }

  lemma ParentFirst(p: string)
    requires HasPrefix(p, "../")
    ensures !PlainSegments(Split(p, '/'))
  {
    assert p[0] == '.' && p[1] == '.' && p[2] == '/';
    DotsAreNotPlain(p, 0, 2);
  }

  lemma ParentInside(p: string, i: nat)
    requires i + 4 <= |p| && p[i] == '/' && p[i + 1] == '.' && p[i + 2] == '.' && p[i + 3] == '/'
    ensures !PlainSegments(Split(p, '/'))
  {
    DotsAreNotPlain(p, i + 1, 2);
  }

  lemma PlainPathHasNoParents(p: string)
    requires PlainSegments(Split(p, '/'))
    ensures p != "." && !HasPrefix(p, "../") && !Contains(p, "/../")
  {
    DotIsNotPlain();
    if HasPrefix(p, "../") {
      ParentFirst(p);
    }
    if Contains(p, "/../") {
      var i := ContainedAt(p, "/../");
      Window(p, i);
      ParentInside(p, i);
    }
  }

  lemma Window(p: string, i: nat)
    requires i + 4 <= |p| && p[i..i + 4] == "/../"
    ensures p[i] == '/' && p[i + 1] == '.' && p[i + 2] == '.' && p[i + 3] == '/'
  {
    var w := p[i..i + 4];
    assert p[i] == w[0] && p[i + 1] == w[1] && p[i + 2] == w[2] && p[i + 3] == w[3];
  }

  /** A path is accepted exactly when its trimmed text is not suspicious, decodes, and decodes to a plain
      relative path; the final check against path.Clean never rejects. */
  lemma AcceptedIff(value: string, p: string)
    ensures Normalize(value) == Success(p)
       <==> Trim(value) != "" && !Suspicious(Trim(value)) && Decoded(Trim(value), ROUNDS) == Success(p) && PlainPath(p)
  {
    var decoded := Decoded(Trim(value), ROUNDS);
    if decoded.Success? && PlainSegments(Split(decoded.value, '/')) {
      CleanIsIdentity(decoded.value);
      PlainPathHasNoParents(decoded.value);
      PlainPathIsRelative(decoded.value);
    }
  }

  /** Why a path is refused: nothing but white space; an escape that does not decode; or a leading slash, a
      backslash, or an empty or dot segment, before or after decoding. */
  lemma RefusedPathIs(value: string)
    ensures var r, v := Normalize(value), Trim(value);
      if v == "" then r == Failure(EmptyPath)
      else if v[0] == '/' || '\\' in v then r == Failure(InvalidPath)
      else if Decoded(v, 3).Failure? then r == Failure(Decoded(v, 3).error)
      else
        var p := Decoded(v, 3).value;
        if '\\' in p || exists s | s in Split(p, '/') :: s == "" || s == "." || s == ".." then r == Failure(InvalidPath)
        else r == Success(p)
  {
    var v := Trim(value);
    if v != "" && !Suspicious(v) && Decoded(v, 3).Success? {
      AcceptedIff(value, Decoded(v, 3).value);
      PlainIff(Split(Decoded(v, 3).value, '/'));
      if Normalize(value).Success? {
        AcceptedIff(value, Normalize(value).value);
      }
    }
  }

  lemma PlainIff(segments: seq<string>)
    ensures PlainSegments(segments) <==> !exists s | s in segments :: s == "" || s == "." || s == ".."
  {
    if PlainSegments(segments) {
      forall s | s in segments
        ensures s != "" && s != "." && s != ".."
      {
        var i :| 0 <= i < |segments| && segments[i] == s;
        assert PlainSegment(segments[i]);
      }
    } else {
      var i :| 0 <= i < |segments| && !PlainSegment(segments[i]);
      assert segments[i] in segments;
    }
  }

  lemma {:induction false} DecodeErrorIs(s: string)
    ensures Unescape(s).Failure? ==> Unescape(s) == Failure(BadEscape)
  {
    if s != [] {
      if s[0] != '%' { DecodeErrorIs(s[1..]); } else if |s| >= 3 { DecodeErrorIs(s[3..]); }
    }
  }

  /** Accepted paths are non-empty, relative, plain, and what path.Clean makes of them. */
  lemma AcceptedPathsArePlain(value: string)
    requires Normalize(value).Success?
    ensures var p := Normalize(value).value;
      p != [] && p[0] != '/' && PlainPath(p) && Clean(p) == p
  {
    var p := Normalize(value).value;
    AcceptedIff(value, p);
    PlainPathIsRelative(p);
    CleanIsIdentity(p);
  }

  /** Normalising an accepted path again gives the same path exactly when it holds no percent sign, left
      over after three rounds of decoding, and no outer white space, uncovered by decoding. */
  lemma NormalizeAgainIff(value: string)
    requires Normalize(value).Success?
    ensures var p := Normalize(value).value;
      Normalize(p) == Success(p) <==> '%' !in p && Trimmed(p)
  {
    var p := Normalize(value).value;
    AcceptedPathsArePlain(value);
    AcceptedIff(p, p);
    TrimFacts(p);
    UnescapeIsIdentityIff(p);
    if Normalize(p) == Success(p) {
      DecodedLength(Trim(p), ROUNDS);
      UnescapeIsIdentityIff(Trim(p));
    }
  }

  lemma {:induction false} DecodedLength(s: string, n: nat)
    requires Decoded(s, n).Success?
    decreases n
    ensures |Decoded(s, n).value| <= |s|
    ensures n > 0 && '%' in s ==> |Decoded(s, n).value| < |s|
  {
    if n > 0 {
      UnescapeIsIdentityIff(s);
      if Unescape(s).value != s {
        DecodedLength(Unescape(s).value, n - 1);
      }
    }
  }

  lemma FourTimesEncoded()
    ensures Decoded("%25252525", ROUNDS) == Success("%25")
  {
    Peel("%25252525", "%252525");
    Peel("%252525", "%2525");
    Peel("%2525", "%25");
  }

  lemma OnceEncoded()
    ensures Decoded("%25", ROUNDS) == Failure(BadEscape)
  {
    Peel("%25", "%");
    assert Unescape("%") == Failure(BadEscape);
  }

  /** A percent sign encoded four times over is accepted, and refused by the next normalisation. */
  lemma NormalizeAgainCanFail()
    ensures Normalize("%25252525") == Success("%25") && Normalize("%25") == Failure(BadEscape)
  {
    FourTimesEncoded();
    OnceEncoded();
    TrimFacts("%25252525");
    TrimFacts("%25");
    SplitWhole("%25");
    AcceptedIff("%25252525", "%25");
  }

  lemma Peel(s: string, t: string)
    requires |s| >= 3 && s[..3] == "%25" && t == "%" + s[3..] && '%' !in s[3..]
    ensures Unescape(s) == Success(t)
  {
    UnescapeIsIdentityIff(s[3..]);
    assert s[0] == s[..3][0] && s[1] == s[..3][1] && s[2] == s[..3][2];
  }

  lemma SplitWhole(s: string)
    requires '/' !in s
    ensures Split(s, '/') == [s]
  {
  }

  // ----- Prefixes -----

  function TrimSuffix(s: string, suffix: string): string {
    if |suffix| <= |s| && s[|s| - |suffix|..] == suffix then s[..|s| - |suffix|] else s
  }

  function PathWithinPrefix(p: string, prefix: string): bool {
    p == prefix || HasPrefix(p, TrimSuffix(prefix, "/") + "/")
  }

  lemma {:induction false} JoinConcat(xs: seq<string>, ys: seq<string>, sep: char)
    requires xs != [] && ys != []
    ensures Join(xs + ys, sep) == Join(xs, sep) + [sep] + Join(ys, sep)
  {
    if |xs| == 1 {
      assert (xs + ys)[1..] == ys;
    } else {
      JoinConcat(xs[1..], ys, sep);
      assert (xs + ys)[1..] == xs[1..] + ys;
    }
  }

  lemma SplitConcat(a: string, b: string, sep: char)
    ensures Split(a + [sep] + b, sep) == Split(a, sep) + Split(b, sep)
  {
    JoinConcat(Split(a, sep), Split(b, sep), sep);
    SplitJoin(Split(a, sep) + Split(b, sep), sep);
  }

  lemma SplitTrailing(init: string)
    ensures Split(init + ['/'], '/') == Split(init, '/') + [[]]
  {
    SplitWhole([]);
    assert init + ['/'] == init + ['/'] + [];
    SplitConcat(init, [], '/');
  }

  lemma EndsEmpty(init: seq<string>, segments: seq<string>)
    requires segments == init + [[]]
    ensures !PlainSegments(segments)
  {
    assert segments[|init|] == [];
    NotPlainMember(segments, []);
  }

  lemma TrailingSlashIsNotPlain(p: string)
    requires p != [] && p[|p| - 1] == '/'
    ensures !PlainSegments(Split(p, '/'))
  {
    var init := p[..|p| - 1];
    assert p == init + ['/'];
    SplitTrailing(init);
    EndsEmpty(Split(init, '/'), Split(p, '/'));
  }

  lemma PlainPrefixIsTrimmed(prefix: string)
    requires PlainSegments(Split(prefix, '/'))
    ensures TrimSuffix(prefix, "/") == prefix
  {
    PlainPathIsRelative(prefix);
    if prefix[|prefix| - 1] == '/' {
      TrailingSlashIsNotPlain(prefix);
    }
  }

  lemma BelowIsPrefix(p: string, prefix: string)
    requires prefix + ['/'] <= p
    ensures Split(prefix, '/') <= Split(p, '/')
  {
    var rest := p[|prefix| + 1..];
    assert p == prefix + ['/'] + rest;
    SplitConcat(prefix, rest, '/');
  }

  lemma PrefixIsBelow(p: string, prefix: string)
    requires Split(prefix, '/') <= Split(p, '/')
    ensures p == prefix || prefix + ['/'] <= p
  {
    var xs, ys := Split(prefix, '/'), Split(p, '/');
    if |xs| == |ys| {
      assert xs == ys;
    } else {
      var rest := ys[|xs|..];
      assert ys == xs + rest;
      JoinConcat(xs, rest, '/');
      assert p == prefix + ['/'] + Join(rest, '/');
    }
  }

  /** On plain paths the text prefix test is the test on segments: `docs` covers `docs/a`, not `docs2`. */
  lemma WithinPrefixIff(p: string, prefix: string)
    requires PlainSegments(Split(p, '/')) && PlainSegments(Split(prefix, '/'))
    ensures PathWithinPrefix(p, prefix) <==> Split(prefix, '/') <= Split(p, '/')
  {
    PlainPrefixIsTrimmed(prefix);
    if prefix + ['/'] <= p {
      BelowIsPrefix(p, prefix);
    }
    if Split(prefix, '/') <= Split(p, '/') {
      PrefixIsBelow(p, prefix);
    }
  }

  // ----- Trees -----

  datatype TreeItem = TreeItem(path: string, size: int)

  function Filtered(tree: seq<TreeItem>, prefix: string): seq<TreeItem> {
    if tree == [] then []
    else
      var init := Filtered(tree[..|tree| - 1], prefix);
      if PathWithinPrefix(tree[|tree| - 1].path, prefix) then init + [tree[|tree| - 1]] else init
  }

  /** FilterTree. */
  method FilterTree(tree: seq<TreeItem>, prefix: string) returns (filtered: seq<TreeItem>)
    ensures filtered == Filtered(tree, prefix)
  {
    filtered := [];
    for i := 0 to |tree|
      invariant filtered == Filtered(tree[..i], prefix)
    {
      assert tree[..i + 1][..i] == tree[..i];
      if PathWithinPrefix(tree[i].path, prefix) {
        filtered := filtered + [tree[i]];
      }
    }
    assert tree[..|tree|] == tree;
  }

  /** Order is kept: what is kept of two parts is what is kept of each, one after the other. */
  lemma {:induction false} FilteredInOrder(a: seq<TreeItem>, b: seq<TreeItem>, prefix: string)
    ensures Filtered(a + b, prefix) == Filtered(a, prefix) + Filtered(b, prefix)
    ensures |a| == 1 ==> Filtered(a, prefix) == if PathWithinPrefix(a[0].path, prefix) then a else []
  {
    if |a| == 1 {
      assert a[..0] == [] && a == [a[0]];
    }
    if b == [] {
      assert a + b == a;
    } else {
      var n := |b| - 1;
      assert (a + b)[..|a| + n] == a + b[..n];
      FilteredInOrder(a, b[..n], prefix);
    }
  }

  /** The items kept are those of the tree below the prefix, as often as they occur. */
  lemma FilteredIs(tree: seq<TreeItem>, prefix: string, x: TreeItem)
    requires PlainSegments(Split(x.path, '/')) && PlainSegments(Split(prefix, '/'))
    ensures multiset(Filtered(tree, prefix))[x]
         == if Split(prefix, '/') <= Split(x.path, '/') then multiset(tree)[x] else 0
  {
    WithinPrefixIff(x.path, prefix);
    FilteredCount(tree, prefix, x);
  }

  lemma {:induction false} FilteredCount(tree: seq<TreeItem>, prefix: string, x: TreeItem)
    ensures multiset(Filtered(tree, prefix))[x] == if PathWithinPrefix(x.path, prefix) then multiset(tree)[x] else 0
  {
    if tree != [] {
      var init, last := tree[..|tree| - 1], tree[|tree| - 1];
      FilteredCount(init, prefix, x);
      assert tree == init + [last];
      assert multiset(tree)[x] == multiset(init)[x] + if last == x then 1 else 0;
      assert multiset(Filtered(init, prefix) + [last])[x]
          == multiset(Filtered(init, prefix))[x] + if last == x then 1 else 0;
    }
  }
}
