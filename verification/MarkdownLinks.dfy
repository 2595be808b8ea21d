/** The scanner for inline markdown links: where a destination ends, and which destinations are found. */
module MarkdownLinks {
  import opened Wrappers

  // ----- The closing parenthesis -----

  /** Distance to the parenthesis that closes a destination, from a point `depth` parentheses deep. */
  function Closing(t: string, depth: nat): (r: Option<nat>)
    ensures r.Some? ==> r.value < |t|
  {
    if t == [] then None
    else if t[0] == '\\' then
      if |t| == 1 then None else Shifted(Closing(t[2..], depth), 2)
    else if t[0] == '(' then Shifted(Closing(t[1..], depth + 1), 1)
    else if t[0] == ')' then
      if depth == 0 then Some(0) else Shifted(Closing(t[1..], depth - 1), 1)
    else Shifted(Closing(t[1..], depth), 1)
  }

  function Shifted(r: Option<nat>, n: nat): Option<nat> {
    if r.Some? then Some(r.value + n) else None
  }

  /** The scanner's answer from its state in the middle of a text. */
  function Resume(t: string, i: nat, depth: nat, escaped: bool): int
    requires i <= |t|
  {
    if escaped && i == |t| then -1
    else
      var skip := if escaped then i + 1 else i;
      match Closing(t[skip..], depth)
      case None => -1
      case Some(k) => skip + k
  }

  /** findClosingMarkdownParen. */
  method FindClosing(markdown: string, start: nat) returns (end: int)
    requires start <= |markdown|
    ensures end == Resume(markdown, start, 0, false)
  {
    var depth := 0;
    var escaped := false;
    for i := start to |markdown|
      invariant depth >= 0
      invariant Resume(markdown, i, depth, escaped) == Resume(markdown, start, 0, false)
    {
      var rest := markdown[i..];
      assert rest[1..] == markdown[i + 1..];
      assert |rest| >= 2 ==> rest[2..] == markdown[i + 2..];
      if escaped {
        escaped := false;
      } else if markdown[i] == '\\' {
        escaped := true;
      } else if markdown[i] == '(' {
        depth := depth + 1;
      } else if markdown[i] == ')' {
        if depth == 0 { return i; }
        depth := depth - 1;
      }
    }
    end := -1;
  }

  // ----- What a destination is -----

  /** Texts whose unescaped parentheses match: plain characters, escaped characters and groups. */
  datatype Balanced = End | Plain(c: char, rest: Balanced) | Escape(c: char, rest: Balanced)
                    | Group(inner: Balanced, rest: Balanced)

  function Print(x: Balanced): string {
    match x
    case End => []
    case Plain(c, rest) => [c] + Print(rest)
    case Escape(c, rest) => ['\\', c] + Print(rest)
    case Group(inner, rest) => ['('] + Print(inner) + [')'] + Print(rest)
  }

  predicate WellFormed(x: Balanced) {
    match x
    case End => true
    case Plain(c, rest) => Ordinary(c) && WellFormed(rest)
    case Escape(c, rest) => WellFormed(rest)
    case Group(inner, rest) => WellFormed(inner) && WellFormed(rest)
  }

  ghost predicate IsBalanced(t: string) {
    exists x :: WellFormed(x) && Print(x) == t
  }

  predicate Ordinary(c: char) {
    c != '\\' && c != '(' && c != ')'
  }

  lemma ClosingStep(c: char, t: string, depth: nat)
    ensures ([c] + t)[1..] == t
    ensures Ordinary(c) ==> Closing([c] + t, depth) == Shifted(Closing(t, depth), 1)
    ensures c == '(' ==> Closing([c] + t, depth) == Shifted(Closing(t, depth + 1), 1)
    ensures c == ')' && depth > 0 ==> Closing([c] + t, depth) == Shifted(Closing(t, depth - 1), 1)
  {
    assert ([c] + t)[1..] == t;
  }

  lemma ClosingEscape(c: char, t: string, depth: nat)
    ensures Closing(['\\', c] + t, depth) == Shifted(Closing(t, depth), 2)
  {
    assert (['\\', c] + t)[2..] == t;
  }

  /** The scanner passes over a balanced text without a change of depth. */
  lemma {:induction false} PassesOver(x: Balanced, t: string, depth: nat)
    requires WellFormed(x)
    ensures Closing(Print(x) + t, depth) == Shifted(Closing(t, depth), |Print(x)|)
    decreases x, 1
  {
    match x
    case End =>
      assert Print(x) + t == t;
    case Plain(c, rest) =>
      assert Print(x) + t == [c] + (Print(rest) + t);
      ClosingStep(c, Print(rest) + t, depth);
      PassesOver(rest, t, depth);
    case Escape(c, rest) =>
      assert Print(x) + t == ['\\', c] + (Print(rest) + t);
      ClosingEscape(c, Print(rest) + t, depth);
      PassesOver(rest, t, depth);
    case Group(inner, rest) =>
      PassesOverGroup(inner, rest, t, depth);
  }

  lemma {:induction false} PassesOverGroup(inner: Balanced, rest: Balanced, t: string, depth: nat)
    requires WellFormed(inner) && WellFormed(rest)
    ensures Closing(Print(Group(inner, rest)) + t, depth) == Shifted(Closing(t, depth), |Print(Group(inner, rest))|)
    decreases Group(inner, rest), 0
  {
    PassesOver(rest, t, depth);
    PassesOver(inner, [')'] + (Print(rest) + t), depth + 1);
    AroundGroup(Print(inner), Print(rest), t, depth);
  }

  lemma AroundGroup(inner: string, rest: string, t: string, depth: nat)
    requires Closing(rest + t, depth) == Shifted(Closing(t, depth), |rest|)
    requires Closing(inner + ([')'] + (rest + t)), depth + 1)
          == Shifted(Closing([')'] + (rest + t), depth + 1), |inner|)
    ensures Closing(['('] + inner + [')'] + rest + t, depth) == Shifted(Closing(t, depth), |inner| + |rest| + 2)
  {
    var tail := [')'] + (rest + t);
    assert ['('] + inner + [')'] + rest + t == ['('] + (inner + tail);
    ClosingStep(')', rest + t, depth + 1);
    ClosingStep('(', inner + tail, depth);
  }

  /** What lies before the closing parenthesis, some parentheses deep: balanced texts, each but the last
      ended by the parenthesis that leads one level up. */
  datatype Levels = Last(x: Balanced) | Level(x: Balanced, up: Levels)

  function Depth(levels: Levels): nat {
    if levels.Last? then 0 else 1 + Depth(levels.up)
  }

  function PrintLevels(levels: Levels): string {
    if levels.Last? then Print(levels.x) else Print(levels.x) + [')'] + PrintLevels(levels.up)
  }

  predicate AllWellFormed(levels: Levels) {
    WellFormed(levels.x) && (levels.Level? ==> AllWellFormed(levels.up))
  }

  /** The innermost level becomes a group at the start of the next. */
  function Grouped(levels: Levels): Levels
    requires levels.Level?
  {
    levels.up.(x := Group(levels.x, levels.up.x))
  }

  lemma GroupedIs(levels: Levels)
    requires levels.Level? && AllWellFormed(levels)
    ensures AllWellFormed(Grouped(levels)) && Depth(Grouped(levels)) == Depth(levels) - 1
    ensures PrintLevels(Grouped(levels)) == ['('] + PrintLevels(levels)
  {
    var x, y := levels.x, levels.up.x;
    assert Print(Group(x, y)) == ['('] + Print(x) + [')'] + Print(y);
  }

  lemma HeadReplaced(levels: Levels, y: Balanced, p: string)
    requires AllWellFormed(levels) && WellFormed(y) && Print(y) == p + Print(levels.x)
    ensures var r := levels.(x := y);
      AllWellFormed(r) && Depth(r) == Depth(levels) && PrintLevels(r) == p + PrintLevels(levels)
  {
  }

  lemma Unshifted(t: string, n: nat, k: nat)
    requires n <= k <= |t|
    ensures t[..k] == t[..n] + t[n..][..k - n]
  {
  }

  lemma {:induction false} Parse(t: string, depth: nat) returns (levels: Levels)
    requires Closing(t, depth).Some?
    ensures Depth(levels) == depth && AllWellFormed(levels)
    ensures PrintLevels(levels) == t[..Closing(t, depth).value]
    ensures t[Closing(t, depth).value] == ')'
    decreases |t|
  {
    var k := Closing(t, depth).value;
    if t[0] == '\\' {
      var inner := Parse(t[2..], depth);
      levels := ParsedEscape(t, k, inner);
    } else if t[0] == ')' && depth == 0 {
      levels := Last(End);
    } else {
      var inner := Parse(t[1..], if t[0] == '(' then depth + 1 else if t[0] == ')' then depth - 1 else depth);
      levels := ParsedStep(t, k, inner);
    }
  }

  lemma ParsedEscape(t: string, k: nat, inner: Levels) returns (levels: Levels)
    requires |t| >= 2 && t[0] == '\\' && 2 <= k <= |t|
    requires AllWellFormed(inner) && PrintLevels(inner) == t[2..][..k - 2]
    ensures AllWellFormed(levels) && Depth(levels) == Depth(inner) && PrintLevels(levels) == t[..k]
  {
    Unshifted(t, 2, k);
    assert t[..2] == ['\\', t[1]];
    levels := inner.(x := Escape(t[1], inner.x));
    HeadReplaced(inner, levels.x, t[..2]);
  }

  lemma ParsedStep(t: string, k: nat, inner: Levels) returns (levels: Levels)
    requires 1 <= k <= |t| && t[0] != '\\' && (t[0] == '(' ==> Depth(inner) > 0)
    requires AllWellFormed(inner) && PrintLevels(inner) == t[1..][..k - 1]
    ensures AllWellFormed(levels) && PrintLevels(levels) == t[..k]
    ensures Depth(levels) == Depth(inner) + (if t[0] == '(' then -1 else if t[0] == ')' then 1 else 0)
  {
    Unshifted(t, 1, k);
    assert t[..1] == [t[0]];
    if t[0] == '(' {
      GroupedIs(inner);
      levels := Grouped(inner);
    } else if t[0] == ')' {
      levels := Level(End, inner);
    } else {
      levels := inner.(x := Plain(t[0], inner.x));
      HeadReplaced(inner, levels.x, t[..1]);
    }
  }

  /** What lies before the stop is balanced. */
  lemma StopIsBalanced(t: string)
    requires Closing(t, 0).Some?
    ensures t[Closing(t, 0).value] == ')' && IsBalanced(t[..Closing(t, 0).value])
  {
    var levels := Parse(t, 0);
    assert WellFormed(levels.x) && Print(levels.x) == t[..Closing(t, 0).value];
  }

  /** A closing parenthesis after a balanced text is the stop. */
  lemma StopsAfterBalanced(t: string, k: nat)
    requires k < |t| && t[k] == ')' && IsBalanced(t[..k])
    ensures Closing(t, 0) == Some(k)
  {
    var x :| WellFormed(x) && Print(x) == t[..k];
    PassesOver(x, t[k..], 0);
    assert t == Print(x) + t[k..];
  }

  /** The scanner stops at k exactly when a closing parenthesis stands there and everything before it is
      balanced. */
  lemma ClosingIff(t: string, k: nat)
    ensures Closing(t, 0) == Some(k) <==> k < |t| && t[k] == ')' && IsBalanced(t[..k])
  {
    if Closing(t, 0) == Some(k) {
      StopIsBalanced(t);
    }
    if k < |t| && t[k] == ')' && IsBalanced(t[..k]) {
      StopsAfterBalanced(t, k);
    }
  }

  /** It finds nothing exactly when no closing parenthesis has a balanced text before it. */
  lemma NoClosingIff(t: string)
    ensures Closing(t, 0).None? <==> forall k: nat | k < |t| && t[k] == ')' :: !IsBalanced(t[..k])
  {
    forall k: nat | k < |t| && t[k] == ')'
      ensures IsBalanced(t[..k]) <==> Closing(t, 0) == Some(k)
    {
      ClosingIff(t, k);
    }
    if Closing(t, 0).Some? {
      ClosingIff(t, Closing(t, 0).value);
    }
  }

  // ----- Extraction -----

  /** A destination as a half-open range of positions. */
  datatype Span = Span(start: nat, end: nat)

  predicate OpensAt(markdown: string, i: nat) {
    i + 1 < |markdown| && markdown[i] == ']' && markdown[i + 1] == '('
  }

  /** Whether a destination starts at i + 2 and has an end. */
  predicate LinkAt(markdown: string, i: nat) {
    OpensAt(markdown, i) && Closing(markdown[i + 2..], 0).Some?
  }

  function SpanAt(markdown: string, i: nat): (span: Span)
    requires LinkAt(markdown, i)
    ensures i + 2 == span.start <= span.end < |markdown|
  {
    Span(i + 2, i + 2 + Closing(markdown[i + 2..], 0).value)
  }

  /** From position i on: the leftmost link, then on after its closing parenthesis. */
  function SpansFrom(markdown: string, i: nat): seq<Span>
    decreases |markdown| - i
  {
    if i + 1 >= |markdown| then []
    else if LinkAt(markdown, i) then [SpanAt(markdown, i)] + SpansFrom(markdown, SpanAt(markdown, i).end + 1)
    else SpansFrom(markdown, i + 1)
  }

  /** The text of a span. */
  function TextAt(markdown: string, span: Span): string {
    if span.start <= span.end <= |markdown| then markdown[span.start..span.end] else ""
  }

  /** extractInlineMarkdownDestinations: the texts of the spans. */
  method ExtractDestinations(markdown: string) returns (refs: seq<string>)
    ensures |refs| == |SpansFrom(markdown, 0)|
    ensures forall j | 0 <= j < |refs| :: refs[j] == TextAt(markdown, SpansFrom(markdown, 0)[j])
  {
    refs := [];
    ghost var spans: seq<Span> := [];
    var i := 0;
    while i < |markdown| - 1
      invariant 0 <= i
      invariant spans + SpansFrom(markdown, i) == SpansFrom(markdown, 0)
      invariant |refs| == |spans|
      invariant forall j | 0 <= j < |refs| :: refs[j] == TextAt(markdown, spans[j])
      decreases |markdown| - i
    {
      if markdown[i] != ']' || markdown[i + 1] != '(' {
        i := i + 1;
        continue;
      }
      var start := i + 2;
      var end := FindClosing(markdown, start);
      if end < 0 {
        i := i + 1;
        continue;
      }
      refs := refs + [markdown[start..end]];
      spans := spans + [Span(start, end)];
      i := end + 1;
    }
  }

  /** The spans found: each is a balanced destination between `](` and `)`. */
  lemma {:induction false} SpansAreLinks(markdown: string, i: nat, j: nat)
    requires j < |SpansFrom(markdown, i)|
    ensures var span := SpansFrom(markdown, i)[j];
      && i + 2 <= span.start <= span.end < |markdown|
      && markdown[span.start - 2] == ']' && markdown[span.start - 1] == '(' && markdown[span.end] == ')'
      && IsBalanced(markdown[span.start..span.end])
    decreases |markdown| - i
  {
    if LinkAt(markdown, i) {
      if j == 0 {
        SpanIsLink(markdown, i);
      } else {
        SpansAreLinks(markdown, SpanAt(markdown, i).end + 1, j - 1);
      }
    } else {
      SpansAreLinks(markdown, i + 1, j);
    }
  }

  lemma SpanIsLink(markdown: string, i: nat)
    requires LinkAt(markdown, i)
    ensures var span := SpanAt(markdown, i);
      markdown[span.end] == ')' && IsBalanced(markdown[span.start..span.end])
  {
    var span := SpanAt(markdown, i);
    StopIsBalanced(markdown[i + 2..]);
    assert markdown[i + 2..][..span.end - span.start] == markdown[span.start..span.end];
  }

  /** They come from left to right and do not overlap. */
  lemma {:induction false} SpansAreOrdered(markdown: string, i: nat, j: nat, k: nat)
    requires j < k < |SpansFrom(markdown, i)|
    ensures SpansFrom(markdown, i)[j].end < SpansFrom(markdown, i)[k].start
    decreases |markdown| - i
  {
    if LinkAt(markdown, i) {
      var next := SpanAt(markdown, i).end + 1;
      if j == 0 {
        SpansAreLinks(markdown, next, k - 1);
      } else {
        SpansAreOrdered(markdown, next, j - 1, k - 1);
      }
    } else {
      SpansAreOrdered(markdown, i + 1, j, k);
    }
  }

  lemma SpanEnds(markdown: string, i: nat)
    requires LinkAt(markdown, i)
    ensures markdown[SpanAt(markdown, i).end] == ')'
  {
    StopIsBalanced(markdown[i + 2..]);
  }

  /** None is missed: a link is extracted, unless it starts inside an extracted destination. */
  lemma EveryLinkIsCovered(markdown: string, i: nat, at: nat) returns (j: nat)
    requires i <= at && at + 1 < |markdown| && markdown[at] == ']' && markdown[at + 1] == '('
    requires Closing(markdown[at + 2..], 0).Some?
    ensures j < |SpansFrom(markdown, i)|
    ensures var span := SpansFrom(markdown, i)[j];
      || (span.start == at + 2 && span.end == at + 2 + Closing(markdown[at + 2..], 0).value)
      || span.start <= at < span.end
  {
    j := LinkIsCovered(markdown, i, at);
  }

  lemma {:induction false} LinkIsCovered(markdown: string, i: nat, at: nat) returns (j: nat)
    requires i <= at && LinkAt(markdown, at)
    ensures j < |SpansFrom(markdown, i)|
    ensures var span := SpansFrom(markdown, i)[j];
      span == SpanAt(markdown, at) || span.start <= at < span.end
    decreases |markdown| - i
  {
    if LinkAt(markdown, i) {
      var span := SpanAt(markdown, i);
      if at == i {
        return 0;
      }
      SpanEnds(markdown, i);
      if at < span.end {
        return 0;
      }
      j := LinkIsCovered(markdown, span.end + 1, at);
      return j + 1;
    } else {
      j := LinkIsCovered(markdown, i + 1, at);
    }
  }
}
