/** Whom the login limiter refuses: attempts from an address, or for an email, or for both together, that has failed
    too often; told from the events alone. */
module LoginSharing {
  import opened Wrappers
  import opened Text
  import opened Windows
  import opened Spans
  import opened LoginLimits
  import opened LoginSpans

  // ----- What attempts share -----

  predicate SameIp(a: Attempt, b: Attempt) {
    Trim(a.ip) == Trim(b.ip)
  }

  /** Up to case and outer white space. */
  predicate SameEmail(a: Attempt, b: Attempt) {
    Lower(Trim(a.email)) == Lower(Trim(b.email))
  }

  /** Address and email, written one after the other. */
  function Pair(a: Attempt): string {
    Trim(a.ip) + ":" + Lower(Trim(a.email))
  }

  datatype Bond = ByIp | ByEmail | ByPair

  predicate Shares(bond: Bond, a: Attempt, b: Attempt) {
    match bond
    case ByIp => SameIp(a, b)
    case ByEmail => SameEmail(a, b)
    case ByPair => Pair(a) == Pair(b)
  }

  /** The key on which the limiter counts a bond. */
  function BondKey(bond: Bond, a: Attempt): string {
    var keys := LoginKeys(a.ip, a.email);
    match bond
    case ByIp => keys[0]
    case ByEmail => keys[1]
    case ByPair => keys[2]
  }

  lemma PrefixCancels(p: string, s: string, t: string)
    ensures p + s == p + t <==> s == t
  {
    assert (p + s)[|p|..] == s && (p + t)[|p|..] == t;
  }

  lemma KeyTexts(a: Attempt)
    ensures BondKey(ByIp, a) == "ip:" + Trim(a.ip)
    ensures BondKey(ByEmail, a) == "email:" + Lower(Trim(a.email))
    ensures BondKey(ByPair, a) == "ip-email:" + Pair(a)
  {
    var ip, email := Trim(a.ip), Lower(Trim(a.email));
    assert "ip-email:" + ip + ":" + email == "ip-email:" + (ip + ":" + email);
  }

  lemma KindsDiffer(x: string, y: string, z: string)
    ensures "ip:" + x != "email:" + y && "email:" + y != "ip-email:" + z && "ip:" + x != "ip-email:" + z
  {
    assert ("ip:" + x)[0] == 'i' && ("email:" + y)[0] == 'e' && ("ip-email:" + z)[0] == 'i';
    assert ("ip:" + x)[2] == ':' && ("ip-email:" + z)[2] == '-';
  }

  /** An attempt counts on a key of another exactly when they share what the key stands for. */
  lemma CountsOnIff(bond: Bond, a: Attempt, b: Attempt)
    ensures BondKey(bond, b) in LoginKeys(a.ip, a.email) <==> Shares(bond, a, b)
  {
    KeyTexts(a);
    KeyTexts(b);
    KindsDiffer(Trim(a.ip), Lower(Trim(b.email)), Pair(b));
    KindsDiffer(Trim(b.ip), Lower(Trim(a.email)), Pair(a));
    KindsDiffer(Trim(a.ip), Lower(Trim(a.email)), Pair(b));
    KindsDiffer(Trim(b.ip), Lower(Trim(b.email)), Pair(a));
    PrefixCancels("ip:", Trim(a.ip), Trim(b.ip));
    PrefixCancels("email:", Lower(Trim(a.email)), Lower(Trim(b.email)));
    PrefixCancels("ip-email:", Pair(a), Pair(b));
    assert forall k | k in LoginKeys(a.ip, a.email) :: exists c :: k == BondKey(c, a) by {
      forall k | k in LoginKeys(a.ip, a.email)
        ensures exists c :: k == BondKey(c, a)
      {
        assert k == BondKey(ByIp, a) || k == BondKey(ByEmail, a) || k == BondKey(ByPair, a);
      }
    }
    assert BondKey(bond, a) in LoginKeys(a.ip, a.email);
  }

  predicate NoColons(a: Attempt, b: Attempt) {
    || (':' !in Trim(a.ip) && ':' !in Trim(b.ip))
    || (':' !in Lower(Trim(a.email)) && ':' !in Lower(Trim(b.email)))
  }

  /** Pairs coincide when both parts do; and only then, unless addresses and emails both hold colons. */
  lemma PairsCoincideIff(a: Attempt, b: Attempt)
    ensures SameIp(a, b) && SameEmail(a, b) ==> Pair(a) == Pair(b)
    ensures NoColons(a, b) ==> (Pair(a) == Pair(b) <==> SameIp(a, b) && SameEmail(a, b))
  {
    if Pair(a) == Pair(b) && NoColons(a, b) {
      Halves(Trim(a.ip), Lower(Trim(a.email)), Trim(b.ip), Lower(Trim(b.email)));
    }
  }

  lemma Halves(x: string, y: string, u: string, v: string)
    requires x + ":" + y == u + ":" + v
    requires (':' !in x && ':' !in u) || (':' !in y && ':' !in v)
    ensures x == u && y == v
  {
    FirstIsLonger(x, y, u, v);
    FirstIsLonger(u, v, x, y);
    var s := x + ":" + y;
    assert s[..|x|] == x && s[..|u|] == u && s[|x| + 1..] == y && s[|u| + 1..] == v;
  }

  lemma FirstIsLonger(x: string, y: string, u: string, v: string)
    requires x + ":" + y == u + ":" + v
    ensures |x| < |u| ==> ':' in u && ':' in y
  {
    if |x| < |u| {
      var s := x + ":" + y;
      assert s[|x|] == ':' && s[|u|] == ':';
      assert s[|x|] == u[|x|] && s[|u|] == y[|u| - |x| - 1];
    }
  }

  /** They can coincide for attempts that share neither. */
  lemma PairsCanCoincide()
    ensures var a, b := Attempt("1:2", "x"), Attempt("1", "2:x");
      Pair(a) == Pair(b) && !SameIp(a, b) && !SameEmail(a, b)
  {
    TrimFacts("1:2");
    TrimFacts("1");
    TrimFacts("2:x");
    TrimFacts("x");
    assert Lower("x") == "x" && Lower("2:x") == "2:x";
    assert |"1:2"| != |"1"| && |"x"| != |"2:x"|;
  }

  // ----- Failures, told from the events -----

  /** The outcome of a pending attempt that shares the bond with a. */
  predicate Touches(bond: Bond, a: Attempt, s: Service, e: Event) {
    !e.Begin? && e.which < |s.pending| && Shares(bond, s.pending[e.which], a)
  }

  /** The failures from some time on of attempts that share the bond with a, since the last success of one. */
  function FailuresOf(bond: Bond, a: Attempt, events: seq<Event>, from: int, limit: nat, window: int): nat {
    if events == [] then 0
    else
      var n := |events| - 1;
      var e, touches := events[n], Touches(bond, a, Run(events[..n], limit, window), events[n]);
      if touches && e.Succeed? then 0
      else FailuresOf(bond, a, events[..n], from, limit, window) + if touches && e.Fail? && from <= e.at then 1 else 0
  }

  /** The window that the last of them counted in. */
  ghost function BondWindow(bond: Bond, a: Attempt, events: seq<Event>, limit: nat, window: int): Option<Window> {
    if events == [] then None
    else
      var n := |events| - 1;
      var w, e := BondWindow(bond, a, events[..n], limit, window), events[n];
      if !Touches(bond, a, Run(events[..n], limit, window), e) then w
      else if e.Fail? then Some(Counted(w, e.at, window))
      else if e.Succeed? then None
      else w
  }

  lemma TouchesIff(bond: Bond, a: Attempt, s: Service, e: Event)
    ensures Touches(bond, a, s, e) <==> Concerns(s, e, BondKey(bond, a))
  {
    if !e.Begin? && e.which < |s.pending| {
      CountsOnIff(bond, s.pending[e.which], a);
    }
  }

  lemma {:induction false} FailuresAgree(bond: Bond, a: Attempt, events: seq<Event>, from: int, limit: nat, window: int)
    ensures FailuresOf(bond, a, events, from, limit, window)
         == FailuresFrom(events, BondKey(bond, a), from, limit, window)
  {
    if events != [] {
      var n := |events| - 1;
      FailuresAgree(bond, a, events[..n], from, limit, window);
      TouchesIff(bond, a, Run(events[..n], limit, window), events[n]);
    }
  }

  lemma {:induction false} WindowsAgree(bond: Bond, a: Attempt, events: seq<Event>, limit: nat, window: int)
    ensures BondWindow(bond, a, events, limit, window) == LastWindow(events, BondKey(bond, a), limit, window)
  {
    if events != [] {
      var n := |events| - 1;
      WindowsAgree(bond, a, events[..n], limit, window);
      TouchesIff(bond, a, Run(events[..n], limit, window), events[n]);
    }
  }

  // ----- Who is refused -----

  predicate Refused(events: seq<Event>, a: Attempt, at: int, limit: nat, window: int) {
    var s := Run(events, limit, window);
    |Step(s, Begin(a, at), limit, window).pending| == |s.pending|
  }

  /** The window of the bond is running and full. */
  ghost predicate Blocks(bond: Bond, a: Attempt, events: seq<Event>, at: int, limit: nat, window: int) {
    var w := BondWindow(bond, a, events, limit, window);
    w.Some? && at < w.value.ends && w.value.count >= limit
  }

  lemma FullIff(events: seq<Event>, k: string, at: int, limit: nat, window: int)
    requires Ordered(events) && NotBefore(events, at) && window > 0
    ensures var w, t := LastWindow(events, k, limit, window), Prune(Run(events, limit, window).table, at);
      Full(t, k, at, limit) <==> w.Some? && at < w.value.ends && w.value.count >= limit
  {
    RunIsTracked(events, k, limit, window);
  }

  lemma BlocksIff(bond: Bond, a: Attempt, events: seq<Event>, at: int, limit: nat, window: int)
    requires Ordered(events) && NotBefore(events, at) && window > 0
    ensures Blocks(bond, a, events, at, limit, window)
       <==> Full(Prune(Run(events, limit, window).table, at), BondKey(bond, a), at, limit)
  {
    WindowsAgree(bond, a, events, limit, window);
    FullIff(events, BondKey(bond, a), at, limit, window);
  }

  /** An attempt is refused exactly when the window of its address, of its email or of both together is running
      and full. */
  lemma RefusedIff(events: seq<Event>, a: Attempt, at: int, limit: nat, window: int)
    requires Ordered(events) && NotBefore(events, at) && window > 0
    ensures Refused(events, a, at, limit, window) <==> exists bond :: Blocks(bond, a, events, at, limit, window)
  {
    var t, keys := Prune(Run(events, limit, window).table, at), LoginKeys(a.ip, a.email);
    BlocksIff(ByIp, a, events, at, limit, window);
    BlocksIff(ByEmail, a, events, at, limit, window);
    BlocksIff(ByPair, a, events, at, limit, window);
    assert AnyFull(t, keys, at, limit)
      <==> Full(t, keys[0], at, limit) || Full(t, keys[1], at, limit) || Full(t, keys[2], at, limit);
    if bond :| Blocks(bond, a, events, at, limit, window) {
      assert bond == ByIp || bond == ByEmail || bond == ByPair;
    }
  }

  // ----- Enough failures within a window -----

  /** A window opened with a failure. */
  lemma {:induction false} WindowOpenedByFailure(events: seq<Event>, k: string, limit: nat, window: int)
    requires window > 0 && Ordered(events)
    ensures var w := LastWindow(events, k, limit, window);
      w.Some? ==> w.value.count > 0 && FailuresFrom(events, k, w.value.ends - window, limit, window) > 0
  {
    if events != [] {
      assert Ordered(events[..|events| - 1]);
      WindowOpenedByFailure(events[..|events| - 1], k, limit, window);
      RunIsTracked(events[..|events| - 1], k, limit, window);
      LastIsNotBefore(events);
    }
  }

  lemma {:induction false} NoneFromLater(events: seq<Event>, k: string, t0: int, limit: nat, window: int)
    requires NotBefore(events, t0 - 1)
    ensures FailuresFrom(events, k, t0, limit, window) == 0
  {
    if events != [] {
      assert NotBefore(events[..|events| - 1], t0 - 1);
      NoneFromLater(events[..|events| - 1], k, t0, limit, window);
    }
  }

  /** No failure in the window length before t0: then the running window opened at t0 or later, and has
      counted every failure since. */
  lemma {:induction false} QuietWindow(events: seq<Event>, k: string, t0: int, now: int, limit: nat, window: int)
    requires window > 0 && Ordered(events) && NotBefore(events, now) && now < t0 + window
    requires FailuresFrom(events, k, t0 - window + 1, limit, window) == FailuresFrom(events, k, t0, limit, window) > 0
    ensures var w := LastWindow(events, k, limit, window);
      w.Some? && w.value.count == FailuresFrom(events, k, t0, limit, window) && w.value.ends >= t0 + window
  {
    var m := |events| - 1;
    var init, e, s := events[..m], events[m], Run(events[..m], limit, window);
    assert Ordered(init) && NotBefore(init, now);
    if e.Fail? && Concerns(s, e, k) {
      QuietBefore(events, k, t0, limit, window);
      if FailuresFrom(init, k, t0, limit, window) > 0 {
        QuietWindow(init, k, t0, now, limit, window);
      } else {
        FirstFailureOpens(init, k, t0, limit, window);
      }
    } else {
      QuietWindow(init, k, t0, now, limit, window);
    }
  }

  /** The last failure lies at t0 or later, and before it things were as quiet. */
  lemma QuietBefore(events: seq<Event>, k: string, t0: int, limit: nat, window: int)
    requires window > 0 && Ordered(events) && events != []
    requires FailuresFrom(events, k, t0 - window + 1, limit, window) == FailuresFrom(events, k, t0, limit, window) > 0
    requires var m := |events| - 1; events[m].Fail? && Concerns(Run(events[..m], limit, window), events[m], k)
    ensures var init := events[..|events| - 1];
      && events[|events| - 1].at >= t0
      && FailuresFrom(init, k, t0 - window + 1, limit, window) == FailuresFrom(init, k, t0, limit, window)
  {
    var m := |events| - 1;
    FailuresFromFalls(events[..m], k, t0 - window + 1, t0, limit, window);
    LastIsNotBefore(events);
    if events[m].at < t0 {
      NoneFromLater(events[..m], k, t0, limit, window);
    }
  }

  /** Without failures in the window length before t0, the last window has ended by t0. */
  lemma FirstFailureOpens(events: seq<Event>, k: string, t0: int, limit: nat, window: int)
    requires window > 0 && Ordered(events) && FailuresFrom(events, k, t0 - window + 1, limit, window) == 0
    ensures var w := LastWindow(events, k, limit, window); w.Some? ==> w.value.ends <= t0
  {
    WindowOpenedByFailure(events, k, limit, window);
    OpenedEarlier(events, k, LastWindow(events, k, limit, window), t0, limit, window);
  }

  lemma OpenedEarlier(events: seq<Event>, k: string, w: Option<Window>, t0: int, limit: nat, window: int)
    requires FailuresFrom(events, k, t0 - window + 1, limit, window) == 0
    requires w.Some? ==> FailuresFrom(events, k, w.value.ends - window, limit, window) > 0
    ensures w.Some? ==> w.value.ends <= t0
  {
    if w.Some? && w.value.ends - window >= t0 - window + 1 {
      FailuresFromFalls(events, k, t0 - window + 1, w.value.ends - window, limit, window);
    }
  }

  /** Enough failures of one address, whatever the emails, or of one email, whatever the addresses, and without a
      success among them: within a window length of the first of them, every attempt from that address, or for
      that email, is refused. */
  lemma EnoughFailuresBlock(bond: Bond, a: Attempt, events: seq<Event>, t0: int, at: int, limit: nat, window: int)
    requires window > 0 && limit > 0 && Ordered(events) && NotBefore(events, at) && at < t0 + window
    requires FailuresOf(bond, a, events, t0 - window + 1, limit, window)
          == FailuresOf(bond, a, events, t0, limit, window) >= limit
    ensures Refused(events, a, at, limit, window)
  {
    var k := BondKey(bond, a);
    FailuresAgree(bond, a, events, t0 - window + 1, limit, window);
    FailuresAgree(bond, a, events, t0, limit, window);
    QuietWindow(events, k, t0, at, limit, window);
    WindowsAgree(bond, a, events, limit, window);
    assert Blocks(bond, a, events, at, limit, window);
    RefusedIff(events, a, at, limit, window);
  }

  /** Fewer than the limit never block. */
  lemma FewFailuresDoNotBlock(bond: Bond, a: Attempt, events: seq<Event>, t0: int, at: int, limit: nat, window: int)
    requires window > 0 && limit > 0 && Ordered(events) && NotBefore(events, at) && t0 <= at < t0 + window
    requires FailuresOf(bond, a, events, t0 - window + 1, limit, window)
          == FailuresOf(bond, a, events, t0, limit, window) < limit
    ensures !Blocks(bond, a, events, at, limit, window)
  {
    var k := BondKey(bond, a);
    FailuresAgree(bond, a, events, t0 - window + 1, limit, window);
    FailuresAgree(bond, a, events, t0, limit, window);
    WindowsAgree(bond, a, events, limit, window);
    if FailuresOf(bond, a, events, t0, limit, window) > 0 {
      QuietWindow(events, k, t0, at, limit, window);
    } else {
      FirstFailureOpens(events, k, t0, limit, window);
    }
  }

  // ----- Successes, and failures of others -----

  lemma LastEvent(events: seq<Event>, e: Event)
    ensures (events + [e])[..|events + [e]| - 1] == events && (events + [e])[|events + [e]| - 1] == e
  {
  }

  /** A success lifts what its address, its email and its pair were blocked by, and nothing else. */
  lemma SuccessClearsExactly(events: seq<Event>, i: nat, a: Attempt, at: int, limit: nat, window: int)
    requires window > 0 && Ordered(events + [Succeed(i)]) && NotBefore(events + [Succeed(i)], at)
    requires i < |Run(events, limit, window).pending|
    ensures var b := Run(events, limit, window).pending[i];
      Refused(events + [Succeed(i)], a, at, limit, window)
      <==> exists bond :: !Shares(bond, b, a) && Blocks(bond, a, events, at, limit, window)
  {
    var more := events + [Succeed(i)];
    LastEvent(events, Succeed(i));
    RefusedIff(more, a, at, limit, window);
    forall bond
      ensures Blocks(bond, a, more, at, limit, window)
         <==> !Shares(bond, Run(events, limit, window).pending[i], a) && Blocks(bond, a, events, at, limit, window)
    {
    }
  }

  /** A failure of an attempt that shares nothing with a changes nothing for a. */
  lemma FailureElsewhere(events: seq<Event>, i: nat, t: int, a: Attempt, at: int, limit: nat, window: int)
    requires window > 0 && Ordered(events + [Event.Fail(i, t)]) && NotBefore(events + [Event.Fail(i, t)], at)
    requires Ordered(events) && NotBefore(events, at)
    requires i < |Run(events, limit, window).pending|
    requires forall bond :: !Shares(bond, Run(events, limit, window).pending[i], a)
    ensures Refused(events + [Event.Fail(i, t)], a, at, limit, window) <==> Refused(events, a, at, limit, window)
  {
    var more := events + [Event.Fail(i, t)];
    LastEvent(events, Event.Fail(i, t));
    RefusedIff(more, a, at, limit, window);
    RefusedIff(events, a, at, limit, window);
    forall bond
      ensures Blocks(bond, a, more, at, limit, window) <==> Blocks(bond, a, events, at, limit, window)
    {
      assert !Shares(bond, Run(events, limit, window).pending[i], a);
    }
  }

  /** An attempt whose address, email and pair have no failures is never refused. */
  lemma StrangersAreAdmitted(events: seq<Event>, a: Attempt, at: int, limit: nat, window: int)
    requires window > 0 && limit > 0 && Ordered(events) && NotBefore(events, at)
    requires forall bond, from :: FailuresOf(bond, a, events, from, limit, window) == 0
    ensures !Refused(events, a, at, limit, window)
  {
    RefusedIff(events, a, at, limit, window);
    forall bond
      ensures !Blocks(bond, a, events, at, limit, window)
    {
      var k := BondKey(bond, a);
      WindowsAgree(bond, a, events, limit, window);
      WindowOpenedByFailure(events, k, limit, window);
      var w := LastWindow(events, k, limit, window);
      if w.Some? {
        FailuresAgree(bond, a, events, w.value.ends - window, limit, window);
      }
    }
  }
}
