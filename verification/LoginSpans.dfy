/** How many failures the login limiter lets through within any span of one window length, and that it can
    be that many. */
module LoginSpans {
  import opened Wrappers
  import opened Windows
  import opened Spans
  import opened LoginLimits

  // ----- The failures of a key -----

  predicate Timed(e: Event) {
    e.Begin? || e.Fail?
  }

  /** A clock that does not run backwards. */
  ghost predicate Ordered(events: seq<Event>) {
    forall i, j | 0 <= i < j < |events| && Timed(events[i]) && Timed(events[j]) :: events[i].at <= events[j].at
  }

  ghost predicate NotBefore(events: seq<Event>, now: int) {
    forall i | 0 <= i < |events| && Timed(events[i]) :: events[i].at <= now
  }

  /** The outcome of a pending attempt that the key counts. */
  predicate Concerns(s: Service, e: Event, k: string) {
    !e.Begin? && e.which < |s.pending| && k in LoginKeys(s.pending[e.which].ip, s.pending[e.which].email)
  }

  /** The failures recorded on a key from some time on, since it was last reset. */
  function FailuresFrom(events: seq<Event>, k: string, from: int, limit: nat, window: int): nat {
    if events == [] then 0
    else
      var n := |events| - 1;
      var e, concerns := events[n], Concerns(Run(events[..n], limit, window), events[n], k);
      if concerns && e.Succeed? then 0
      else FailuresFrom(events[..n], k, from, limit, window) + if concerns && e.Fail? && from <= e.at then 1 else 0
  }

  /** Those within [from, to). */
  function FailuresIn(events: seq<Event>, k: string, from: int, to: int, limit: nat, window: int): nat {
    if events == [] then 0
    else
      var n := |events| - 1;
      var e, concerns := events[n], Concerns(Run(events[..n], limit, window), events[n], k);
      if concerns && e.Succeed? then 0
      else FailuresIn(events[..n], k, from, to, limit, window)
           + if concerns && e.Fail? && from <= e.at < to then 1 else 0
  }

  lemma {:induction false} FailuresInIs(events: seq<Event>, k: string, from: int, to: int, limit: nat, window: int)
    requires from <= to
    ensures FailuresIn(events, k, from, to, limit, window)
         == FailuresFrom(events, k, from, limit, window) - FailuresFrom(events, k, to, limit, window)
  {
    if events != [] {
      FailuresInIs(events[..|events| - 1], k, from, to, limit, window);
    }
  }

  lemma {:induction false} FailuresFromFalls(events: seq<Event>, k: string, a: int, b: int, limit: nat, window: int)
    requires a <= b
    ensures FailuresFrom(events, k, a, limit, window) >= FailuresFrom(events, k, b, limit, window)
  {
    if events != [] {
      FailuresFromFalls(events[..|events| - 1], k, a, b, limit, window);
    }
  }

  ghost function Failures(events: seq<Event>, k: string, limit: nat, window: int): int -> nat {
    x => FailuresFrom(events, k, x, limit, window)
  }

  lemma FailuresFall(events: seq<Event>, k: string, limit: nat, window: int)
    ensures Falling(Failures(events, k, limit, window))
  {
    forall x, y | x <= y
      ensures FailuresFrom(events, k, x, limit, window) >= FailuresFrom(events, k, y, limit, window)
    {
      FailuresFromFalls(events, k, x, y, limit, window);
    }
  }

  // ----- The last window of a key -----

  /** The window that the key's last failure counted in, whether or not it has been pruned since. */
  ghost function LastWindow(events: seq<Event>, k: string, limit: nat, window: int): Option<Window> {
    if events == [] then None
    else
      var n := |events| - 1;
      var w, e := LastWindow(events[..n], k, limit, window), events[n];
      if !Concerns(Run(events[..n], limit, window), e, k) then w
      else if e.Fail? then Some(Counted(w, e.at, window))
      else if e.Succeed? then None
      else w
  }

  /** The table holds the key's last window, unless that has ended. */
  ghost predicate Tracked(events: seq<Event>, t: Table, w: Option<Window>, k: string, window: int) {
    && (k in t ==> w == Some(t[k]))
    && forall now | NotBefore(events, now) ::
         w.Some? ==> w.value.ends - window <= now && (k !in t ==> w.value.ends <= now)
  }

  lemma LastIsNotBefore(events: seq<Event>)
    requires events != [] && Ordered(events)
    ensures forall now | NotBefore(events, now) :: NotBefore(events[..|events| - 1], now)
    ensures Timed(events[|events| - 1]) ==> NotBefore(events[..|events| - 1], events[|events| - 1].at)
    ensures Timed(events[|events| - 1]) ==> forall now | NotBefore(events, now) :: events[|events| - 1].at <= now
  {
  }

  /** What one outcome does to the table's entry for a key. */
  lemma OutcomeAt(s: Service, e: Event, k: string, limit: nat, window: int)
    requires !e.Begin?
    ensures var t, t' := s.table, Step(s, e, limit, window).table;
      if Concerns(s, e, k) && e.Fail? then k in t' && t'[k] == Bump(t, k, e.at, window)[k]
      else if Concerns(s, e, k) && e.Succeed? then k !in t'
      else (k in t' <==> k in t) && (k in t ==> t'[k] == t[k])
  {
    if e.Fail? && e.which < |s.pending| {
      FailureAddsOne(s.table, s.pending[e.which].ip, s.pending[e.which].email, e.at, window, k);
    }
  }

  lemma TrackedStep(events: seq<Event>, k: string, limit: nat, window: int)
    requires events != [] && Ordered(events) && window > 0
    requires var init := events[..|events| - 1];
      Tracked(init, Run(init, limit, window).table, LastWindow(init, k, limit, window), k, window)
    ensures Tracked(events, Run(events, limit, window).table, LastWindow(events, k, limit, window), k, window)
  {
    var n := |events| - 1;
    var s, e := Run(events[..n], limit, window), events[n];
    LastIsNotBefore(events);
    if !e.Begin? {
      OutcomeAt(s, e, k, limit, window);
    }
  }

  lemma {:induction false} RunIsTracked(events: seq<Event>, k: string, limit: nat, window: int)
    requires Ordered(events) && window > 0
    ensures Tracked(events, Run(events, limit, window).table, LastWindow(events, k, limit, window), k, window)
  {
    if events != [] {
      assert Ordered(events[..|events| - 1]);
      RunIsTracked(events[..|events| - 1], k, limit, window);
      TrackedStep(events, k, limit, window);
    }
  }

  // ----- The bound -----

  /** The key's last window knows the key's history, and counts no further than Contained allows. */
  ghost predicate Known(events: seq<Event>, k: string, a: int, cap: nat, limit: nat, window: int) {
    && Recorded(Failures(events, k, limit, window), LastWindow(events, k, limit, window), a, cap, window)
    && Bounded(Failures(events, k, limit, window), a, cap, window)
  }

  lemma FailureIsKnown(events: seq<Event>, k: string, a: int, n: nat, limit: nat, window: int)
    requires events != [] && Ordered(events) && AtMostInFlight(events, n, limit, window) && limit > 0 && window > 0
    requires var m := |events| - 1; events[m].Fail? && Concerns(Run(events[..m], limit, window), events[m], k)
    requires Known(events[..|events| - 1], k, a, limit - 1 + n, limit, window)
    ensures Known(events, k, a, limit - 1 + n, limit, window)
  {
    var m := |events| - 1;
    var init, at := events[..m], events[m].at;
    RunIsTracked(init, k, limit, window);
    RunIsTracked(events, k, limit, window);
    RunIsContained(events, n, limit, window);
    LastIsNotBefore(events);
    OutcomeAt(Run(init, limit, window), events[m], k, limit, window);
    FailuresFall(init, k, limit, window);
    FailuresOneMore(events, k, limit, window);
    EventIsRecorded(Failures(init, k, limit, window), Failures(events, k, limit, window),
                    LastWindow(init, k, limit, window), at, a, limit - 1 + n, window);
  }

  lemma FailuresOneMore(events: seq<Event>, k: string, limit: nat, window: int)
    requires var m := |events| - 1;
      m >= 0 && events[m].Fail? && Concerns(Run(events[..m], limit, window), events[m], k)
    ensures var m := |events| - 1;
      OneMore(Failures(events[..m], k, limit, window), Failures(events, k, limit, window), events[m].at)
  {
  }

  /** An event that records no failure on the key. */
  lemma OtherIsKnown(events: seq<Event>, k: string, a: int, cap: nat, limit: nat, window: int)
    requires var m := |events| - 1;
      m >= 0 && !(events[m].Fail? && Concerns(Run(events[..m], limit, window), events[m], k))
    requires Known(events[..|events| - 1], k, a, cap, limit, window)
    ensures Known(events, k, a, cap, limit, window)
  {
    var m := |events| - 1;
    var f, f' := Failures(events[..m], k, limit, window), Failures(events, k, limit, window);
    FailuresStay(events, k, limit, window);
    if events[m].Succeed? && Concerns(Run(events[..m], limit, window), events[m], k) {
      NothingIsRecorded(f', a, cap, window);
    } else {
      SameIsRecorded(f, f', LastWindow(events[..m], k, limit, window), a, cap, window);
    }
  }

  lemma FailuresStay(events: seq<Event>, k: string, limit: nat, window: int)
    requires var m := |events| - 1;
      m >= 0 && !(events[m].Fail? && Concerns(Run(events[..m], limit, window), events[m], k))
    ensures var m := |events| - 1;
      var f, f' := Failures(events[..m], k, limit, window), Failures(events, k, limit, window);
      if events[m].Succeed? && Concerns(Run(events[..m], limit, window), events[m], k)
      then forall x :: f'(x) == 0 else forall x :: f'(x) == f(x)
  {
  }

  lemma {:induction false} HistoryIsKnown(events: seq<Event>, k: string, a: int, n: nat, limit: nat, window: int)
    requires Ordered(events) && AtMostInFlight(events, n, limit, window) && limit > 0 && window > 0
    ensures Known(events, k, a, limit - 1 + n, limit, window)
  {
    if events != [] {
      var m := |events| - 1;
      assert Ordered(events[..m]);
      HistoryIsKnown(events[..m], k, a, n, limit, window);
      if events[m].Fail? && Concerns(Run(events[..m], limit, window), events[m], k) {
        FailureIsKnown(events, k, a, n, limit, window);
      } else {
        OtherIsKnown(events, k, a, limit - 1 + n, limit, window);
      }
    }
  }

  /** With at most n attempts in flight, the failures on a key within any span of one window length, without a
      reset of the key among them, stay below twice what one window can count. */
  lemma SpanRecordsUnderTwice(events: seq<Event>, k: string, from: int, n: nat, limit: nat, window: int)
    requires Ordered(events) && AtMostInFlight(events, n, limit, window) && limit > 0 && window > 0
    ensures FailuresIn(events, k, from, from + window, limit, window) <= SpanBound(limit - 1 + n, window)
  {
    HistoryIsKnown(events, k, from, n, limit, window);
    FailuresInIs(events, k, from, from + window, limit, window);
  }

  // ----- Both bounds are reached -----

  datatype Setting = Setting(n: nat, limit: nat, window: int)

  /** The attempt's keys hold c failures in a window that ends at `ends`, and p attempts wait. */
  ghost predicate Standing(s: Service, a: Attempt, c: nat, p: nat, at: int, ends: int) {
    && |s.pending| == p
    && (forall i | 0 <= i < p :: s.pending[i] == a)
    && (forall k | k in LoginKeys(a.ip, a.email) ::
          if c == 0 then !Live(s.table, k, at) else k in s.table && s.table[k] == Window(c, ends) && at < ends)
  }

  ghost predicate Poised(events: seq<Event>, a: Attempt, c: nat, p: nat, at: int, ends: int, g: Setting) {
    && Ordered(events) && NotBefore(events, at) && AtMostInFlight(events, g.n, g.limit, g.window)
    && Standing(Run(events, g.limit, g.window), a, c, p, at, ends)
  }

  /** As many more failures on the key, all at one time. */
  ghost predicate Added(events: seq<Event>, more: seq<Event>, k: string, at: int, m: nat, g: Setting) {
    forall x :: FailuresFrom(more, k, x, g.limit, g.window)
             == FailuresFrom(events, k, x, g.limit, g.window) + if x <= at then m else 0
  }

  lemma AddedTwice(events: seq<Event>, middle: seq<Event>, more: seq<Event>, k: string, at: int, i: nat, j: nat,
                   g: Setting)
    requires Added(events, middle, k, at, i, g) && Added(middle, more, k, at, j, g)
    ensures Added(events, more, k, at, i + j, g)
  {
  }

  lemma OneMoreEvent(events: seq<Event>, e: Event, at: int, g: Setting)
    requires Ordered(events) && NotBefore(events, at) && Timed(e) && e.at == at
    requires AtMostInFlight(events, g.n, g.limit, g.window)
    requires |Step(Run(events, g.limit, g.window), e, g.limit, g.window).pending| <= g.n
    ensures var more := events + [e];
      && more[..|more| - 1] == events
      && Run(more, g.limit, g.window) == Step(Run(events, g.limit, g.window), e, g.limit, g.window)
      && Ordered(more) && NotBefore(more, at) && AtMostInFlight(more, g.n, g.limit, g.window)
  {
    assert (events + [e])[..|events|] == events;
  }

  lemma StandingBegin(s: Service, a: Attempt, c: nat, p: nat, at: int, ends: int, g: Setting)
    requires Standing(s, a, c, p, at, ends) && c < g.limit && g.window > 0
    ensures Standing(Step(s, Begin(a, at), g.limit, g.window), a, c, p + 1, at, ends)
  {
    var keys, t := LoginKeys(a.ip, a.email), Prune(s.table, at);
    forall i | 0 <= i < |keys|
      ensures !Full(t, keys[i], at, g.limit)
    {
      assert keys[i] in keys;
    }
  }

  lemma StandingFail(s: Service, a: Attempt, c: nat, p: nat, at: int, ends: int, g: Setting)
    requires Standing(s, a, c, p, at, ends) && p > 0 && g.window > 0 && (c == 0 ==> ends == at + g.window)
    ensures Standing(Step(s, Event.Fail(0, at), g.limit, g.window), a, c + 1, p - 1, at, ends)
  {
    forall k | k in LoginKeys(a.ip, a.email)
      ensures var u := Step(s, Event.Fail(0, at), g.limit, g.window).table; k in u && u[k] == Window(c + 1, ends)
    {
      FailureAddsOne(s.table, a.ip, a.email, at, g.window, k);
    }
  }

  /** One attempt begins. */
  lemma BeginStep(events: seq<Event>, a: Attempt, k: string, c: nat, p: nat, at: int, ends: int, g: Setting)
    returns (more: seq<Event>)
    requires Poised(events, a, c, p, at, ends, g) && c < g.limit && p < g.n && g.window > 0
    ensures Poised(more, a, c, p + 1, at, ends, g) && Added(events, more, k, at, 0, g)
  {
    more := events + [Begin(a, at)];
    StandingBegin(Run(events, g.limit, g.window), a, c, p, at, ends, g);
    OneMoreEvent(events, Begin(a, at), at, g);
  }

  /** One attempt fails. */
  lemma FailStep(events: seq<Event>, a: Attempt, k: string, c: nat, p: nat, at: int, ends: int, g: Setting)
    returns (more: seq<Event>)
    requires Poised(events, a, c, p, at, ends, g) && p > 0 && g.window > 0 && (c == 0 ==> ends == at + g.window)
    requires k in LoginKeys(a.ip, a.email)
    ensures Poised(more, a, c + 1, p - 1, at, ends, g) && Added(events, more, k, at, 1, g)
  {
    more := events + [Event.Fail(0, at)];
    StandingFail(Run(events, g.limit, g.window), a, c, p, at, ends, g);
    OneMoreEvent(events, Event.Fail(0, at), at, g);
  }

  /** m attempts begin. */
  lemma {:induction false} BeginsStand(events: seq<Event>, a: Attempt, k: string, c: nat, p: nat, m: nat,
                                       at: int, ends: int, g: Setting)
    returns (more: seq<Event>)
    requires Poised(events, a, c, p, at, ends, g) && c < g.limit && p + m <= g.n && g.window > 0
    ensures Poised(more, a, c, p + m, at, ends, g) && Added(events, more, k, at, 0, g)
  {
    more := events;
    if m > 0 {
      var before := BeginsStand(events, a, k, c, p, m - 1, at, ends, g);
      more := BeginStep(before, a, k, c, p + m - 1, at, ends, g);
      AddedTwice(events, before, more, k, at, 0, 0, g);
    }
  }

  /** m pending attempts fail. */
  lemma {:induction false} FailsStand(events: seq<Event>, a: Attempt, k: string, c: nat, p: nat, m: nat,
                                      at: int, ends: int, g: Setting)
    returns (more: seq<Event>)
    requires Poised(events, a, c, p, at, ends, g) && c > 0 && m <= p && g.window > 0 && k in LoginKeys(a.ip, a.email)
    ensures Poised(more, a, c + m, p - m, at, ends, g) && Added(events, more, k, at, m, g)
  {
    more := events;
    if m > 0 {
      var before := FailsStand(events, a, k, c, p, m - 1, at, ends, g);
      more := FailStep(before, a, k, c + (m - 1), p - (m - 1), at, ends, g);
      AddedTwice(events, before, more, k, at, m - 1, 1, g);
    }
  }

  /** m times an attempt begins and one fails. */
  lemma {:induction false} RoundsStand(events: seq<Event>, a: Attempt, k: string, c: nat, p: nat, m: nat,
                                       at: int, ends: int, g: Setting)
    returns (more: seq<Event>)
    requires Poised(events, a, c, p, at, ends, g) && c > 0 && c + m <= g.limit && p < g.n && g.window > 0
    requires k in LoginKeys(a.ip, a.email)
    ensures Poised(more, a, c + m, p, at, ends, g) && Added(events, more, k, at, m, g)
  {
    more := events;
    if m > 0 {
      var before := RoundsStand(events, a, k, c, p, m - 1, at, ends, g);
      var middle := BeginStep(before, a, k, c + m - 1, p, at, ends, g);
      more := FailStep(middle, a, k, c + m - 1, p + 1, at, ends, g);
      AddedTwice(events, before, middle, k, at, m - 1, 0, g);
      AddedTwice(events, middle, more, k, at, m - 1, 1, g);
    }
  }

  /** Time passes within the window. */
  lemma PoisedLater(events: seq<Event>, a: Attempt, c: nat, p: nat, at: int, later: int, ends: int, g: Setting)
    requires Poised(events, a, c, p, at, ends, g) && at <= later < ends
    ensures Poised(events, a, c, p, later, ends, g)
  {
  }

  /** And beyond it. */
  lemma PoisedAfresh(events: seq<Event>, a: Attempt, c: nat, at: int, ends: int, g: Setting)
    requires Poised(events, a, c, 0, at, ends, g) && at <= ends && c > 0
    ensures Poised(events, a, 0, 0, ends, ends + g.window, g)
  {
  }

  /** n attempts begin and one of them fails. */
  lemma VolleyOpens(events: seq<Event>, a: Attempt, k: string, first: int, later: int, ends: int, g: Setting)
    returns (more: seq<Event>)
    requires g.n > 0 && g.limit > 0 && first <= later < ends == first + g.window && k in LoginKeys(a.ip, a.email)
    requires Poised(events, a, 0, 0, first, ends, g)
    ensures Poised(more, a, 1, g.n - 1, later, ends, g) && Added(events, more, k, first, 1, g)
  {
    var middle := BeginsStand(events, a, k, 0, 0, g.n, first, ends, g);
    more := FailStep(middle, a, k, 0, g.n, first, ends, g);
    AddedTwice(events, middle, more, k, first, 0, 1, g);
    PoisedLater(more, a, 1, g.n - 1, first, later, ends, g);
  }

  /** Then single attempts fail until the limit is reached, and then the others, which passed the check long
      ago: the window is filled as far as it can be. */
  lemma VolleyCloses(events: seq<Event>, a: Attempt, k: string, i: nat, j: nat, at: int, ends: int, g: Setting)
    returns (more: seq<Event>)
    requires j < g.n && 1 + i == g.limit && g.window > 0 && k in LoginKeys(a.ip, a.email)
    requires Poised(events, a, 1, j, at, ends, g)
    ensures Poised(more, a, g.limit + j, 0, at, ends, g) && Added(events, more, k, at, i + j, g)
  {
    var middle := RoundsStand(events, a, k, 1, j, i, at, ends, g);
    more := FailsStand(middle, a, k, g.limit, j, j, at, ends, g);
    AddedTwice(events, middle, more, k, at, i, j, g);
  }

  /** Each of the attempt's three keys counts c failures. */
  ghost predicate CountedOn(t: Table, a: Attempt, c: nat) {
    forall k | k in LoginKeys(a.ip, a.email) :: k in t && t[k].count == c
  }

  /** n attempts of which n - 1 fail only when the limit is already reached. */
  lemma CountsCanReachThatMuch(a: Attempt, n: nat, limit: nat, window: int) returns (events: seq<Event>)
    requires limit > 0 && window > 0 && n > 0
    ensures Ordered(events) && AtMostInFlight(events, n, limit, window)
    ensures CountedOn(Run(events, limit, window).table, a, limit - 1 + n)
  {
    var g, k := Setting(n, limit, window), LoginKeys(a.ip, a.email)[0];
    events := VolleyOpens([], a, k, 0, 0, window, g);
    events := VolleyCloses(events, a, k, limit - 1, n - 1, 0, window, g);
  }

  /** One volley whose window ends, less the failure that opened it, and another volley at that moment. */
  lemma SpanCanRecordThatMuch(a: Attempt, k: string, n: nat, limit: nat, window: int) returns (events: seq<Event>)
    requires limit > 0 && window > 0 && n > 0 && k in LoginKeys(a.ip, a.email)
    ensures Ordered(events) && AtMostInFlight(events, n, limit, window)
    ensures FailuresIn(events, k, 1, 1 + window, limit, window) == SpanBound(limit - 1 + n, window)
  {
    var g := Setting(n, limit, window);
    if window == 1 {
      events := OneVolley(a, k, g);
    } else {
      events := TwoVolleys(a, k, g);
    }
    FailuresInIs(events, k, 1, 1 + window, limit, window);
  }

  lemma OneVolley(a: Attempt, k: string, g: Setting) returns (events: seq<Event>)
    requires g.limit > 0 && g.window == 1 && g.n > 0 && k in LoginKeys(a.ip, a.email)
    ensures Ordered(events) && AtMostInFlight(events, g.n, g.limit, g.window)
    ensures FailuresFrom(events, k, 1, g.limit, g.window) == g.limit - 1 + g.n
    ensures FailuresFrom(events, k, 2, g.limit, g.window) == 0
  {
    events := VolleyOpens([], a, k, 1, 1, 2, g);
    events := VolleyCloses(events, a, k, g.limit - 1, g.n - 1, 1, 2, g);
  }

  lemma TwoVolleys(a: Attempt, k: string, g: Setting) returns (events: seq<Event>)
    requires g.limit > 0 && g.window > 1 && g.n > 0 && k in LoginKeys(a.ip, a.email)
    ensures Ordered(events) && AtMostInFlight(events, g.n, g.limit, g.window)
    ensures FailuresFrom(events, k, 1, g.limit, g.window) == 2 * (g.limit - 1 + g.n) - 1
    ensures FailuresFrom(events, k, 1 + g.window, g.limit, g.window) == 0
  {
    var w, i, j := g.window, g.limit - 1, g.n - 1;
    var first := VolleyOpens([], a, k, 0, w - 1, w, g);
    var second := VolleyCloses(first, a, k, i, j, w - 1, w, g);
    PoisedAfresh(second, a, g.limit + j, w - 1, w, g);
    var third := VolleyOpens(second, a, k, w, w, w + w, g);
    events := VolleyCloses(third, a, k, i, j, w, w + w, g);
  }
}
