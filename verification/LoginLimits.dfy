/** LoginLimiter and its use by the login handler: a check, an unlocked password verification, and a
    record of the outcome, with attempts interleaving. */
module LoginLimits {
  import opened Text
  import opened Windows

  const DEFAULT_LIMIT := 5
  const DEFAULT_WINDOW := 900_000_000_000

  function LoginKeys(ip: string, email: string): (keys: seq<string>)
    ensures |keys| == 3
  {
    ["ip:" + Trim(ip), "email:" + Lower(Trim(email)), "ip-email:" + Trim(ip) + ":" + Lower(Trim(email))]
  }

  lemma LoginKeysAreDistinct(ip: string, email: string)
    ensures DistinctKeys(LoginKeys(ip, email))
  {
    var keys := LoginKeys(ip, email);
    assert keys[0][0] == 'i' && keys[0][2] == ':';
    assert keys[1][0] == 'e';
    assert keys[2][0] == 'i' && keys[2][2] == '-';
  }

  function Forget(t: Table, keys: seq<string>): Table {
    map k | k in t && k !in keys :: t[k]
  }

  class LoginLimiter {
    const limit: nat
    const window: int
    var attempts: Table

    ghost predicate Valid() {
      limit > 0 && window > 0
    }

    constructor (limit: int, window: int)
      ensures Valid() && attempts == map[]
      ensures this.limit == (if limit <= 0 then 5 else limit)
      ensures this.window == (if window <= 0 then 900_000_000_000 else window)
    {
      this.limit := if limit <= 0 then DEFAULT_LIMIT else limit;
      this.window := if window <= 0 then DEFAULT_WINDOW else window;
      attempts := map[];
    }

    method Allow(ip: string, email: string, now: int) returns (ok: bool)
      modifies this`attempts
      ensures attempts == Prune(old(attempts), now)
      ensures ok == !AnyFull(attempts, LoginKeys(ip, email), now, limit)
    {
      attempts := PruneTable(attempts, now);
      var keys := LoginKeys(ip, email);
      for i := 0 to |keys|
        invariant !AnyFull(attempts, keys[..i], now, limit)
      {
        assert keys[..i + 1] == keys[..i] + [keys[i]];
        if Live(attempts, keys[i], now) && attempts[keys[i]].count >= limit {
          assert Full(attempts, keys[i], now, limit);
          return false;
        }
      }
      assert keys[..|keys|] == keys;
      ok := true;
    }

    method RecordFailure(ip: string, email: string, now: int)
      modifies this`attempts
      ensures attempts == BumpAll(old(attempts), LoginKeys(ip, email), now, window)
    {
      var keys := LoginKeys(ip, email);
      for i := 0 to |keys|
        invariant attempts == BumpAll(old(attempts), keys[..i], now, window)
      {
        assert keys[..i + 1][..i] == keys[..i];
        var entry := Window(0, now + window);
        if Live(attempts, keys[i], now) { entry := attempts[keys[i]]; }
        attempts := attempts[keys[i] := entry.(count := entry.count + 1)];
      }
      assert keys[..|keys|] == keys;
    }

    method Reset(ip: string, email: string)
      modifies this`attempts
      ensures attempts == Forget(old(attempts), LoginKeys(ip, email))
    {
      var keys := LoginKeys(ip, email);
      for i := 0 to |keys|
        invariant attempts == Forget(old(attempts), keys[..i])
      {
        assert keys[..i + 1] == keys[..i] + [keys[i]];
        attempts := map k | k in attempts && k != keys[i] :: attempts[k];
      }
      assert keys[..|keys|] == keys;
    }
  }

  /** One failure adds exactly one to each of the attempt's three keys, and touches no other. */
  lemma FailureAddsOne(t: Table, ip: string, email: string, now: int, window: int, k: string)
    ensures var u := BumpAll(t, LoginKeys(ip, email), now, window);
      if k in LoginKeys(ip, email) then k in u && u[k] == Bump(t, k, now, window)[k]
      else (k in u <==> k in t) && (k in t ==> u[k] == t[k])
  {
    LoginKeysAreDistinct(ip, email);
    BumpAllAt(t, LoginKeys(ip, email), now, window, k);
  }

  // ----- Interleaved attempts -----

  datatype Attempt = Attempt(ip: string, email: string)

  /** The limiter's table, and the attempts that passed the check and have no outcome yet. */
  datatype Service = Service(table: Table, pending: seq<Attempt>)

  /** The outcomes name a pending attempt by position; `Error` is a verification that broke down. */
  datatype Event = Begin(attempt: Attempt, at: int) | Fail(which: nat, at: int)
                 | Succeed(which: nat) | Error(which: nat)

  function Without(pending: seq<Attempt>, i: nat): seq<Attempt>
    requires i < |pending|
  {
    pending[..i] + pending[i + 1..]
  }

  function Step(s: Service, e: Event, limit: nat, window: int): Service {
    match e
    case Begin(a, at) =>
      var p := Prune(s.table, at);
      if AnyFull(p, LoginKeys(a.ip, a.email), at, limit) then Service(p, s.pending)
      else Service(p, s.pending + [a])
    case Fail(i, at) =>
      if i >= |s.pending| then s
      else Service(BumpAll(s.table, LoginKeys(s.pending[i].ip, s.pending[i].email), at, window), Without(s.pending, i))
    case Succeed(i) =>
      if i >= |s.pending| then s
      else Service(Forget(s.table, LoginKeys(s.pending[i].ip, s.pending[i].email)), Without(s.pending, i))
    case Error(i) =>
      if i >= |s.pending| then s else s.(pending := Without(s.pending, i))
  }

  function Run(events: seq<Event>, limit: nat, window: int): Service {
    if events == [] then Service(map[], [])
    else Step(Run(events[..|events| - 1], limit, window), events[|events| - 1], limit, window)
  }

  /** At most n attempts are ever between their check and their outcome. */
  ghost predicate AtMostInFlight(events: seq<Event>, n: nat, limit: nat, window: int) {
    |Run(events, limit, window).pending| <= n
    && (events != [] ==> AtMostInFlight(events[..|events| - 1], n, limit, window))
  }

  function Count(pending: seq<Attempt>, counts: Attempt -> bool): nat {
    if pending == [] then 0
    else Count(pending[..|pending| - 1], counts) + if counts(pending[|pending| - 1]) then 1 else 0
  }

  lemma CountOneMore(pending: seq<Attempt>, a: Attempt, counts: Attempt -> bool)
    ensures Count(pending + [a], counts) == Count(pending, counts) + if counts(a) then 1 else 0
  {
    assert (pending + [a])[..|pending|] == pending;
  }

  lemma {:induction false} CountWithout(pending: seq<Attempt>, i: nat, counts: Attempt -> bool)
    requires i < |pending|
    ensures Count(pending, counts) == Count(Without(pending, i), counts) + if counts(pending[i]) then 1 else 0
  {
    var n := |pending| - 1;
    if i == n {
      assert Without(pending, i) == pending[..n];
    } else {
      CountWithout(pending[..n], i, counts);
      assert Without(pending, i) == Without(pending[..n], i) + [pending[n]];
      CountOneMore(Without(pending[..n], i), pending[n], counts);
    }
  }

  lemma {:induction false} CountAtMost(pending: seq<Attempt>, counts: Attempt -> bool)
    ensures Count(pending, counts) <= |pending|
  {
    if pending != [] {
      CountAtMost(pending[..|pending| - 1], counts);
    }
  }

  function Concerning(k: string): Attempt -> bool {
    (a: Attempt) => k in LoginKeys(a.ip, a.email)
  }

  /** The pending attempts that a key would count if they failed. */
  function PendingOn(pending: seq<Attempt>, k: string): nat {
    Count(pending, Concerning(k))
  }

  /** What each key has counted, plus what may still be added to it. */
  ghost predicate Contained(s: Service, n: nat, limit: nat) {
    forall k | k in s.table :: s.table[k].count + PendingOn(s.pending, k) <= limit - 1 + n
  }

  lemma StepContains(s: Service, e: Event, n: nat, limit: nat, window: int)
    requires Contained(s, n, limit) && limit > 0 && |s.pending| <= n
    requires |Step(s, e, limit, window).pending| <= n
    ensures Contained(Step(s, e, limit, window), n, limit)
  {
    var s' := Step(s, e, limit, window);
    forall k | k in s'.table
      ensures s'.table[k].count + PendingOn(s'.pending, k) <= limit - 1 + n
    {
      if e.Begin? {
        BeginContains(s, e, n, limit, window, k);
      } else {
        OutcomeContains(s, e, n, limit, window, k);
      }
    }
  }

  lemma BeginContains(s: Service, e: Event, n: nat, limit: nat, window: int, k: string)
    requires Contained(s, n, limit) && limit > 0 && e.Begin?
    requires |Step(s, e, limit, window).pending| <= n && k in Step(s, e, limit, window).table
    ensures var s' := Step(s, e, limit, window); s'.table[k].count + PendingOn(s'.pending, k) <= limit - 1 + n
  {
    var s', p, keys := Step(s, e, limit, window), Prune(s.table, e.at), LoginKeys(e.attempt.ip, e.attempt.email);
    CountAtMost(s'.pending, Concerning(k));
    if !AnyFull(p, keys, e.at, limit) {
      if k in keys {
        var i :| 0 <= i < |keys| && keys[i] == k;
        assert !Full(p, keys[i], e.at, limit);
      }
    }
  }

  lemma OutcomeContains(s: Service, e: Event, n: nat, limit: nat, window: int, k: string)
    requires Contained(s, n, limit) && limit > 0 && |s.pending| <= n && !e.Begin?
    requires k in Step(s, e, limit, window).table
    ensures var s' := Step(s, e, limit, window); s'.table[k].count + PendingOn(s'.pending, k) <= limit - 1 + n
  {
    if e.which < |s.pending| {
      CountWithout(s.pending, e.which, Concerning(k));
      CountAtMost(s.pending, Concerning(k));
      if e.Fail? {
        FailureAddsOne(s.table, s.pending[e.which].ip, s.pending[e.which].email, e.at, window, k);
      }
    }
  }

  lemma {:induction false} RunIsContained(events: seq<Event>, n: nat, limit: nat, window: int)
    requires limit > 0 && AtMostInFlight(events, n, limit, window)
    ensures Contained(Run(events, limit, window), n, limit)
  {
    if events != [] {
      var m := |events| - 1;
      RunIsContained(events[..m], n, limit, window);
      StepContains(Run(events[..m], limit, window), events[m], n, limit, window);
    }
  }

  /** With at most n attempts in flight, no key counts past limit - 1 + n, whatever the interleaving and
      the clock. */
  lemma CountsStayBelow(events: seq<Event>, n: nat, limit: nat, window: int, k: string)
    requires limit > 0 && AtMostInFlight(events, n, limit, window)
    ensures var t := Run(events, limit, window).table; k in t ==> t[k].count <= limit - 1 + n
  {
    RunIsContained(events, n, limit, window);
  }

  /** One attempt at a time: no key counts past the limit. */
  lemma SequentialCountsStayWithinLimit(events: seq<Event>, limit: nat, window: int, k: string)
    requires limit > 0 && AtMostInFlight(events, 1, limit, window)
    ensures var t := Run(events, limit, window).table; k in t ==> t[k].count <= limit
  {
    CountsStayBelow(events, 1, limit, window, k);
  }

  // ----- The handler, one attempt at a time -----

  datatype Verdict = Right | Wrong | Broken
  datatype Status = Welcome | Unauthorized | TooManyRequests | InternalError

  /** normalizeEmail. */
  function NormalizeEmail(email: string): string {
    Lower(Trim(email))
  }

  /** The limiter's state after an attempt, one at a time. */
  function Attempted(start: Service, a: Attempt, verdict: Verdict, started: int, ended: int, limit: nat, window: int):
    Service
  {
    var begun := Step(start, Begin(a, started), limit, window);
    match verdict
    case Wrong => Step(begun, Fail(0, ended), limit, window)
    case Right => Step(begun, Succeed(0), limit, window)
    case Broken => begun
  }

  ghost predicate WithinLimit(t: Table, limit: nat) {
    forall k | k in t :: t[k].count <= limit
  }

  lemma LoginContains(t: Table, a: Attempt, verdict: Verdict, started: int, ended: int, limit: nat, window: int)
    requires WithinLimit(t, limit) && limit > 0
    ensures WithinLimit(Attempted(Service(t, []), a, verdict, started, ended, limit, window).table, limit)
  {
    var begun := Step(Service(t, []), Begin(a, started), limit, window);
    StepContains(Service(t, []), Begin(a, started), 1, limit, window);
    if verdict == Wrong {
      StepContains(begun, Fail(0, ended), 1, limit, window);
    }
  }

  /** Login, as far as the limiter is concerned: the table moves as the two events of the attempt say, and
      starting within the limit it stays within the limit. `issued` tells whether session and token could be
      made for a right password. */
  method Login(limiter: LoginLimiter, ip: string, rawEmail: string, verdict: Verdict, issued: bool,
               started: int, ended: int)
    returns (status: Status)
    requires limiter.Valid()
    modifies limiter`attempts
    ensures var a, start := Attempt(ip, NormalizeEmail(rawEmail)), Service(old(limiter.attempts), []);
      var begun := Step(start, Begin(a, started), limiter.limit, limiter.window);
      && (status == TooManyRequests <==> begun.pending == [])
      && (status == Unauthorized <==> begun.pending != [] && verdict == Wrong)
      && (status == InternalError <==> begun.pending != [] && (verdict == Broken || (verdict == Right && !issued)))
      && limiter.attempts == Attempted(start, a, verdict, started, ended, limiter.limit, limiter.window).table
    ensures WithinLimit(old(limiter.attempts), limiter.limit) ==> WithinLimit(limiter.attempts, limiter.limit)
  {
    var email := NormalizeEmail(rawEmail);
    if WithinLimit(limiter.attempts, limiter.limit) {
      LoginContains(limiter.attempts, Attempt(ip, email), verdict, started, ended, limiter.limit, limiter.window);
    }
    var ok := limiter.Allow(ip, email, started);
    if !ok { return TooManyRequests; }
    if verdict == Wrong {
      limiter.RecordFailure(ip, email, ended);
      return Unauthorized;
    }
    if verdict == Broken { return InternalError; }
    limiter.Reset(ip, email);
    if !issued { return InternalError; }
    status := Welcome;
  }
}
