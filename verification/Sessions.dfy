/** Login sessions: expiry is stored and swept as text, and looked up as time. */
module Sessions {
  import opened Wrappers
  import opened Text
  import opened Timestamps

  const DEFAULT_TTL := 168 * 3600 * 1_000_000_000

  /** A session row, its times as instants or as the texts they are stored as. */
  datatype Row<+T> = Row(user: string, csrfSecret: string, expires: T, lastSeen: T)

  /** Sessions by token hash, which the schema keeps unique. */
  type Table<T> = map<string, Row<T>>

  datatype Session = Session(user: string, csrfSecret: string, expiresAt: nat)
  datatype Reply = Found(session: Session) | NotFound | Refused

  // ----- The store in terms of time -----

  predicate Alive(t: Table<nat>, h: string, now: nat) {
    h in t && now < t[h].expires
  }

  function Without<T>(t: Table<T>, hash: string): Table<T> {
    map h | h in t && h != hash :: t[h]
  }

  function SessionOf(row: Row<nat>): Session {
    Session(row.user, row.csrfSecret, row.expires)
  }

  function Created(t: Table<nat>, hash: string, user: string, csrfSecret: string, ttl: nat, now: nat):
    (Table<nat>, Reply) {
    var row := Row(user, csrfSecret, now + ttl, now);
    if hash in t then (t, Refused) else (t[hash := row], Found(SessionOf(row)))
  }

  /** An expired session is deleted on sight, a live one is touched. */
  function LookedUp(t: Table<nat>, hash: string, now: nat): (Table<nat>, Reply) {
    if hash !in t then (t, NotFound)
    else if Alive(t, hash, now)
    then (t[hash := t[hash].(lastSeen := now)], Found(SessionOf(t[hash])))
    else (Without(t, hash), NotFound)
  }

  function Swept(t: Table<nat>, now: nat): Table<nat> {
    map h | h in t && Alive(t, h, now) :: t[h]
  }

  // ----- The store in terms of text -----

  predicate InTime(row: Row<nat>) {
    row.expires < END_OF_TIME && row.lastSeen < END_OF_TIME
  }

  ghost predicate AllInTime(t: Table<nat>) {
    forall h | h in t :: InTime(t[h])
  }

  function StoredRow(row: Row<nat>): Row<string>
    requires InTime(row)
  {
    Row(row.user, row.csrfSecret, Format(row.expires), Format(row.lastSeen))
  }

  /** A stored table spells out a table of instants. */
  ghost predicate Spells(stored: Table<string>, t: Table<nat>) {
    && stored.Keys == t.Keys && AllInTime(t)
    && forall h | h in t :: stored[h] == StoredRow(t[h])
  }

  /** expires_at <= ?, on text. */
  predicate TextExpired(expires: string, now: string) {
    Less(expires, now) || expires == now
  }

  lemma TextExpiryIsTimeExpiry(expires: nat, now: nat)
    requires expires < END_OF_TIME && now < END_OF_TIME
    ensures TextExpired(Format(expires), Format(now)) <==> expires <= now
  {
    FormatOrder(expires, now);
  }

  function TextSwept(stored: Table<string>, now: string): Table<string> {
    map h | h in stored && !TextExpired(stored[h].expires, now) :: stored[h]
  }

  lemma SweepBy(stored: Table<string>, t: Table<nat>, now: nat, text: string)
    requires Spells(stored, t)
    requires forall h | h in t :: TextExpired(stored[h].expires, text) <==> t[h].expires <= now
    ensures Spells(TextSwept(stored, text), Swept(t, now))
  {
  }

  /** The text comparison in SQL sweeps exactly the sessions whose time is up. */
  lemma TextSweepIsTimeSweep(stored: Table<string>, t: Table<nat>, now: nat)
    requires Spells(stored, t) && now < END_OF_TIME
    ensures Spells(TextSwept(stored, Format(now)), Swept(t, now))
  {
    forall h | h in t
      ensures TextExpired(stored[h].expires, Format(now)) <==> t[h].expires <= now
    {
      TextExpiryIsTimeExpiry(t[h].expires, now);
    }
    SweepBy(stored, t, now, Format(now));
  }

  lemma SpellsWithout(stored: Table<string>, t: Table<nat>, h: string)
    requires Spells(stored, t)
    ensures Spells(Without(stored, h), Without(t, h))
  {
  }

  lemma SpellsWritten(stored: Table<string>, t: Table<nat>, h: string, row: Row<nat>)
    requires Spells(stored, t) && InTime(row)
    ensures Spells(stored[h := StoredRow(row)], t[h := row])
  {
    var stored', t' := stored[h := StoredRow(row)], t[h := row];
    forall k | k in t'
      ensures InTime(t'[k]) && stored'[k] == StoredRow(t'[k])
    {
      assert k != h ==> stored[k] == StoredRow(t[k]);
    }
  }

  lemma StoredExpiryReadsBack(row: Row<nat>)
    requires InTime(row)
    ensures Parse(StoredRow(row).expires) == Some(row.expires)
  {
    ParseFormat(row.expires);
  }

  lemma Touched(row: Row<nat>, now: nat)
    requires InTime(row) && now < END_OF_TIME
    ensures InTime(row.(lastSeen := now))
    ensures StoredRow(row).(lastSeen := Format(now)) == StoredRow(row.(lastSeen := now))
  {
  }

  class Store {
    const ttl: nat
    var sessions: Table<string>
    ghost var timed: Table<nat>

    ghost predicate Valid()
      reads this
    {
      Spells(sessions, timed)
    }

    constructor (ttl: int)
      ensures Valid() && timed == map[]
      ensures this.ttl == (if ttl <= 0 then 604_800_000_000_000 else ttl)
    {
      this.ttl := if ttl <= 0 then DEFAULT_TTL else ttl;
      sessions := map[];
      timed := map[];
    }

    method CreateSession(hash: string, user: string, csrfSecret: string, now: nat) returns (reply: Reply)
      requires Valid() && now + ttl < END_OF_TIME
      modifies this`sessions, this`timed
      ensures Valid()
      ensures (timed, reply) == Created(old(timed), hash, user, csrfSecret, ttl, now)
    {
      if hash in sessions { return Refused; }
      var row := Row(user, csrfSecret, now + ttl, now);
      Insert(hash, row);
      reply := Found(SessionOf(row));
    }

    method Insert(hash: string, row: Row<nat>)
      requires Valid() && InTime(row)
      modifies this`sessions, this`timed
      ensures Valid() && timed == old(timed)[hash := row]
    {
      SpellsWritten(sessions, timed, hash, row);
      sessions := sessions[hash := StoredRow(row)];
      timed := timed[hash := row];
    }

    /** A text that does not parse would be an error; no stored text is one. */
    method SessionByToken(hash: string, now: nat) returns (reply: Reply)
      requires Valid() && now < END_OF_TIME
      modifies this`sessions, this`timed
      ensures Valid()
      ensures (timed, reply) == LookedUp(old(timed), hash, now)
    {
      if hash !in sessions { return NotFound; }
      var row := sessions[hash];
      StoredExpiryReadsBack(timed[hash]);
      var parsed := Parse(row.expires);
      assert parsed == Some(timed[hash].expires);
      var expiresAt := parsed.value;
      if !(now < expiresAt) {
        DeleteSession(hash);
        return NotFound;
      }
      TouchSession(hash, now);
      reply := Found(Session(row.user, row.csrfSecret, expiresAt));
    }

    method TouchSession(hash: string, now: nat)
      requires Valid() && now < END_OF_TIME && hash in sessions
      modifies this`sessions, this`timed
      ensures Valid() && timed == old(timed)[hash := old(timed)[hash].(lastSeen := now)]
    {
      ghost var row := timed[hash].(lastSeen := now);
      Touched(timed[hash], now);
      SpellsWritten(sessions, timed, hash, row);
      sessions := sessions[hash := sessions[hash].(lastSeen := Format(now))];
      timed := timed[hash := row];
    }

    method DeleteSession(hash: string)
      requires Valid()
      modifies this`sessions, this`timed
      ensures Valid() && timed == Without(old(timed), hash)
    {
      SpellsWithout(sessions, timed, hash);
      sessions := Without(sessions, hash);
      timed := Without(timed, hash);
    }

    method DeleteExpired(now: nat)
      requires Valid() && now < END_OF_TIME
      modifies this`sessions, this`timed
      ensures Valid() && timed == Swept(old(timed), now)
    {
      TextSweepIsTimeSweep(sessions, timed, now);
      sessions := TextSwept(sessions, Format(now));
      timed := Swept(timed, now);
    }
  }

  /** Sweeping removes exactly the sessions that a lookup at that moment would refuse. */
  lemma SweepRemovesTheRefused(stored: Table<string>, t: Table<nat>, hash: string, now: nat)
    requires Spells(stored, t) && now < END_OF_TIME && hash in t
    ensures hash !in TextSwept(stored, Format(now)) <==> LookedUp(t, hash, now).1 == NotFound
    ensures hash in TextSwept(stored, Format(now)) ==> TextSwept(stored, Format(now))[hash] == stored[hash]
  {
    TextSweepIsTimeSweep(stored, t, now);
  }

  // ----- Sweeping is unobservable -----

  datatype Event =
    | Create(at: nat, hash: string, user: string, csrfSecret: string)
    | Lookup(at: nat, hash: string)
    | Logout(at: nat, hash: string)
    | Sweep(at: nat)

  function Happened(t: Table<nat>, e: Event, ttl: nat): (Table<nat>, Reply) {
    match e
    case Create(at, hash, user, csrfSecret) => Created(t, hash, user, csrfSecret, ttl, at)
    case Lookup(at, hash) => LookedUp(t, hash, at)
    case Logout(_, hash) => (Without(t, hash), NotFound)
    case Sweep(at) => (Swept(t, at), NotFound)
  }

  /** What the clients see: the replies to everything but sweeps. */
  function Replies(t: Table<nat>, events: seq<Event>, ttl: nat): seq<Reply>
    decreases |events|
  {
    if events == [] then []
    else
      var (t', reply) := Happened(t, events[0], ttl);
      (if events[0].Sweep? then [] else [reply]) + Replies(t', events[1..], ttl)
  }

  function WithoutSweeps(events: seq<Event>): seq<Event> {
    if events == [] then []
    else if events[0].Sweep? then WithoutSweeps(events[1..])
    else [events[0]] + WithoutSweeps(events[1..])
  }

  /** The tables hold the same live sessions from now on. */
  ghost predicate Agree(t: Table<nat>, u: Table<nat>, now: nat) {
    forall h :: (Alive(t, h, now) <==> Alive(u, h, now)) && (Alive(t, h, now) ==> t[h] == u[h])
  }

  lemma AgreeLater(t: Table<nat>, u: Table<nat>, now: nat, later: nat)
    requires Agree(t, u, now) && now <= later
    ensures Agree(t, u, later)
  {
    forall h
      ensures (Alive(t, h, later) <==> Alive(u, h, later)) && (Alive(t, h, later) ==> t[h] == u[h])
    {
      assert Alive(t, h, now) <==> Alive(u, h, now);
    }
  }

  lemma SweepAgrees(t: Table<nat>, u: Table<nat>, now: nat)
    requires Agree(t, u, now)
    ensures Agree(Swept(t, now), u, now)
  {
    forall h
      ensures var s := Swept(t, now); (Alive(s, h, now) <==> Alive(u, h, now)) && (Alive(s, h, now) ==> s[h] == u[h])
    {
      assert Alive(t, h, now) <==> Alive(u, h, now);
    }
  }

  /** New tokens are new: drawn at random, they have not been used before. */
  ghost predicate FreshTokens(events: seq<Event>, used: set<string>)
    decreases |events|
  {
    events == [] ||
      if events[0].Create? then events[0].hash !in used && FreshTokens(events[1..], used + {events[0].hash})
      else FreshTokens(events[1..], used)
  }

  ghost predicate Ordered(events: seq<Event>) {
    forall i, j | 0 <= i < j < |events| :: events[i].at <= events[j].at
  }

  /** A client's event on two agreeing tables: the same reply, and tables that still agree. */
  lemma EventAgrees(t: Table<nat>, u: Table<nat>, e: Event, ttl: nat)
    requires !e.Sweep? && Agree(t, u, e.at)
    requires e.Create? ==> e.hash !in t && e.hash !in u
    ensures var a, b := Happened(t, e, ttl), Happened(u, e, ttl);
      a.1 == b.1 && Agree(a.0, b.0, e.at)
  {
    assert Alive(t, e.hash, e.at) <==> Alive(u, e.hash, e.at);
    var a, b := Happened(t, e, ttl).0, Happened(u, e, ttl).0;
    forall h
      ensures (Alive(a, h, e.at) <==> Alive(b, h, e.at)) && (Alive(a, h, e.at) ==> a[h] == b[h])
    {
      assert Alive(t, h, e.at) <==> Alive(u, h, e.at);
    }
  }

  lemma {:induction false} AgreeingReplies(t: Table<nat>, u: Table<nat>, events: seq<Event>, ttl: nat, now: nat,
                                           used: set<string>)
    requires forall i | 0 <= i < |events| :: now <= events[i].at
    requires Ordered(events) && FreshTokens(events, used)
    requires Agree(t, u, now) && t.Keys <= used && u.Keys <= used
    ensures Replies(t, events, ttl) == Replies(u, WithoutSweeps(events), ttl)
    decreases |events|
  {
    if events != [] {
      var e, rest := events[0], events[1..];
      AgreeLater(t, u, now, e.at);
      if e.Sweep? {
        SweepAgrees(t, u, e.at);
        AgreeingReplies(Swept(t, e.at), u, rest, ttl, e.at, used);
      } else {
        EventAgrees(t, u, e, ttl);
        var a, b := Happened(t, e, ttl), Happened(u, e, ttl);
        AgreeingReplies(a.0, b.0, rest, ttl, e.at, if e.Create? then used + {e.hash} else used);
        assert WithoutSweeps(events)[1..] == WithoutSweeps(rest);
      }
    }
  }

  /** While the clock does not run backwards, no client can tell whether or when expired sessions are swept. */
  lemma SweepingIsUnobservable(t: Table<nat>, events: seq<Event>, ttl: nat)
    requires Ordered(events) && FreshTokens(events, t.Keys)
    ensures Replies(t, events, ttl) == Replies(t, WithoutSweeps(events), ttl)
  {
    AgreeingReplies(t, t, events, ttl, if events == [] then 0 else events[0].at, t.Keys);
  }

  // ----- How long a session lives -----

  function TableAfter(t: Table<nat>, events: seq<Event>, ttl: nat): Table<nat>
    decreases |events|
  {
    if events == [] then t else TableAfter(Happened(t, events[0], ttl).0, events[1..], ttl)
  }

  /** Neither logged out nor created anew. */
  predicate LeftAlone(events: seq<Event>, hash: string) {
    forall i | 0 <= i < |events| :: !events[i].Sweep? && events[i].hash == hash ==> events[i].Lookup?
  }

  /** The session is in the table as it was created, or its time is up. */
  ghost predicate Living(t: Table<nat>, hash: string, session: Session, now: nat) {
    && (hash in t ==> SessionOf(t[hash]) == session)
    && (hash !in t ==> session.expiresAt <= now)
  }

  lemma EventLeavesLiving(t: Table<nat>, e: Event, hash: string, session: Session, now: nat, ttl: nat)
    requires Living(t, hash, session, now) && now <= e.at
    requires !e.Sweep? && e.hash == hash ==> e.Lookup?
    ensures Living(Happened(t, e, ttl).0, hash, session, e.at)
  {
  }

  lemma {:induction false} LivesOn(t: Table<nat>, events: seq<Event>, hash: string, session: Session, now: nat,
                                   later: nat, ttl: nat)
    requires Living(t, hash, session, now) && Ordered(events) && LeftAlone(events, hash)
    requires now <= later && forall i | 0 <= i < |events| :: now <= events[i].at <= later
    ensures Living(TableAfter(t, events, ttl), hash, session, later)
    decreases |events|
  {
    if events != [] {
      EventLeavesLiving(t, events[0], hash, session, now, ttl);
      LivesOn(Happened(t, events[0], ttl).0, events[1..], hash, session, events[0].at, later, ttl);
    }
  }

  /** A session lives for exactly its lifetime from its creation, whatever happens to other sessions, and however
      often it is looked up: until then a lookup finds it as it was created, and then nothing. */
  lemma SessionLivesItsLifetime(t: Table<nat>, hash: string, user: string, csrfSecret: string, ttl: nat, at: nat,
                                events: seq<Event>, later: nat)
    requires hash !in t && Ordered(events) && LeftAlone(events, hash)
    requires at <= later && forall i | 0 <= i < |events| :: at <= events[i].at <= later
    ensures var created := Happened(t, Create(at, hash, user, csrfSecret), ttl);
      var session := Session(user, csrfSecret, at + ttl);
      && created.1 == Found(session)
      && Happened(TableAfter(created.0, events, ttl), Lookup(later, hash), ttl).1
         == if later < at + ttl then Found(session) else NotFound
  {
    var created := Happened(t, Create(at, hash, user, csrfSecret), ttl);
    LivesOn(created.0, events, hash, Session(user, csrfSecret, at + ttl), at, later, ttl);
  }

  /** A lookup notes when a live session was last seen, and changes nothing else of it or of others. */
  lemma LookupTouches(t: Table<nat>, hash: string, at: nat, ttl: nat)
    requires Alive(t, hash, at)
    ensures var t' := Happened(t, Lookup(at, hash), ttl).0;
      && t'.Keys == t.Keys && t'[hash] == t[hash].(lastSeen := at)
      && forall h | h in t && h != hash :: t'[h] == t[h]
  {
  }

  /** A token already in use is refused, and the session under it stays. */
  lemma UsedTokenIsRefused(t: Table<nat>, hash: string, user: string, csrfSecret: string, ttl: nat, at: nat)
    requires hash in t
    ensures Happened(t, Create(at, hash, user, csrfSecret), ttl) == (t, Refused)
  {
  }

  /** After a logout the session is gone, and no other. */
  lemma LogoutEndsSession(t: Table<nat>, hash: string, at: nat, ttl: nat)
    ensures var t' := Happened(t, Logout(at, hash), ttl).0;
      t'.Keys == t.Keys - {hash} && forall h | h in t' :: t'[h] == t[h]
  {
  }
}
