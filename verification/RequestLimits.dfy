/** RequestLimiter: per-key fixed windows. What it admits over a whole history of calls. */
module RequestLimits {
  import opened Wrappers
  import opened Text
  import opened Windows
  import opened Spans

  const DEFAULT_LIMIT := 120
  const DEFAULT_WINDOW := 60_000_000_000

  // ----- Keys -----

  function OneMoreKey(kept: seq<string>, key: string): seq<string> {
    var k := Trim(key);
    if k == [] || k in kept then kept else kept + [k]
  }

  function Normalized(keys: seq<string>): seq<string> {
    if keys == [] then [] else OneMoreKey(Normalized(keys[..|keys| - 1]), keys[|keys| - 1])
  }

  /** The normalised keys are the non-blank keys, trimmed, each once. */
  lemma {:induction false} NormalizedKeysAre(keys: seq<string>)
    ensures DistinctKeys(Normalized(keys))
    ensures forall k :: k in Normalized(keys) <==> k != [] && exists i :: 0 <= i < |keys| && Trim(keys[i]) == k
  {
    if keys != [] {
      var n := |keys| - 1;
      NormalizedKeysAre(keys[..n]);
      forall k
        ensures k in Normalized(keys) <==> k != [] && exists i :: 0 <= i < |keys| && Trim(keys[i]) == k
      {
        TrimmedAmong(keys, k);
      }
    }
  }

  lemma TrimmedAmong(keys: seq<string>, k: string)
    requires keys != []
    ensures var n := |keys| - 1;
      (exists i :: 0 <= i < |keys| && Trim(keys[i]) == k)
      <==> Trim(keys[n]) == k || exists i :: 0 <= i < |keys[..n]| && Trim(keys[..n][i]) == k
  {
    var n := |keys| - 1;
    var init := keys[..n];
    assert forall i | 0 <= i < n :: init[i] == keys[i];
    if i :| 0 <= i < |keys| && Trim(keys[i]) == k {
      assert i < n ==> Trim(init[i]) == k;
    }
    if i :| 0 <= i < |init| && Trim(init[i]) == k {
      assert Trim(keys[i]) == k;
    }
  }

  // ----- One call -----

  function Allows(t: Table, keys: seq<string>, now: int, limit: nat): bool {
    !AnyFull(t, Normalized(keys), now, limit)
  }

  /** The table afterwards: a refused call only prunes. */
  function After(t: Table, keys: seq<string>, now: int, limit: nat, window: int): Table {
    var p := Prune(t, now);
    if Allows(p, keys, now, limit) then BumpAll(p, Normalized(keys), now, window) else p
  }

  class RequestLimiter {
    const limit: nat
    const window: int
    var entries: Table

    ghost predicate Valid() {
      limit > 0 && window > 0
    }

    constructor (limit: int, window: int)
      ensures Valid() && entries == map[]
      ensures this.limit == (if limit <= 0 then 120 else limit)
      ensures this.window == (if window <= 0 then 60_000_000_000 else window)
    {
      this.limit := if limit <= 0 then DEFAULT_LIMIT else limit;
      this.window := if window <= 0 then DEFAULT_WINDOW else window;
      entries := map[];
    }

    method Allow(keys: seq<string>, now: int) returns (ok: bool)
      modifies this`entries
      ensures ok == Allows(Prune(old(entries), now), keys, now, limit)
      ensures entries == After(old(entries), keys, now, limit, window)
    {
      entries := PruneTable(entries, now);
      ghost var pruned := entries;
      var normalized := NormalizedKeys(keys);
      if |normalized| == 0 { return true; }
      for i := 0 to |normalized|
        invariant forall j | 0 <= j < i :: !Full(pruned, normalized[j], now, limit)
      {
        if Live(entries, normalized[i], now) && entries[normalized[i]].count >= limit {
          assert Full(pruned, normalized[i], now, limit);
          return false;
        }
      }
      assert normalized[..|normalized|] == normalized;
      for i := 0 to |normalized|
        invariant entries == BumpAll(pruned, normalized[..i], now, window)
      {
        OneMoreBumped(pruned, normalized, i, now, window);
        var key := normalized[i];
        var entry := Window(0, now + window);
        if Live(entries, key, now) { entry := entries[key]; }
        entries := entries[key := entry.(count := entry.count + 1)];
      }
      ok := true;
    }
  }

  /** normalizedLimiterKeys. */
  method NormalizedKeys(keys: seq<string>) returns (out: seq<string>)
    ensures out == Normalized(keys)
  {
    out := [];
    var seen: set<string> := {};
    for i := 0 to |keys|
      invariant out == Normalized(keys[..i])
      invariant forall k :: k in seen <==> k in out
    {
      assert keys[..i + 1][..i] == keys[..i];
      var key := Trim(keys[i]);
      if key == [] { continue; }
      if key in seen { continue; }
      seen := seen + {key};
      out := out + [key];
    }
    assert keys[..|keys|] == keys;
  }

  // ----- The loops over the keys -----

  lemma OneMoreBumped(t: Table, keys: seq<string>, i: nat, now: int, window: int)
    requires i < |keys|
    ensures BumpAll(t, keys[..i + 1], now, window) == Bump(BumpAll(t, keys[..i], now, window), keys[i], now, window)
  {
    assert keys[..i + 1][..i] == keys[..i];
  }

  // ----- Histories -----

  datatype Call = Call(at: int, keys: seq<string>)

  /** The table after a history. */
  function State(calls: seq<Call>, limit: nat, window: int): Table {
    if calls == [] then map[]
    else
      var n := |calls| - 1;
      After(State(calls[..n], limit, window), calls[n].keys, calls[n].at, limit, window)
  }

  /** The answer to a call after a history. */
  function Answer(calls: seq<Call>, call: Call, limit: nat, window: int): bool {
    Allows(Prune(State(calls, limit, window), call.at), call.keys, call.at, limit)
  }

  ghost predicate Ordered(calls: seq<Call>) {
    forall i, j | 0 <= i < j < |calls| :: calls[i].at <= calls[j].at
  }

  ghost predicate NotBefore(calls: seq<Call>, now: int) {
    forall i | 0 <= i < |calls| :: calls[i].at <= now
  }

  // ----- Pruning is unobservable -----

  /** The same limiter without pruning. */
  function AfterUnpruned(t: Table, keys: seq<string>, now: int, limit: nat, window: int): Table {
    if Allows(t, keys, now, limit) then BumpAll(t, Normalized(keys), now, window) else t
  }

  function UnprunedState(calls: seq<Call>, limit: nat, window: int): Table {
    if calls == [] then map[]
    else
      var n := |calls| - 1;
      AfterUnpruned(UnprunedState(calls[..n], limit, window), calls[n].keys, calls[n].at, limit, window)
  }

  lemma StepsAgree(t: Table, u: Table, keys: seq<string>, now: int, limit: nat, window: int)
    requires Agree(t, u, now)
    ensures Allows(Prune(t, now), keys, now, limit) == Allows(u, keys, now, limit)
    ensures Agree(After(t, keys, now, limit, window), AfterUnpruned(u, keys, now, limit, window), now)
  {
    PruneAgrees(t, now);
    AgreeTransitive(Prune(t, now), t, u, now);
    AgreeOnFull(Prune(t, now), u, Normalized(keys), now, limit);
    BumpAllAgrees(Prune(t, now), u, Normalized(keys), now, window);
  }

  lemma {:induction false} StatesAgree(calls: seq<Call>, now: int, limit: nat, window: int)
    requires Ordered(calls) && NotBefore(calls, now)
    ensures Agree(State(calls, limit, window), UnprunedState(calls, limit, window), now)
  {
    if calls != [] {
      var n := |calls| - 1;
      var last := calls[n];
      StatesAgree(calls[..n], last.at, limit, window);
      var t, u := State(calls[..n], limit, window), UnprunedState(calls[..n], limit, window);
      StepsAgree(t, u, last.keys, last.at, limit, window);
      AgreeLater(State(calls, limit, window), UnprunedState(calls, limit, window), last.at, now);
    }
  }

  /** While the clock does not run backwards, every answer is that of the limiter that never prunes. */
  lemma PruningIsUnobservable(calls: seq<Call>, call: Call, limit: nat, window: int)
    requires Ordered(calls) && NotBefore(calls, call.at)
    ensures Answer(calls, call, limit, window)
         == Allows(UnprunedState(calls, limit, window), call.keys, call.at, limit)
  {
    StatesAgree(calls, call.at, limit, window);
    StepsAgree(State(calls, limit, window), UnprunedState(calls, limit, window), call.keys, call.at, limit, window);
  }

  // ----- A refused call leaves no trace -----

  lemma {:induction false} AgreeingRuns(t: Table, u: Table, calls: seq<Call>, limit: nat, window: int)
    requires Ordered(calls) && (calls != [] ==> Agree(t, u, calls[0].at))
    ensures Answers(t, calls, limit, window) == Answers(u, calls, limit, window)
    decreases |calls|
  {
    if calls != [] {
      var c := calls[0];
      PruneAgrees(t, c.at);
      PruneAgrees(u, c.at);
      AgreeTransitive(Prune(t, c.at), t, u, c.at);
      AgreeTransitive(Prune(t, c.at), u, Prune(u, c.at), c.at);
      AgreeOnFull(Prune(t, c.at), Prune(u, c.at), Normalized(c.keys), c.at, limit);
      BumpAllAgrees(Prune(t, c.at), Prune(u, c.at), Normalized(c.keys), c.at, window);
      var t', u' := After(t, c.keys, c.at, limit, window), After(u, c.keys, c.at, limit, window);
      if |calls| > 1 {
        AgreeLater(t', u', c.at, calls[1].at);
      }
      AgreeingRuns(t', u', calls[1..], limit, window);
    }
  }

  /** The answers to further calls from a given table. */
  function Answers(t: Table, calls: seq<Call>, limit: nat, window: int): seq<bool>
    decreases |calls|
  {
    if calls == [] then []
    else
      var c := calls[0];
      [Allows(Prune(t, c.at), c.keys, c.at, limit)]
      + Answers(After(t, c.keys, c.at, limit, window), calls[1..], limit, window)
  }

  /** After a refused call everything goes on as if it had not been made. */
  lemma RefusedCallLeavesNoTrace(t: Table, call: Call, calls: seq<Call>, limit: nat, window: int)
    requires Ordered([call] + calls)
    requires !Allows(Prune(t, call.at), call.keys, call.at, limit)
    ensures Answers(After(t, call.keys, call.at, limit, window), calls, limit, window)
         == Answers(t, calls, limit, window)
  {
    PruneAgrees(t, call.at);
    forall i, j | 0 <= i < j < |calls|
      ensures calls[i].at <= calls[j].at
    {
      assert ([call] + calls)[i + 1] == calls[i] && ([call] + calls)[j + 1] == calls[j];
    }
    if calls != [] {
      assert ([call] + calls)[0] == call && ([call] + calls)[1] == calls[0];
      AgreeLater(Prune(t, call.at), t, call.at, calls[0].at);
    }
    AgreeingRuns(Prune(t, call.at), t, calls, limit, window);
  }

  // ----- How much is admitted -----

  predicate Counts(calls: seq<Call>, k: string, limit: nat, window: int)
    requires calls != []
  {
    var n := |calls| - 1;
    k in Normalized(calls[n].keys) && Answer(calls[..n], calls[n], limit, window)
  }

  /** The admitted calls for a key within [from, to). */
  function CountIn(calls: seq<Call>, k: string, from: int, to: int, limit: nat, window: int): nat {
    if calls == [] then 0
    else
      var n := |calls| - 1;
      CountIn(calls[..n], k, from, to, limit, window)
      + if from <= calls[n].at < to && Counts(calls, k, limit, window) then 1 else 0
  }

  /** Those from some time on. */
  function CountFrom(calls: seq<Call>, k: string, from: int, limit: nat, window: int): nat {
    if calls == [] then 0
    else
      var n := |calls| - 1;
      CountFrom(calls[..n], k, from, limit, window)
      + if from <= calls[n].at && Counts(calls, k, limit, window) then 1 else 0
  }

  lemma {:induction false} CountInIs(calls: seq<Call>, k: string, from: int, to: int, limit: nat, window: int)
    requires from <= to
    ensures CountIn(calls, k, from, to, limit, window)
         == CountFrom(calls, k, from, limit, window) - CountFrom(calls, k, to, limit, window)
  {
    if calls != [] {
      CountInIs(calls[..|calls| - 1], k, from, to, limit, window);
    }
  }

  lemma {:induction false} CountFromFalls(calls: seq<Call>, k: string, a: int, b: int, limit: nat, window: int)
    requires a <= b
    ensures CountFrom(calls, k, a, limit, window) >= CountFrom(calls, k, b, limit, window)
  {
    if calls != [] {
      CountFromFalls(calls[..|calls| - 1], k, a, b, limit, window);
    }
  }

  ghost function CountsFrom(calls: seq<Call>, k: string, limit: nat, window: int): int -> nat {
    x => CountFrom(calls, k, x, limit, window)
  }

  ghost function WindowOf(t: Table, k: string): Option<Window> {
    if k in t then Some(t[k]) else None
  }

  /** The table's window for the key knows the key's history. */
  ghost predicate Known(calls: seq<Call>, u: Table, k: string, a: int, limit: nat, window: int) {
    && Recorded(CountsFrom(calls, k, limit, window), WindowOf(u, k), a, limit, window)
    && Bounded(CountsFrom(calls, k, limit, window), a, limit, window)
    && (k in u ==> calls != [] && u[k].ends - window <= calls[|calls| - 1].at)
  }

  /** What the last call does to a key: one more if it counts, nothing otherwise. */
  lemma LastCall(calls: seq<Call>, k: string, limit: nat, window: int)
    requires calls != [] && Ordered(calls)
    ensures var n := |calls| - 1;
      var u, u' := UnprunedState(calls[..n], limit, window), UnprunedState(calls, limit, window);
      if Counts(calls, k, limit, window)
      then !Full(u, k, calls[n].at, limit) && k in u' && u'[k] == Bump(u, k, calls[n].at, window)[k]
      else (k in u' <==> k in u) && (k in u ==> u'[k] == u[k])
  {
    var n := |calls| - 1;
    var last, u := calls[n], UnprunedState(calls[..n], limit, window);
    PruningIsUnobservable(calls[..n], last, limit, window);
    NormalizedKeysAre(last.keys);
    BumpAllAt(u, Normalized(last.keys), last.at, window, k);
    if Counts(calls, k, limit, window) {
      var i :| 0 <= i < |Normalized(last.keys)| && Normalized(last.keys)[i] == k;
      assert !Full(u, Normalized(last.keys)[i], last.at, limit);
    }
  }

  /** A call that does not count for the key leaves its record alone. */
  lemma OtherCall(calls: seq<Call>, u: Table, u': Table, k: string, a: int, limit: nat, window: int)
    requires calls != [] && Ordered(calls) && !Counts(calls, k, limit, window)
    requires (k in u' <==> k in u) && (k in u ==> u'[k] == u[k])
    requires Known(calls[..|calls| - 1], u, k, a, limit, window)
    ensures Known(calls, u', k, a, limit, window)
  {
    var f, f' := CountsFrom(calls[..|calls| - 1], k, limit, window), CountsFrom(calls, k, limit, window);
    assert forall x :: f'(x) == f(x);
  }

  lemma CountsFall(calls: seq<Call>, k: string, limit: nat, window: int)
    ensures Falling(CountsFrom(calls, k, limit, window))
  {
    forall x, y | x <= y
      ensures CountFrom(calls, k, x, limit, window) >= CountFrom(calls, k, y, limit, window)
    {
      CountFromFalls(calls, k, x, y, limit, window);
    }
  }

  /** A counted call. */
  lemma CountedCall(calls: seq<Call>, u: Table, u': Table, k: string, a: int, limit: nat, window: int)
    requires calls != [] && Ordered(calls) && limit > 0 && window > 0 && Counts(calls, k, limit, window)
    requires !Full(u, k, calls[|calls| - 1].at, limit)
    requires k in u' && u'[k] == Bump(u, k, calls[|calls| - 1].at, window)[k]
    requires Known(calls[..|calls| - 1], u, k, a, limit, window)
    ensures Known(calls, u', k, a, limit, window)
  {
    var n, at := |calls| - 1, calls[|calls| - 1].at;
    CountsFall(calls[..n], k, limit, window);
    CountsOneMore(calls, k, limit, window);
    assert WindowOf(u', k) == Some(Counted(WindowOf(u, k), at, window));
    EventIsRecorded(CountsFrom(calls[..n], k, limit, window), CountsFrom(calls, k, limit, window), WindowOf(u, k), at,
                    a, limit, window);
  }

  lemma CountsOneMore(calls: seq<Call>, k: string, limit: nat, window: int)
    requires calls != [] && Counts(calls, k, limit, window)
    ensures var n := |calls| - 1;
      OneMore(CountsFrom(calls[..n], k, limit, window), CountsFrom(calls, k, limit, window), calls[n].at)
  {
  }

  lemma {:induction false} HistoryIsKnown(calls: seq<Call>, k: string, a: int, limit: nat, window: int)
    requires Ordered(calls) && limit > 0 && window > 0
    ensures Known(calls, UnprunedState(calls, limit, window), k, a, limit, window)
  {
    if calls != [] {
      var n := |calls| - 1;
      HistoryIsKnown(calls[..n], k, a, limit, window);
      LastCall(calls, k, limit, window);
      var u, u' := UnprunedState(calls[..n], limit, window), UnprunedState(calls, limit, window);
      if Counts(calls, k, limit, window) {
        CountedCall(calls, u, u', k, a, limit, window);
      } else {
        OtherCall(calls, u, u', k, a, limit, window);
      }
    }
  }

  /** Every span of one window length, wherever it starts, admits fewer than twice the limit per key; and no
      more than the limit when the window is a single tick. */
  lemma SpanAdmitsUnderTwiceLimit(calls: seq<Call>, k: string, from: int, limit: nat, window: int)
    requires Ordered(calls) && limit > 0 && window > 0
    ensures CountIn(calls, k, from, from + window, limit, window) <= SpanBound(limit, window) <= 2 * limit - 1
  {
    HistoryIsKnown(calls, k, from, limit, window);
    CountInIs(calls, k, from, from + window, limit, window);
  }

  /** At any time, a running window has admitted what its counter says, and no more than the limit. */
  lemma WindowAdmitsLimit(calls: seq<Call>, k: string, now: int, limit: nat, window: int)
    requires Ordered(calls) && NotBefore(calls, now) && limit > 0 && window > 0
    requires Live(State(calls, limit, window), k, now)
    ensures var e := State(calls, limit, window)[k];
      CountIn(calls, k, e.ends - window, e.ends, limit, window) == e.count <= limit
  {
    var t, u := State(calls, limit, window), UnprunedState(calls, limit, window);
    StatesAgree(calls, now, limit, window);
    HistoryIsKnown(calls, k, t[k].ends, limit, window);
    RecordedWindow(calls, t, u, k, now, limit, window);
  }

  lemma RecordedWindow(calls: seq<Call>, t: Table, u: Table, k: string, now: int, limit: nat, window: int)
    requires Agree(t, u, now) && Live(t, k, now) && window > 0
    requires Known(calls, u, k, t[k].ends, limit, window)
    ensures CountIn(calls, k, t[k].ends - window, t[k].ends, limit, window) == t[k].count <= limit
  {
    assert Live(t, k, now) <==> Live(u, k, now);
    CountInIs(calls, k, u[k].ends - window, u[k].ends, limit, window);
  }

  /** A call is refused exactly when one of its keys, trimmed, has a running window that has already admitted the
      limit. */
  lemma RefusedIff(calls: seq<Call>, call: Call, limit: nat, window: int)
    requires Ordered(calls) && NotBefore(calls, call.at) && limit > 0 && window > 0
    ensures !Answer(calls, call, limit, window) <==>
      exists i | 0 <= i < |call.keys| ::
        Trim(call.keys[i]) != "" && Exhausted(calls, Trim(call.keys[i]), call.at, limit, window)
  {
    var t := State(calls, limit, window);
    NormalizedKeysAre(call.keys);
    forall k
      ensures Exhausted(calls, k, call.at, limit, window) <==> Full(Prune(t, call.at), k, call.at, limit)
    {
      if Live(t, k, call.at) {
        WindowAdmitsLimit(calls, k, call.at, limit, window);
      }
    }
    if i :| 0 <= i < |call.keys| && Trim(call.keys[i]) != ""
            && Exhausted(calls, Trim(call.keys[i]), call.at, limit, window) {
      assert Trim(call.keys[i]) in Normalized(call.keys);
      var j :| 0 <= j < |Normalized(call.keys)| && Normalized(call.keys)[j] == Trim(call.keys[i]);
      assert Full(Prune(t, call.at), Normalized(call.keys)[j], call.at, limit);
    }
    if !Answer(calls, call, limit, window) {
      var j :| 0 <= j < |Normalized(call.keys)| && Full(Prune(t, call.at), Normalized(call.keys)[j], call.at, limit);
      assert Normalized(call.keys)[j] in Normalized(call.keys);
    }
  }

  /** The key's window is running and has admitted the limit. */
  ghost predicate Exhausted(calls: seq<Call>, k: string, now: int, limit: nat, window: int) {
    var t := State(calls, limit, window);
    Live(t, k, now) && CountIn(calls, k, t[k].ends - window, t[k].ends, limit, window) >= limit
  }

  // ----- The bound is reached -----

  const KEY := "k"

  function Burst(at: int, n: nat): seq<Call> {
    if n == 0 then [] else Burst(at, n - 1) + [Call(at, [KEY])]
  }

  lemma KeyIsNormalized()
    ensures Normalized([KEY]) == [KEY]
  {
    TrimFacts(KEY);
    assert [KEY][..0] == [];
    assert Normalized([KEY]) == OneMoreKey(Normalized([KEY][..0]), KEY);
  }

  lemma OneMoreCall(before: seq<Call>, at: int, from: int, limit: nat, window: int)
    requires !Full(State(before, limit, window), KEY, at, limit)
    ensures var more := before + [Call(at, [KEY])];
      var t, t' := State(before, limit, window), State(more, limit, window);
      && KEY in t'
      && t'[KEY] == (if Live(t, KEY, at) then Window(t[KEY].count + 1, t[KEY].ends) else Window(1, at + window))
      && CountFrom(more, KEY, from, limit, window)
         == CountFrom(before, KEY, from, limit, window) + (if from <= at then 1 else 0)
  {
    var more := before + [Call(at, [KEY])];
    assert more[..|more| - 1] == before;
    KeyIsNormalized();
    var p := Prune(State(before, limit, window), at);
    BumpAllAt(p, [KEY], at, window, KEY);
    assert forall i | 0 <= i < |[KEY]| :: [KEY][i] == KEY;
  }

  /** Calls that still fit are all admitted. */
  lemma {:induction false} BurstIsAdmitted(calls: seq<Call>, at: int, n: nat, from: int, limit: nat, window: int)
    requires window > 0
    requires var t := State(calls, limit, window);
      if Live(t, KEY, at) then t[KEY].count + n <= limit else n <= limit
    ensures var t, more := State(calls, limit, window), calls + Burst(at, n);
      var t' := State(more, limit, window);
      && (Live(t', KEY, at) <==> Live(t, KEY, at) || n > 0)
      && (Live(t, KEY, at) ==> t'[KEY] == Window(t[KEY].count + n, t[KEY].ends))
      && (!Live(t, KEY, at) && n > 0 ==> t'[KEY] == Window(n, at + window))
      && CountFrom(more, KEY, from, limit, window)
         == CountFrom(calls, KEY, from, limit, window) + (if from <= at then n else 0)
  {
    if n == 0 {
      assert calls + Burst(at, n) == calls;
    } else {
      BurstIsAdmitted(calls, at, n - 1, from, limit, window);
      var before, more := calls + Burst(at, n - 1), calls + Burst(at, n);
      assert more == before + [Call(at, [KEY])];
      OneMoreCall(before, at, from, limit, window);
    }
  }

  lemma BurstsAreCounted(from: int, limit: nat, window: int)
    requires limit > 0 && window > 1
    ensures CountFrom(Burst(0, 1) + Burst(window - 1, limit - 1) + Burst(window, limit), KEY, from, limit, window)
         == (if from <= 0 then 1 else 0) + (if from <= window - 1 then limit - 1 else 0)
            + (if from <= window then limit else 0)
  {
    var a := Burst(0, 1);
    assert [] + a == a;
    BurstIsAdmitted([], 0, 1, from, limit, window);
    BurstIsAdmitted(a, window - 1, limit - 1, from, limit, window);
    BurstIsAdmitted(a + Burst(window - 1, limit - 1), window, limit, from, limit, window);
  }

  /** One call, then limit - 1 just before its window ends, then limit as it ends; or all in the one tick. */
  lemma SpanCanAdmitThatMuch(limit: nat, window: int) returns (calls: seq<Call>)
    requires limit > 0 && window > 0
    ensures Ordered(calls) && CountIn(calls, KEY, 1, 1 + window, limit, window) == SpanBound(limit, window)
  {
    if window == 1 {
      calls := TickIsFilled(limit);
    } else {
      calls := Burst(0, 1) + Burst(window - 1, limit - 1) + Burst(window, limit);
      BurstsAreCounted(1, limit, window);
      BurstsAreCounted(1 + window, limit, window);
      CountInIs(calls, KEY, 1, 1 + window, limit, window);
      BurstsAreOrdered(window, limit);
    }
  }

  lemma TickIsFilled(limit: nat) returns (calls: seq<Call>)
    requires limit > 0
    ensures Ordered(calls) && CountIn(calls, KEY, 1, 2, limit, 1) == limit
  {
    calls := Burst(1, limit);
    assert [] + calls == calls;
    BurstIsAdmitted([], 1, limit, 1, limit, 1);
    BurstIsAdmitted([], 1, limit, 2, limit, 1);
    CountInIs(calls, KEY, 1, 2, limit, 1);
    BurstTimes(1, limit);
  }

  lemma {:induction false} BurstTimes(at: int, n: nat)
    ensures |Burst(at, n)| == n && forall i | 0 <= i < n :: Burst(at, n)[i].at == at
  {
    if n > 0 {
      BurstTimes(at, n - 1);
    }
  }

  lemma BurstsAreOrdered(window: int, limit: nat)
    requires limit > 0 && window > 1
    ensures Ordered(Burst(0, 1) + Burst(window - 1, limit - 1) + Burst(window, limit))
  {
    BurstTimes(0, 1);
    BurstTimes(window - 1, limit - 1);
    BurstTimes(window, limit);
  }
}
