/** Fixed windows: a counter per key that starts afresh when its window has ended. */
module Windows {

  datatype Window = Window(count: nat, ends: int)
  type Table = map<string, Window>

  /** now.Before(windowEnds). */
  predicate Live(t: Table, k: string, now: int) {
    k in t && now < t[k].ends
  }

  predicate Full(t: Table, k: string, now: int, limit: nat) {
    Live(t, k, now) && t[k].count >= limit
  }

  predicate AnyFull(t: Table, keys: seq<string>, now: int, limit: nat) {
    exists i | 0 <= i < |keys| :: Full(t, keys[i], now, limit)
  }

  function Prune(t: Table, now: int): Table {
    map k | k in t && Live(t, k, now) :: t[k]
  }

  /** One more for a key, in its window if that is still running. */
  function Bump(t: Table, k: string, now: int, window: int): Table {
    t[k := if Live(t, k, now) then Window(t[k].count + 1, t[k].ends) else Window(1, now + window)]
  }

  function BumpAll(t: Table, keys: seq<string>, now: int, window: int): Table {
    if keys == [] then t
    else Bump(BumpAll(t, keys[..|keys| - 1], now, window), keys[|keys| - 1], now, window)
  }

  predicate DistinctKeys(keys: seq<string>) {
    forall i, j | 0 <= i < j < |keys| :: keys[i] != keys[j]
  }

  /** Every one of several distinct keys goes up by exactly one; the others stay. */
  lemma {:induction false} BumpAllAt(t: Table, keys: seq<string>, now: int, window: int, k: string)
    requires DistinctKeys(keys)
    ensures var u := BumpAll(t, keys, now, window);
      if k in keys then k in u && u[k] == Bump(t, k, now, window)[k]
      else (k in u <==> k in t) && (k in t ==> u[k] == t[k])
  {
    if keys != [] {
      var n := |keys| - 1;
      assert keys == keys[..n] + [keys[n]];
      assert keys[n] !in keys[..n];
      BumpAllAt(t, keys[..n], now, window, k);
    }
  }

  /** The pruning loop: ended windows are deleted one by one. */
  method PruneTable(t: Table, now: int) returns (pruned: Table)
    ensures pruned == Prune(t, now)
  {
    pruned := t;
    var todo := t.Keys;
    while todo != {}
      invariant todo <= t.Keys && todo <= pruned.Keys
      invariant forall k | k in pruned :: k in t && pruned[k] == t[k]
      invariant forall k | k in t :: k in pruned <==> k in todo || Live(t, k, now)
      decreases |todo|
    {
      var k :| k in todo;
      todo := todo - {k};
      if !Live(t, k, now) {
        pruned := map j | j in pruned && j != k :: pruned[j];
      }
    }
  }

  /** Two tables that no reader can tell apart from now on. */
  ghost predicate Agree(t: Table, u: Table, now: int) {
    forall k :: (Live(t, k, now) <==> Live(u, k, now)) && (Live(t, k, now) ==> t[k] == u[k])
  }

  lemma AgreeLater(t: Table, u: Table, now: int, later: int)
    requires Agree(t, u, now) && now <= later
    ensures Agree(t, u, later)
  {
    forall k
      ensures (Live(t, k, later) <==> Live(u, k, later)) && (Live(t, k, later) ==> t[k] == u[k])
    {
      assert Live(t, k, now) <==> Live(u, k, now);
    }
  }

  lemma PruneAgrees(t: Table, now: int)
    ensures Agree(Prune(t, now), t, now)
  {
  }

  lemma AgreeTransitive(t: Table, u: Table, v: Table, now: int)
    requires Agree(t, u, now) && Agree(u, v, now)
    ensures Agree(t, v, now)
  {
    forall k
      ensures (Live(t, k, now) <==> Live(v, k, now)) && (Live(t, k, now) ==> t[k] == v[k])
    {
      assert Live(t, k, now) <==> Live(u, k, now);
    }
  }

  lemma {:induction false} BumpAllAgrees(t: Table, u: Table, keys: seq<string>, now: int, window: int)
    requires Agree(t, u, now)
    ensures Agree(BumpAll(t, keys, now, window), BumpAll(u, keys, now, window), now)
  {
    if keys != [] {
      var n := |keys| - 1;
      BumpAllAgrees(t, u, keys[..n], now, window);
      var t', u' := BumpAll(t, keys[..n], now, window), BumpAll(u, keys[..n], now, window);
      assert Live(t', keys[n], now) <==> Live(u', keys[n], now);
      forall k
        ensures var x, y := Bump(t', keys[n], now, window), Bump(u', keys[n], now, window);
          (Live(x, k, now) <==> Live(y, k, now)) && (Live(x, k, now) ==> x[k] == y[k])
      {
        assert Live(t', k, now) <==> Live(u', k, now);
      }
    }
  }

  lemma AgreeOnFull(t: Table, u: Table, keys: seq<string>, now: int, limit: nat)
    requires Agree(t, u, now)
    ensures AnyFull(t, keys, now, limit) <==> AnyFull(u, keys, now, limit)
  {
    forall k
      ensures Full(t, k, now, limit) <==> Full(u, k, now, limit)
    {
      assert Live(t, k, now) <==> Live(u, k, now);
    }
  }
}
