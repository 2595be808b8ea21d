/** Sums of integer-valued functions over finite sets: what SQL's SUM computes over a table. */
module Sums {

  ghost function SumOver<K>(keys: set<K>, f: K -> int): int {
    if keys == {} then 0
    else
      var k :| k in keys;
      f(k) + SumOver(keys - {k}, f)
  }

  lemma {:induction false} SumRemove<K>(keys: set<K>, k: K, f: K -> int)
    requires k in keys
    ensures SumOver(keys, f) == f(k) + SumOver(keys - {k}, f)
    decreases keys
  {
    var p :| p in keys && SumOver(keys, f) == f(p) + SumOver(keys - {p}, f);
    if p != k {
      SumRemove(keys - {p}, k, f);
      SumRemove(keys - {k}, p, f);
      assert keys - {p} - {k} == keys - {k} - {p};
    }
  }

  lemma {:induction false} SumAgree<K>(keys: set<K>, f: K -> int, g: K -> int)
    requires forall k | k in keys :: f(k) == g(k)
    ensures SumOver(keys, f) == SumOver(keys, g)
    decreases keys
  {
    if keys != {} {
      var k :| k in keys;
      SumRemove(keys, k, f);
      SumRemove(keys, k, g);
      SumAgree(keys - {k}, f, g);
    }
  }

  lemma {:induction false} SumUnion<K>(xs: set<K>, ys: set<K>, f: K -> int)
    requires xs !! ys
    ensures SumOver(xs + ys, f) == SumOver(xs, f) + SumOver(ys, f)
    decreases xs
  {
    if xs == {} {
      assert xs + ys == ys;
    } else {
      var k :| k in xs;
      SumRemove(xs + ys, k, f);
      SumRemove(xs, k, f);
      assert xs + ys - {k} == (xs - {k}) + ys;
      SumUnion(xs - {k}, ys, f);
    }
  }

  lemma {:induction false} SumZero<K>(keys: set<K>, f: K -> int)
    requires forall k | k in keys :: f(k) == 0
    ensures SumOver(keys, f) == 0
    decreases keys
  {
    if keys != {} {
      var k :| k in keys;
      SumRemove(keys, k, f);
      SumZero(keys - {k}, f);
    }
  }

  lemma {:induction false} SumNonNegative<K>(keys: set<K>, f: K -> int)
    requires forall k | k in keys :: f(k) >= 0
    ensures SumOver(keys, f) >= 0
    ensures forall k | k in keys :: f(k) <= SumOver(keys, f)
    decreases keys
  {
    if keys != {} {
      forall k | k in keys
        ensures 0 <= f(k) <= SumOver(keys, f)
      {
        SumRemove(keys, k, f);
        SumNonNegative(keys - {k}, f);
      }
    }
  }

  /** The sum of a pointwise combination f = g + h. */
  lemma {:induction false} SumCombine<K>(keys: set<K>, f: K -> int, g: K -> int, h: K -> int)
    requires forall k | k in keys :: f(k) == g(k) + h(k)
    ensures SumOver(keys, f) == SumOver(keys, g) + SumOver(keys, h)
    decreases keys
  {
    if keys != {} {
      var k :| k in keys;
      SumRemove(keys, k, f);
      SumRemove(keys, k, g);
      SumRemove(keys, k, h);
      SumCombine(keys - {k}, f, g, h);
    }
  }

  /** When two tables agree outside `touched`, their sums differ only by the touched rows. */
  lemma SumChange<K>(keys: set<K>, keys': set<K>, f: K -> int, g: K -> int, touched: set<K>)
    requires keys - touched == keys' - touched
    requires forall k | k in keys - touched :: f(k) == g(k)
    ensures SumOver(keys', g) - SumOver(keys, f)
         == SumOver(keys' * touched, g) - SumOver(keys * touched, f)
  {
    SumUnion(keys - touched, keys * touched, f);
    SumUnion(keys' - touched, keys' * touched, g);
    assert keys - touched + keys * touched == keys;
    assert keys' - touched + keys' * touched == keys';
    SumAgree(keys - touched, f, g);
  }

  /** Dropping rows: the rest changes from f = g + h to g. */
  lemma SumDrop<K>(keys: set<K>, gone: set<K>, f: K -> int, g: K -> int, h: K -> int)
    requires forall k | k in keys - gone :: f(k) == g(k) + h(k)
    ensures SumOver(keys - gone, g) == SumOver(keys, f) - SumOver(keys * gone, f) - SumOver(keys - gone, h)
  {
    SumCombine(keys - gone, f, g, h);
    SumUnion(keys - gone, keys * gone, f);
    assert keys - gone + keys * gone == keys;
  }

  /** Rows that count for nothing may come and go. */
  lemma SumIgnoresZeros<K>(xs: set<K>, ys: set<K>, f: K -> int, g: K -> int)
    requires forall k | k in xs || k in ys :: f(k) == g(k)
    requires forall k | k in xs && k !in ys :: f(k) == 0
    requires forall k | k in ys && k !in xs :: f(k) == 0
    ensures SumOver(xs, f) == SumOver(ys, g)
  {
    SumUnion(xs - ys, xs * ys, f);
    SumUnion(ys - xs, xs * ys, f);
    assert xs - ys + xs * ys == xs && ys - xs + xs * ys == ys;
    SumZero(xs - ys, f);
    SumZero(ys - xs, f);
    SumAgree(ys, f, g);
  }

  /** The part of a table on which g and h count. */
  lemma SumPart<K>(keys: set<K>, part: set<K>, f: K -> int, g: K -> int, h: K -> int)
    requires part <= keys
    requires forall k | k in part :: g(k) == f(k) + h(k)
    requires forall k | k in keys - part :: g(k) == 0 && h(k) == 0
    ensures SumOver(part, f) == SumOver(keys, g) - SumOver(keys, h)
  {
    SumCombine(part, g, f, h);
    SumUnion(part, keys - part, g);
    SumUnion(part, keys - part, h);
    assert part + (keys - part) == keys;
    SumZero(keys - part, g);
    SumZero(keys - part, h);
  }

  lemma SumSingleton<K>(k: K, f: K -> int)
    ensures SumOver({k}, f) == f(k)
  {
    SumRemove({k}, k, f);
    assert {k} - {k} == {};
  }

  lemma SumOneMore<K>(keys: set<K>, k: K, f: K -> int)
    requires k !in keys
    ensures SumOver(keys + {k}, f) == SumOver(keys, f) + f(k)
  {
    SumRemove(keys + {k}, k, f);
    assert keys + {k} - {k} == keys;
  }

  /** f on the rows of one group, 0 elsewhere. */
  ghost function Masked<K, G>(f: K -> int, group: K -> G, g: G): K -> int {
    k => if group(k) == g then f(k) else 0
  }

  ghost function Unmasked<K, G>(f: K -> int, group: K -> G, g: G): K -> int {
    k => if group(k) == g then 0 else f(k)
  }

  ghost function GroupSum<K, G>(keys: set<K>, f: K -> int, group: K -> G): G -> int {
    g => SumOver(keys, Masked(f, group, g))
  }

  /** GROUP BY loses nothing: the group sums add up to the whole sum, provided every row that counts
      falls into one of the groups. */
  lemma {:induction false} SumByGroup<K, G>(keys: set<K>, groups: set<G>, f: K -> int, group: K -> G)
    requires forall k | k in keys :: f(k) != 0 ==> group(k) in groups
    ensures SumOver(groups, GroupSum(keys, f, group)) == SumOver(keys, f)
    decreases groups
  {
    if groups == {} {
      SumZero(keys, f);
    } else {
      var g :| g in groups;
      var rest := Unmasked(f, group, g);
      SumCombine(keys, f, Masked(f, group, g), rest);
      SumByGroup(keys, groups - {g}, rest, group);
      forall g' | g' in groups - {g}
        ensures GroupSum(keys, f, group)(g') == GroupSum(keys, rest, group)(g')
      {
        SumAgree(keys, Masked(f, group, g'), Masked(rest, group, g'));
      }
      SumAgree(groups - {g}, GroupSum(keys, f, group), GroupSum(keys, rest, group));
      SumRemove(groups, g, GroupSum(keys, f, group));
    }
  }
}
