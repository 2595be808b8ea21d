/** The stored wallet balance tracks the balance recomputed from the rows: no operation other than
    a manual correction of the month, or the deletion of an envelope, changes their difference. */
module Conservation {
  import opened Wrappers
  import opened Sums
  import opened Ledger
  import opened LedgerOps
  import opened LedgerRuns

  /** What one transaction adds to the expected balance of a month. */
  ghost function EffectOf(rows: Transactions, links: Links, m: MonthKey): Id -> int {
    t => IncomeOf(rows, links, m)(t) - SpendOf(rows, links, m)(t)
  }

  function Signed(x: Transaction): int {
    match x.kind
    case Income => x.amount
    case Spend => -x.amount
    case _ => 0
  }

  lemma EffectIs(rows: Transactions, links: Links, m: MonthKey, t: Id)
    ensures EffectOf(rows, links, m)(t)
         == if t in rows && rows[t].month == m && !HasChildren(links, t) then Signed(rows[t]) else 0
  {
    assert EffectOf(rows, links, m)(t) == IncomeOf(rows, links, m)(t) - SpendOf(rows, links, m)(t);
  }

  ghost function Net(rows: Transactions, links: Links, m: MonthKey): int {
    SumOver(rows.Keys, EffectOf(rows, links, m))
  }

  lemma NetIs(rows: Transactions, links: Links, m: MonthKey)
    ensures Net(rows, links, m) == IncomeTransactionTotal(rows, links, m) - MonthSpend(rows, links, m)
  {
    SumCombine(rows.Keys, IncomeOf(rows, links, m), EffectOf(rows, links, m), SpendOf(rows, links, m));
  }

  /** Only the rows of `touched` matter for a change of the net. */
  lemma NetChange(rows: Transactions, links: Links, rows': Transactions, links': Links, m: MonthKey, touched: set<Id>)
    requires rows.Keys - touched == rows'.Keys - touched
    requires forall t | t in rows.Keys - touched :: EffectOf(rows, links, m)(t) == EffectOf(rows', links', m)(t)
    ensures Net(rows', links', m) - Net(rows, links, m)
         == SumOver(rows'.Keys * touched, EffectOf(rows', links', m))
          - SumOver(rows.Keys * touched, EffectOf(rows, links, m))
  {
    var f, g := EffectOf(rows, links, m), EffectOf(rows', links', m);
    assert forall t | t in rows.Keys - touched :: f(t) == g(t);
    SumChange(rows.Keys, rows'.Keys, f, g, touched);
  }

  /** Writing one row, new or old, of unchanged month. */
  lemma NetOfWrite(rows: Transactions, links: Links, m: MonthKey, id: Id, x: Transaction)
    requires id in rows ==> rows[id].month == x.month
    ensures Net(rows[id := x], links, m) - Net(rows, links, m)
         == if x.month == m && !HasChildren(links, id)
            then Signed(x) - (if id in rows then Signed(rows[id]) else 0) else 0
  {
    var rows' := rows[id := x];
    forall t | t in rows.Keys - {id}
      ensures EffectOf(rows, links, m)(t) == EffectOf(rows', links, m)(t)
    {
      EffectIs(rows, links, m, t);
      EffectIs(rows', links, m, t);
    }
    NetChange(rows, links, rows', links, m, {id});
    EffectIs(rows, links, m, id);
    EffectIs(rows', links, m, id);
    SumSingleton(id, EffectOf(rows', links, m));
    SumSingleton(id, EffectOf(rows, links, m));
    assert rows'.Keys * {id} == {id};
    assert rows.Keys * {id} == if id in rows then {id} else {};
  }

  // ----- Removing rows -----

  ghost predicate AllChildrenIn(links: Links, t: Id, gone: set<Id>) {
    forall c | c in links && links[c] == t :: c in gone
  }

  /** A split parent outside the removed set that loses all its children, and so becomes visible. */
  ghost predicate Revealed(rows: Transactions, links: Links, gone: set<Id>, t: Id) {
    t in rows && t !in gone && HasChildren(links, t) && AllChildrenIn(links, t, gone)
  }

  ghost function RevealedOf(rows: Transactions, links: Links, gone: set<Id>, m: MonthKey): Id -> int {
    t => if Revealed(rows, links, gone, t) && rows[t].month == m then rows[t].amount else 0
  }

  /** A remaining row is a parent afterwards exactly when it keeps a child. */
  lemma ParentsAfterRemoval(s: Ledger, gone: set<Id>, t: Id)
    requires t !in gone
    ensures HasChildren(RemoveTransactions(s, gone).links, t)
       <==> HasChildren(s.links, t) && !AllChildrenIn(s.links, t, gone)
  {
    var links' := RemoveTransactions(s, gone).links;
    if HasChildren(s.links, t) && !AllChildrenIn(s.links, t, gone) {
      var c :| c in s.links && s.links[c] == t && c !in gone;
      assert links'[c] == t;
    }
    if HasChildren(links', t) {
      var c :| c in links' && links'[c] == t;
      assert s.links[c] == t;
    }
  }

  lemma EffectAfterRemoval(s: Ledger, gone: set<Id>, m: MonthKey, t: Id)
    requires Forest(s.transactions, s.links) && t in s.transactions && t !in gone
    ensures var s' := RemoveTransactions(s, gone);
      EffectOf(s'.transactions, s'.links, m)(t)
      == EffectOf(s.transactions, s.links, m)(t) - RevealedOf(s.transactions, s.links, gone, m)(t)
  {
    var s' := RemoveTransactions(s, gone);
    EffectIs(s.transactions, s.links, m, t);
    EffectIs(s'.transactions, s'.links, m, t);
    ParentsAfterRemoval(s, gone, t);
    if HasChildren(s.links, t) {
      var c :| c in s.links && s.links[c] == t;
      assert Linked(s.transactions[c], t, s.transactions[t]);
    }
  }

  /** Removing rows takes their effects away, and hits the month with the parents it reveals. */
  lemma NetOfRemoval(s: Ledger, gone: set<Id>, m: MonthKey)
    requires Forest(s.transactions, s.links)
    ensures var s' := RemoveTransactions(s, gone);
      Net(s'.transactions, s'.links, m)
      == Net(s.transactions, s.links, m) - SumOver(s.transactions.Keys * gone, EffectOf(s.transactions, s.links, m))
         - SumOver(s.transactions.Keys - gone, RevealedOf(s.transactions, s.links, gone, m))
  {
    var s' := RemoveTransactions(s, gone);
    var keys := s.transactions.Keys;
    var f, f' := EffectOf(s.transactions, s.links, m), EffectOf(s'.transactions, s'.links, m);
    var r := RevealedOf(s.transactions, s.links, gone, m);
    assert s'.transactions.Keys == keys - gone;
    forall t | t in keys - gone
      ensures f(t) == f'(t) + r(t)
    {
      EffectAfterRemoval(s, gone, m, t);
    }
    SumDrop(keys, gone, f, f', r);
  }

  /** No row of the month is touched: its net stays. */
  lemma NetElsewhere(s: Ledger, gone: set<Id>, m: MonthKey)
    requires Forest(s.transactions, s.links)
    requires forall t | t in s.transactions && t in gone :: s.transactions[t].month != m
    ensures var s' := RemoveTransactions(s, gone);
      Net(s'.transactions, s'.links, m) == Net(s.transactions, s.links, m)
  {
    NetOfRemoval(s, gone, m);
    forall t | t in s.transactions.Keys * gone
      ensures EffectOf(s.transactions, s.links, m)(t) == 0
    {
      EffectIs(s.transactions, s.links, m, t);
    }
    SumZero(s.transactions.Keys * gone, EffectOf(s.transactions, s.links, m));
    forall t | t in s.transactions.Keys - gone
      ensures RevealedOf(s.transactions, s.links, gone, m)(t) == 0
    {
      if HasChildren(s.links, t) {
        var c :| c in s.links && s.links[c] == t;
        assert Linked(s.transactions[c], t, s.transactions[t]);
      }
    }
    SumZero(s.transactions.Keys - gone, RevealedOf(s.transactions, s.links, gone, m));
  }

  // ----- One split -----

  ghost function Family(links: Links, p: Id): set<Id> {
    Children(links, p) + {p}
  }

  /** A split weighs what its children weigh; an unsplit row weighs its own amount. */
  ghost function FamilyWeight(rows: Transactions, links: Links, p: Id): int
    requires p in rows
  {
    if HasChildren(links, p) then -ChildrenTotal(rows, links, p) else Signed(rows[p])
  }

  lemma FamilyEffect(rows: Transactions, links: Links, p: Id, m: MonthKey)
    requires Forest(rows, links) && p in rows && rows[p].parent.None?
    ensures rows.Keys * Family(links, p) == Family(links, p)
    ensures SumOver(Family(links, p), EffectOf(rows, links, m))
         == if rows[p].month == m then FamilyWeight(rows, links, p) else 0
  {
    var f := EffectOf(rows, links, m);
    var kids := Children(links, p);
    assert forall c | c in kids :: c in links && c in rows;
    assert rows.Keys * Family(links, p) == Family(links, p);
    assert forall c | c in links :: rows[c].parent == Some(links[c]);
    SumUnion(kids, {p}, f);
    SumSingleton(p, f);
    EffectIs(rows, links, m, p);
    if HasChildren(links, p) {
      ChildrenEffect(rows, links, p, m);
    } else {
      assert forall c :: c !in kids;
    }
  }

  lemma ChildrenEffect(rows: Transactions, links: Links, p: Id, m: MonthKey)
    requires Forest(rows, links) && p in rows
    ensures SumOver(Children(links, p), EffectOf(rows, links, m))
         == if rows[p].month == m then -ChildrenTotal(rows, links, p) else 0
  {
    var f := EffectOf(rows, links, m);
    var kids := Children(links, p);
    forall c | c in kids
      ensures f(c) == if rows[p].month == m then -rows[c].amount else 0
    {
      assert Linked(rows[c], p, rows[p]);
      EffectIs(rows, links, m, c);
      ChildHasNoChildren(rows, links, c);
    }
    if rows[p].month == m {
      assert forall c | c in kids :: f(c) == -AmountOf(rows)(c);
      SumNegated(kids, f, AmountOf(rows));
    } else {
      SumZero(kids, f);
    }
  }

  lemma ChildHasNoChildren(rows: Transactions, links: Links, c: Id)
    requires Forest(rows, links) && c in links
    ensures !HasChildren(links, c)
  {
    assert Linked(rows[c], links[c], rows[links[c]]);
    forall d | d in links
      ensures links[d] != c
    {
      assert Linked(rows[d], links[d], rows[links[d]]);
    }
  }

  lemma {:induction false} SumNegated<K>(keys: set<K>, f: K -> int, g: K -> int)
    requires forall k | k in keys :: f(k) == -g(k)
    ensures SumOver(keys, f) == -SumOver(keys, g)
    decreases keys
  {
    if keys != {} {
      var k :| k in keys;
      SumRemove(keys, k, f);
      SumRemove(keys, k, g);
      SumNegated(keys - {k}, f, g);
    }
  }

  lemma NetOfFamilyRemoval(s: Ledger, p: Id, m: MonthKey)
    requires Forest(s.transactions, s.links) && p in s.transactions && s.transactions[p].parent.None?
    ensures var s' := RemoveTransactions(s, Family(s.links, p));
      Net(s'.transactions, s'.links, m) == Net(s.transactions, s.links, m)
        - if s.transactions[p].month == m then FamilyWeight(s.transactions, s.links, p) else 0
  {
    var gone := Family(s.links, p);
    NetOfRemoval(s, gone, m);
    FamilyEffect(s.transactions, s.links, p, m);
    forall t | t in s.transactions.Keys - gone
      ensures !Revealed(s.transactions, s.links, gone, t)
    {
      assert forall c | c in s.links :: c in Children(s.links, s.links[c]);
    }
    SumZero(s.transactions.Keys - gone, RevealedOf(s.transactions, s.links, gone, m));
  }

  lemma EffectAfterSplit(s: Ledger, p: Id, ids: seq<Id>, children: seq<Transaction>, m: MonthKey, t: Id)
    requires Forest(s.transactions, s.links) && |ids| == |children| && AllNew(ids, s.transactions)
    requires t in s.transactions && t != p
    ensures var s' := WithChildren(s, p, ids, children);
      EffectOf(s.transactions, s.links, m)(t) == EffectOf(s'.transactions, s'.links, m)(t)
  {
    var s' := WithChildren(s, p, ids, children);
    EffectIs(s.transactions, s.links, m, t);
    EffectIs(s'.transactions, s'.links, m, t);
    if c :| c in s.links && s.links[c] == t {
      assert c in s.transactions && s'.links[c] == t;
    }
  }

  /** Only the family of p changes the net. */
  lemma NetAroundSplit(s: Ledger, p: Id, ids: seq<Id>, children: seq<Transaction>, m: MonthKey)
    requires Forest(s.transactions, s.links) && p in s.transactions && !HasChildren(s.links, p)
    requires |ids| == |children| > 0 && AllNew(ids, s.transactions)
    ensures var s' := WithChildren(s, p, ids, children);
      Net(s'.transactions, s'.links, m) == Net(s.transactions, s.links, m)
        + SumOver(Family(s'.links, p), EffectOf(s'.transactions, s'.links, m))
        - EffectOf(s.transactions, s.links, m)(p)
  {
    var s' := WithChildren(s, p, ids, children);
    var family := Family(s'.links, p);
    NewChildren(s, p, ids, children);
    forall t | t in s.transactions.Keys - family
      ensures EffectOf(s.transactions, s.links, m)(t) == EffectOf(s'.transactions, s'.links, m)(t)
    {
      EffectAfterSplit(s, p, ids, children, m, t);
    }
    assert s.transactions.Keys - family == s'.transactions.Keys - family;
    NetChange(s.transactions, s.links, s'.transactions, s'.links, m, family);
    assert s.transactions.Keys * family == {p};
    assert s'.transactions.Keys * family == family;
    SumSingleton(p, EffectOf(s.transactions, s.links, m));
  }

  /** Writing the children of p in place of its own effect. */
  lemma NetOfSplit(s: Ledger, p: Id, ids: seq<Id>, children: seq<Transaction>, m: MonthKey)
    requires Valid(s) && p in s.transactions && s.transactions[p].parent.None? && !HasChildren(s.links, p)
    requires s.transactions[p].kind == Spend
    requires |ids| == |children| > 0 && AllNew(ids, s.transactions)
    requires forall x | x in children :: GoodChild(s, p, x)
    ensures var s' := WithChildren(s, p, ids, children);
      Net(s'.transactions, s'.links, m) == Net(s.transactions, s.links, m)
        + if s.transactions[p].month == m
          then s.transactions[p].amount - ChildrenTotal(s'.transactions, s'.links, p) else 0
  {
    var s' := WithChildren(s, p, ids, children);
    NetAroundSplit(s, p, ids, children, m);
    NewChildren(s, p, ids, children);
    ChildrenKeep(s, p, ids, children);
    FamilyEffect(s'.transactions, s'.links, p, m);
    EffectIs(s.transactions, s.links, m, p);
  }

  lemma NewChildren(s: Ledger, p: Id, ids: seq<Id>, children: seq<Transaction>)
    requires Forest(s.transactions, s.links) && p in s.transactions && !HasChildren(s.links, p)
    requires |ids| == |children| > 0 && AllNew(ids, s.transactions)
    ensures var s' := WithChildren(s, p, ids, children);
      Children(s'.links, p) == (set c | c in ids) && HasChildren(s'.links, p)
  {
    var s' := WithChildren(s, p, ids, children);
    assert s'.links[ids[0]] == p;
    assert forall c | c in s.links :: s.links[c] != p;
  }

  /** The new rows together weigh the total that was checked. */
  ghost function SumAlong(ids: seq<Id>, f: Id -> int): int {
    if ids == [] then 0 else SumAlong(ids[..|ids| - 1], f) + f(ids[|ids| - 1])
  }

  lemma {:induction false} SumAlongDistinct(ids: seq<Id>, f: Id -> int)
    requires Distinct(ids)
    ensures SumOver((set c | c in ids), f) == SumAlong(ids, f)
  {
    if ids == [] {
      assert (set c | c in ids) == {};
    } else {
      var n := |ids| - 1;
      SumAlongDistinct(ids[..n], f);
      var all, init := set c | c in ids, set c | c in ids[..n];
      assert ids == ids[..n] + [ids[n]];
      assert all - {ids[n]} == init;
      SumRemove(all, ids[n], f);
    }
  }

  lemma {:induction false} TotalAlong(rows: Transactions, ids: seq<Id>, children: seq<Transaction>)
    requires |ids| == |children|
    requires forall i | 0 <= i < |ids| :: ids[i] in rows && rows[ids[i]] == children[i]
    ensures SumAlong(ids, AmountOf(rows)) == Total(children)
  {
    if ids != [] {
      TotalAlong(rows, ids[..|ids| - 1], children[..|ids| - 1]);
    }
  }

  lemma TotalOfChildren(rows: Transactions, ids: seq<Id>, children: seq<Transaction>)
    requires |ids| == |children| && Distinct(ids)
    requires forall i | 0 <= i < |ids| :: ids[i] in rows && rows[ids[i]] == children[i]
    ensures SumOver((set c | c in ids), AmountOf(rows)) == Total(children)
  {
    SumAlongDistinct(ids, AmountOf(rows));
    TotalAlong(rows, ids, children);
  }

  lemma SplitTotal(s: Ledger, p: Id, ids: seq<Id>, children: seq<Transaction>)
    requires Forest(s.transactions, s.links) && p in s.transactions && !HasChildren(s.links, p)
    requires |ids| == |children| > 0 && AllNew(ids, s.transactions)
    ensures var s' := WithChildren(s, p, ids, children);
      ChildrenTotal(s'.transactions, s'.links, p) == Total(children)
  {
    var s' := WithChildren(s, p, ids, children);
    NewChildren(s, p, ids, children);
    forall i | 0 <= i < |ids|
      ensures ids[i] in s'.transactions && s'.transactions[ids[i]] == children[i]
    {
      KeyedRow(ids, children, i);
    }
    TotalOfChildren(s'.transactions, ids, children);
  }

  // ----- Income items -----

  lemma ItemsOfWrite(incomes: Incomes, m: MonthKey, id: Id, x: IncomeItem)
    requires id in incomes ==> incomes[id].month == x.month
    ensures ItemTotal(incomes[id := x], m) - ItemTotal(incomes, m)
         == if x.month == m then x.amount - (if id in incomes then incomes[id].amount else 0) else 0
  {
    var incomes' := incomes[id := x];
    SumChange(incomes.Keys, incomes'.Keys, ItemOf(incomes, m), ItemOf(incomes', m), {id});
    SumSingleton(id, ItemOf(incomes', m));
    SumSingleton(id, ItemOf(incomes, m));
    assert incomes'.Keys * {id} == {id};
    assert incomes.Keys * {id} == if id in incomes then {id} else {};
  }

  lemma ItemsOfRemoval(incomes: Incomes, m: MonthKey, gone: set<Id>)
    ensures ItemTotal(Drop(incomes, gone), m)
         == ItemTotal(incomes, m) - SumOver(incomes.Keys * gone, ItemOf(incomes, m))
  {
    var incomes' := Drop(incomes, gone);
    SumChange(incomes.Keys, incomes'.Keys, ItemOf(incomes, m), ItemOf(incomes', m), gone);
    assert incomes'.Keys * gone == {};
  }
}
