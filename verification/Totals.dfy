/** The totals that different screens compute separately agree, and what a spend does to the
    available balance. */
module Totals {
  import opened Wrappers
  import opened Sums
  import opened Ledger
  import opened MonthRows
  import opened LedgerOps
  import opened LedgerRuns

  // ----- Spending, by envelope and by category -----

  function EnvelopesOf(s: Ledger, m: MonthKey): set<Id> {
    set a | a in s.allocations && s.allocations[a].month == m
  }

  ghost function SpentIn(rows: Transactions, links: Links): Id -> int {
    a => Spent(rows, links, a)
  }

  /** categoryBreakdown: a category's visible spending in a month. */
  function CategorySpendOf(rows: Transactions, links: Links, m: MonthKey, c: Id): Id -> int {
    t => if VisibleSpend(rows, links, t) && rows[t].month == m && rows[t].category == c then rows[t].amount else 0
  }

  ghost function CategorySpend(rows: Transactions, links: Links, m: MonthKey): Id -> int {
    c => SumOver(rows.Keys, CategorySpendOf(rows, links, m, c))
  }

  /** categoryBreakdown narrowed to one envelope. */
  function EnvelopeCategorySpendOf(rows: Transactions, links: Links, m: MonthKey, a: Id, c: Id): Id -> int {
    t => if VisibleSpend(rows, links, t) && rows[t].month == m && rows[t].allocation == a && rows[t].category == c
         then rows[t].amount else 0
  }

  ghost function EnvelopeCategorySpend(rows: Transactions, links: Links, m: MonthKey, a: Id): Id -> int {
    c => SumOver(rows.Keys, EnvelopeCategorySpendOf(rows, links, m, a, c))
  }

  ghost function AllocationOf(rows: Transactions): Id -> Id {
    t => if t in rows then rows[t].allocation else t
  }

  ghost function CategoryOf(rows: Transactions): Id -> Id {
    t => if t in rows then rows[t].category else t
  }

  /** A table grouped by one of its columns adds up to the ungrouped sum. */
  lemma GroupedByColumn(rows: Transactions, ids: set<Id>, f: Id -> int, column: Id -> Id, parts: Id -> int)
    requires forall t | t in rows.Keys :: f(t) != 0 ==> column(t) in ids
    requires forall a | a in ids :: parts(a) == SumOver(rows.Keys, Masked(f, column, a))
    ensures SumOver(ids, parts) == SumOver(rows.Keys, f)
  {
    forall t | t in rows.Keys && f(t) != 0
      ensures column(t) in ids
    {
    }
    SumByGroup(rows.Keys, ids, f, column);
    forall a | a in ids
      ensures GroupSum(rows.Keys, f, column)(a) == parts(a)
    {
    }
    SumAgree(ids, GroupSum(rows.Keys, f, column), parts);
  }

  /** The envelopes of a month, the hidden one included, spend what the month spends: this is where a
      transaction's envelope must belong to the transaction's month. */
  lemma EnvelopesAddUp(s: Ledger, m: MonthKey)
    requires Referential(s)
    ensures SumOver(EnvelopesOf(s, m), SpentIn(s.transactions, s.links)) == MonthSpend(s.transactions, s.links, m)
  {
    var rows, f, column := s.transactions, SpendOf(s.transactions, s.links, m), AllocationOf(s.transactions);
    forall t | t in rows.Keys
      ensures f(t) != 0 ==> column(t) in EnvelopesOf(s, m)
    {
      assert Filed(s, rows[t]);
    }
    forall a | a in EnvelopesOf(s, m)
      ensures SpentIn(rows, s.links)(a) == SumOver(rows.Keys, Masked(f, column, a))
    {
      forall t | t in rows.Keys
        ensures EnvelopeSpendOf(rows, s.links, a)(t) == Masked(f, column, a)(t)
      {
        assert Filed(s, rows[t]);
      }
      SumAgree(rows.Keys, EnvelopeSpendOf(rows, s.links, a), Masked(f, column, a));
    }
    GroupedByColumn(rows, EnvelopesOf(s, m), f, column, SpentIn(rows, s.links));
  }

  /** The category breakdown of a month adds up to the month's spending. */
  lemma CategoriesAddUp(s: Ledger, m: MonthKey)
    requires Referential(s)
    ensures SumOver(s.categories.Keys, CategorySpend(s.transactions, s.links, m))
         == MonthSpend(s.transactions, s.links, m)
  {
    var rows, f, column := s.transactions, SpendOf(s.transactions, s.links, m), CategoryOf(s.transactions);
    forall t | t in rows.Keys
      ensures f(t) != 0 ==> column(t) in s.categories.Keys
    {
      assert Filed(s, rows[t]);
    }
    forall c | c in s.categories.Keys
      ensures CategorySpend(rows, s.links, m)(c) == SumOver(rows.Keys, Masked(f, column, c))
    {
      forall t | t in rows.Keys
        ensures CategorySpendOf(rows, s.links, m, c)(t) == Masked(f, column, c)(t)
      {
      }
      SumAgree(rows.Keys, CategorySpendOf(rows, s.links, m, c), Masked(f, column, c));
    }
    GroupedByColumn(rows, s.categories.Keys, f, column, CategorySpend(rows, s.links, m));
  }

  /** An envelope's own breakdown, which filters by month as well, adds up to its spent figure,
      which does not. */
  lemma EnvelopeCategoriesAddUp(s: Ledger, a: Id)
    requires Referential(s) && a in s.allocations
    ensures SumOver(s.categories.Keys, EnvelopeCategorySpend(s.transactions, s.links, s.allocations[a].month, a))
         == Spent(s.transactions, s.links, a)
  {
    var m := s.allocations[a].month;
    var rows, f, column := s.transactions, EnvelopeSpendOf(s.transactions, s.links, a), CategoryOf(s.transactions);
    forall t | t in rows.Keys
      ensures f(t) != 0 ==> column(t) in s.categories.Keys
    {
      assert Filed(s, rows[t]);
    }
    forall c | c in s.categories.Keys
      ensures EnvelopeCategorySpend(rows, s.links, m, a)(c) == SumOver(rows.Keys, Masked(f, column, c))
    {
      forall t | t in rows.Keys
        ensures EnvelopeCategorySpendOf(rows, s.links, m, a, c)(t) == Masked(f, column, c)(t)
      {
        assert Filed(s, rows[t]);
      }
      SumAgree(rows.Keys, EnvelopeCategorySpendOf(rows, s.links, m, a, c), Masked(f, column, c));
    }
    GroupedByColumn(rows, s.categories.Keys, f, column, EnvelopeCategorySpend(rows, s.links, m, a));
  }

  /** In every reachable ledger the three computations of a month's spending agree. */
  lemma TotalsAgreeOnRuns(s: Ledger, ops: seq<Op>, s': Ledger, m: MonthKey)
    requires Sound(s) && Run(s, ops, s')
    ensures SumOver(EnvelopesOf(s', m), SpentIn(s'.transactions, s'.links)) == MonthSpend(s'.transactions, s'.links, m)
    ensures SumOver(s'.categories.Keys, CategorySpend(s'.transactions, s'.links, m))
         == MonthSpend(s'.transactions, s'.links, m)
    ensures forall a | a in s'.allocations ::
      SumOver(s'.categories.Keys, EnvelopeCategorySpend(s'.transactions, s'.links, s'.allocations[a].month, a))
      == Spent(s'.transactions, s'.links, a)
  {
    RunKeepsSound(s, ops, s');
    EnvelopesAddUp(s', m);
    CategoriesAddUp(s', m);
    forall a | a in s'.allocations
      ensures SumOver(s'.categories.Keys, EnvelopeCategorySpend(s'.transactions, s'.links, s'.allocations[a].month, a))
           == Spent(s'.transactions, s'.links, a)
    {
      EnvelopeCategoriesAddUp(s', a);
    }
  }

  // ----- Available balance -----

  function Max0(n: int): int {
    if n > 0 then n else 0
  }

  /** A new spend raises its envelope's spent figure, and no other's. */
  lemma SpentAfterInsertion(s: Ledger, id: Id, x: Transaction, a: Id)
    requires Forest(s.transactions, s.links) && id !in s.transactions && x.kind == Spend
    ensures Spent(s.transactions[id := x], s.links, a)
         == Spent(s.transactions, s.links, a) + if x.allocation == a then x.amount else 0
  {
    var rows, rows' := s.transactions, s.transactions[id := x];
    var f, f' := EnvelopeSpendOf(rows, s.links, a), EnvelopeSpendOf(rows', s.links, a);
    assert !HasChildren(s.links, id);
    forall t | t in rows.Keys - {id}
      ensures f(t) == f'(t)
    {
    }
    SumChange(rows.Keys, rows'.Keys, f, f', {id});
    SumSingleton(id, f');
    assert rows.Keys * {id} == {};
    assert rows'.Keys * {id} == {id};
  }

  lemma ReservedAfterInsertion(s: Ledger, id: Id, x: Transaction, m: MonthKey)
    requires Forest(s.transactions, s.links) && id !in s.transactions && x.kind == Spend && x.amount > 0
    requires x.allocation in s.allocations && s.allocations[x.allocation].month == x.month
    ensures var s' := s.(transactions := s.transactions[id := x]);
      Reserved(s', m) == Reserved(s, m) +
        if x.month == m && Reserving(s.allocations[x.allocation])
        then Max0(Remaining(s, x.allocation) - x.amount) - Max0(Remaining(s, x.allocation)) else 0
  {
    var s' := s.(transactions := s.transactions[id := x]);
    var f, f' := ReservedOf(s, m), ReservedOf(s', m);
    forall b | b in s.allocations
      ensures f'(b) == if b == x.allocation && x.month == m && Reserving(s.allocations[b])
                       then Max0(Remaining(s, b) - x.amount) else f(b)
    {
      SpentAfterInsertion(s, id, x, b);
    }
    OneReservedChanges(s.allocations.Keys, x.allocation, f, f');
  }

  lemma OneReservedChanges(keys: set<Id>, a: Id, f: Id -> int, f': Id -> int)
    requires a in keys && forall b | b in keys && b != a :: f'(b) == f(b)
    ensures SumOver(keys, f') == SumOver(keys, f) + f'(a) - f(a)
  {
    assert forall b | b in keys - {a} :: f(b) == f'(b);
    SumChange(keys, keys, f, f', {a});
    assert keys * {a} == {a};
    SumSingleton(a, f);
    SumSingleton(a, f');
  }

  lemma InsertionLowersAvailable(s: Ledger, id: Id, x: Transaction, m: MonthKey)
    requires Forest(s.transactions, s.links) && id !in s.transactions && x.kind == Spend && x.amount > 0
    requires m in s.months && x.month == m
    requires x.allocation in s.allocations && s.allocations[x.allocation].month == m
    ensures Available(AddWallet(s.(transactions := s.transactions[id := x]), m, -x.amount), m)
         == Available(s, m) - (if Reserving(s.allocations[x.allocation])
                               then Max0(x.amount - Max0(Remaining(s, x.allocation))) else x.amount)
  {
    ReservedAfterInsertion(s, id, x, m);
    WalletLeavesReserved(s.(transactions := s.transactions[id := x]), m, -x.amount, m);
  }

  /** The shape of an accepted spend. */
  lemma CreatedIs(s: Ledger, key: string, input: TransactionInput, today: string, id: Id, m: MonthKey, a: Id)
    returns (x: Transaction)
    requires CreateTransaction(s, key, input, today, id).Success?
    requires FindMonth(s, key) == Success(m) && input.allocation == Some(a)
    ensures a in s.allocations && s.allocations[a].month == m
    ensures m in s.months && s.months[m].status == Open
    ensures x.month == m && x.allocation == a && x.kind == Spend && x.amount == input.amount > 0 && x.parent.None?
    ensures CreateTransaction(s, key, input, today, id)
         == Success(AddWallet(s.(transactions := s.transactions[id := x]), m, -x.amount))
  {
    x := CheckTransaction(s, m, input, today).value;
  }

  /** A spend lowers the available balance by exactly what it overspends its envelope; spends filed in an
      inactive envelope, or in the hidden one, lower it by their full amount. */
  lemma SpendLowersAvailableByOverspend(s: Ledger, key: string, input: TransactionInput, today: string, id: Id,
                                        m: MonthKey, a: Id)
    requires Valid(s) && id !in s.transactions && CreateTransaction(s, key, input, today, id).Success?
    requires FindMonth(s, key) == Success(m) && input.allocation == Some(a)
    ensures var s' := CreateTransaction(s, key, input, today, id).value;
      && m in s'.months && a in s.allocations
      && Available(s', m) == Available(s, m)
           - (if s.allocations[a].active && s.allocations[a].name != "Reconcillation Adjustment"
              then Max0(input.amount - Max0(Remaining(s, a))) else input.amount)
  {
    var x := CreatedIs(s, key, input, today, id, m, a);
    InsertionLowersAvailable(s, id, x, m);
  }

  lemma WalletLeavesReserved(s: Ledger, k: MonthKey, delta: int, m: MonthKey)
    requires k in s.months
    ensures Reserved(AddWallet(s, k, delta), m) == Reserved(s, m)
  {
    var s' := AddWallet(s, k, delta);
    var f, f' := ReservedOf(s, m), ReservedOf(s', m);
    forall a | a in s.allocations.Keys
      ensures f(a) == f'(a)
    {
    }
    SumAgree(s.allocations.Keys, f, f');
  }

  /** A run of accepted spends of month m, each within what its active envelope has left at the time. */
  ghost predicate SpendsWithinEnvelopes(s: Ledger, ops: seq<Op>, m: MonthKey)
    decreases |ops|
  {
    ops != [] ==>
      && GoodTemplates(s) && ops[0].OpCreateTransaction? && Ready(s, ops[0]) && Attempt(s, ops[0]).Success?
      && FindMonth(s, ops[0].key) == Success(m)
      && ops[0].transaction.allocation.Some? && ops[0].transaction.allocation.value in s.allocations
      && Reserving(s.allocations[ops[0].transaction.allocation.value])
      && ops[0].transaction.amount <= Remaining(s, ops[0].transaction.allocation.value)
      && SpendsWithinEnvelopes(Next(s, ops[0]), ops[1..], m)
  }

  /** Spending what was set aside leaves the available balance alone. */
  lemma {:induction false} AvailableIsConstantWithinEnvelopes(s: Ledger, ops: seq<Op>, s': Ledger, m: MonthKey)
    requires Sound(s) && Run(s, ops, s') && m in s.months && SpendsWithinEnvelopes(s, ops, m)
    ensures m in s'.months && Available(s', m) == Available(s, m)
    decreases |ops|
  {
    if ops != [] {
      SpendLowersAvailableByOverspend(s, ops[0].key, ops[0].transaction, ops[0].today, ops[0].id, m,
                                      ops[0].transaction.allocation.value);
      StepKeepsSound(s, ops[0]);
      AvailableIsConstantWithinEnvelopes(Next(s, ops[0]), ops[1..], s', m);
    }
  }
}
