/** The month summary and the breakdowns, computed by loops over query rows. */
module Summary {
  import opened Wrappers
  import opened Sums
  import opened Ledger
  import opened LedgerOps
  import opened Totals

  /** The next row of a result set, in no particular order. */
  method Pick<K>(rows: set<K>) returns (row: K)
    requires rows != {}
    ensures row in rows
  {
    row :| row in rows;
  }

  /** COALESCE(SUM(f), 0). */
  method Sum<K(==)>(rows: set<K>, f: K -> int) returns (total: int)
    ensures total == SumOver(rows, f)
  {
    total := 0;
    var todo := rows;
    while todo != {}
      invariant todo <= rows
      invariant total + SumOver(todo, f) == SumOver(rows, f)
      decreases |todo|
    {
      var k := Pick(todo);
      SumRemove(todo, k, f);
      total := total + f(k);
      todo := todo - {k};
    }
  }

  /** expectedBalance. */
  method ExpectedBalance(s: Ledger, m: MonthKey) returns (expected: int)
    requires m in s.months
    ensures expected == Expected(s, m)
  {
    var incomeTotal := Sum(s.incomes.Keys, ItemOf(s.incomes, m));
    var incomeTransactionTotal := Sum(s.transactions.Keys, IncomeOf(s.transactions, s.links, m));
    incomeTotal := incomeTotal + incomeTransactionTotal;
    var spendingTotal := Sum(s.transactions.Keys, SpendOf(s.transactions, s.links, m));
    expected := s.months[m].opening + incomeTotal - spendingTotal;
  }

  /** A row of a category breakdown. */
  datatype CategoryTotal = CategoryTotal(amount: int, count: nat)

  ghost function AmountIn(breakdown: map<Id, CategoryTotal>): Id -> int {
    c => if c in breakdown then breakdown[c].amount else 0
  }

  /** The envelopes of a month, each with its spending: the rows of the summary query. */
  method SpentPerEnvelope(s: Ledger, m: MonthKey) returns (spent: map<Id, int>)
    ensures spent.Keys == EnvelopesOf(s, m)
    ensures forall a | a in spent :: spent[a] == Spent(s.transactions, s.links, a)
  {
    spent := map[];
    var todo := EnvelopesOf(s, m);
    while todo != {}
      invariant todo <= EnvelopesOf(s, m) && spent.Keys == EnvelopesOf(s, m) - todo
      invariant forall a | a in spent :: spent[a] == Spent(s.transactions, s.links, a)
      decreases |todo|
    {
      var a := Pick(todo);
      var amount := Sum(s.transactions.Keys, EnvelopeSpendOf(s.transactions, s.links, a));
      spent := spent[a := amount];
      todo := todo - {a};
    }
  }

  datatype AllocationSummary = AllocationSummary(spent: int, remaining: int)

  /** isReconciliationAllocationName. */
  predicate Hidden(a: Allocation) {
    a.name == RECONCILIATION_ALLOCATION_NAME
  }

  /** What an envelope with this much spent reserves. */
  function Reserve(a: Allocation, spent: int): int {
    if !Hidden(a) && a.active && a.budget > spent then a.budget - spent else 0
  }

  ghost function ReservedRow(allocations: Allocations, spent: map<Id, int>): Id -> int {
    a => if a in spent && a in allocations then Reserve(allocations[a], spent[a]) else 0
  }

  /** The loop of listAllocationSummaries: the hidden envelope counts in the spending, and is left
      out of the list and of the reserve. */
  method Tally(allocations: Allocations, spent: map<Id, int>, ghost reservedOf: Id -> int, ghost spentOf: Id -> int)
    returns (summaries: map<Id, AllocationSummary>, totalReserved: int, spendingTotal: int)
    requires spent.Keys <= allocations.Keys
    requires forall a | a in spent :: reservedOf(a) == Reserve(allocations[a], spent[a]) && spentOf(a) == spent[a]
    ensures forall a :: a in summaries <==> a in spent && !Hidden(allocations[a])
    ensures forall a | a in summaries :: summaries[a] == AllocationSummary(spent[a], allocations[a].budget - spent[a])
    ensures totalReserved == SumOver(spent.Keys, reservedOf)
    ensures spendingTotal == SumOver(spent.Keys, spentOf)
  {
    summaries, totalReserved, spendingTotal := map[], 0, 0;
    var todo := spent.Keys;
    while todo != {}
      invariant todo <= spent.Keys
      invariant forall a :: a in summaries <==> a in spent && a !in todo && !Hidden(allocations[a])
      invariant forall a | a in summaries ::
        summaries[a] == AllocationSummary(spent[a], allocations[a].budget - spent[a])
      invariant totalReserved + SumOver(todo, reservedOf) == SumOver(spent.Keys, reservedOf)
      invariant spendingTotal + SumOver(todo, spentOf) == SumOver(spent.Keys, spentOf)
      decreases |todo|
    {
      var a := Pick(todo);
      SumRemove(todo, a, reservedOf);
      SumRemove(todo, a, spentOf);
      todo := todo - {a};
      spendingTotal := spendingTotal + spent[a];
      if Hidden(allocations[a]) { continue; }
      var remaining := allocations[a].budget - spent[a];
      if allocations[a].active && remaining > 0 {
        totalReserved := totalReserved + remaining;
      }
      summaries := summaries[a := AllocationSummary(spent[a], remaining)];
    }
  }

  /** listAllocationSummaries, with the totals the ledger defines for the month. */
  method ListAllocationSummaries(s: Ledger, m: MonthKey)
    returns (summaries: map<Id, AllocationSummary>, totalReserved: int, spendingTotal: int)
    requires Referential(s)
    ensures forall a | a in summaries ::
      a in s.allocations && summaries[a] == AllocationSummary(Spent(s.transactions, s.links, a), Remaining(s, a))
    ensures forall a :: a in summaries <==>
      a in EnvelopesOf(s, m) && !Hidden(s.allocations[a])
    ensures totalReserved == Reserved(s, m)
    ensures spendingTotal == MonthSpend(s.transactions, s.links, m)
  {
    var spent := SpentPerEnvelope(s, m);
    summaries, totalReserved, spendingTotal :=
      Tally(s.allocations, spent, ReservedRow(s.allocations, spent), SpentIn(s.transactions, s.links));
    ReservedInMonth(s, m, spent);
    EnvelopesAddUp(s, m);
  }

  lemma ReservedInMonth(s: Ledger, m: MonthKey, spent: map<Id, int>)
    requires spent.Keys == EnvelopesOf(s, m)
    requires forall a | a in spent :: spent[a] == Spent(s.transactions, s.links, a)
    ensures SumOver(spent.Keys, ReservedRow(s.allocations, spent)) == Reserved(s, m)
  {
    SumIgnoresZeros(spent.Keys, s.allocations.Keys, ReservedRow(s.allocations, spent), ReservedOf(s, m));
  }

  datatype MonthSummary = MonthSummary(
    allocations: map<Id, AllocationSummary>, incomeTotal: int, spendingTotal: int, expected: int, wallet: int,
    variance: int, totalReserved: int, available: int)

  /** Summary: every figure on the page is the one the ledger defines, although the expected balance
      is computed here from the envelopes' spending and there from the month's. */
  method Summarise(s: Ledger, key: string) returns (r: Result<MonthSummary, Validation.Error>)
    requires Referential(s)
    ensures r.Success? <==> FindMonth(s, key).Success?
    ensures r.Success? ==>
      var m := FindMonth(s, key).value;
      && (forall a | a in r.value.allocations ::
            a in s.allocations && r.value.allocations[a] == AllocationSummary(Spent(s.transactions, s.links, a),
                                                                       Remaining(s, a)))
      && (forall a :: a in r.value.allocations <==>
            a in EnvelopesOf(s, m) && !Hidden(s.allocations[a]))
      && r.value.expected == Expected(s, m)
      && r.value.variance == Variance(s, m)
      && r.value.totalReserved == Reserved(s, m)
      && r.value.available == Available(s, m)
      && r.value.spendingTotal == MonthSpend(s.transactions, s.links, m)
      && r.value.expected == s.months[m].opening + r.value.incomeTotal - r.value.spendingTotal
      && r.value.wallet == s.months[m].wallet
  {
    var m :- FindMonth(s, key);
    var incomeTotal := Sum(s.incomes.Keys, ItemOf(s.incomes, m));
    var incomeTransactionTotal := Sum(s.transactions.Keys, IncomeOf(s.transactions, s.links, m));
    incomeTotal := incomeTotal + incomeTransactionTotal;
    var summaries, totalReserved, spendingTotal := ListAllocationSummaries(s, m);
    var wallet := s.months[m].wallet;
    var expected := s.months[m].opening + incomeTotal - spendingTotal;
    r := Success(MonthSummary(summaries, incomeTotal, spendingTotal, expected, wallet, wallet - expected,
                              totalReserved, wallet - totalReserved));
  }

  function BreakdownOf(s: Ledger, m: MonthKey, a: Option<Id>, c: Id): Id -> int {
    if a.Some? then EnvelopeCategorySpendOf(s.transactions, s.links, m, a.value, c)
    else CategorySpendOf(s.transactions, s.links, m, c)
  }

  ghost function BreakdownIn(s: Ledger, m: MonthKey, a: Option<Id>): Id -> int {
    if a.Some? then EnvelopeCategorySpend(s.transactions, s.links, m, a.value)
    else CategorySpend(s.transactions, s.links, m)
  }

  /** A row that the breakdown counts in a category. */
  predicate InBreakdown(s: Ledger, m: MonthKey, a: Option<Id>, c: Id, t: Id) {
    && VisibleSpend(s.transactions, s.links, t)
    && s.transactions[t].month == m && s.transactions[t].category == c
    && (a.Some? ==> s.transactions[t].allocation == a.value)
  }

  function CategoryRows(s: Ledger, m: MonthKey, a: Option<Id>, c: Id): set<Id> {
    set t | t in s.transactions && InBreakdown(s, m, a, c, t)
  }

  /** categoryBreakdown: the categories with spending, of a month or of one of its envelopes, with what was
      spent and in how many rows. It adds up to the month's spending, or to the envelope's spent figure. */
  method CategoryBreakdown(s: Ledger, m: MonthKey, a: Option<Id>) returns (breakdown: map<Id, CategoryTotal>)
    requires Referential(s)
    requires a.Some? ==> a.value in s.allocations && s.allocations[a.value].month == m
    ensures forall c :: c in breakdown <==> c in s.categories && CategoryRows(s, m, a, c) != {}
    ensures forall c :: c in breakdown <==> c in s.categories && BreakdownIn(s, m, a)(c) > 0
    ensures forall c | c in breakdown ::
      breakdown[c] == CategoryTotal(BreakdownIn(s, m, a)(c), |CategoryRows(s, m, a, c)|)
    ensures SumOver(breakdown.Keys, AmountIn(breakdown))
         == if a.Some? then Spent(s.transactions, s.links, a.value) else MonthSpend(s.transactions, s.links, m)
  {
    forall c | c in s.categories
      ensures BreakdownIn(s, m, a)(c) == SumOver(s.transactions.Keys, BreakdownOf(s, m, a, c)) >= 0
      ensures BreakdownIn(s, m, a)(c) > 0 <==> CategoryRows(s, m, a, c) != {}
    {
      BreakdownSign(s, m, a, c);
    }
    breakdown := GroupedRows(s, m, a, BreakdownIn(s, m, a), c => |CategoryRows(s, m, a, c)|);
    BreakdownAddsUp(s, m, a, breakdown);
  }

  /** One group of the query. */
  method Group(s: Ledger, m: MonthKey, a: Option<Id>, c: Id) returns (group: CategoryTotal)
    ensures group.amount == SumOver(s.transactions.Keys, BreakdownOf(s, m, a, c))
    ensures group.count == |CategoryRows(s, m, a, c)|
  {
    var amount := Sum(s.transactions.Keys, BreakdownOf(s, m, a, c));
    group := CategoryTotal(amount, |CategoryRows(s, m, a, c)|);
  }

  /** The query's groups, one category at a time. */
  method GroupedRows(s: Ledger, m: MonthKey, a: Option<Id>, ghost total: Id -> int, ghost number: Id -> nat)
    returns (breakdown: map<Id, CategoryTotal>)
    requires forall c | c in s.categories :: total(c) == SumOver(s.transactions.Keys, BreakdownOf(s, m, a, c))
    requires forall c | c in s.categories :: number(c) == |CategoryRows(s, m, a, c)|
    ensures forall c :: c in breakdown <==> c in s.categories && number(c) > 0
    ensures forall c | c in breakdown :: breakdown[c] == CategoryTotal(total(c), number(c))
  {
    breakdown := map[];
    var todo := s.categories.Keys;
    while todo != {}
      invariant todo <= s.categories.Keys
      invariant forall c :: c in breakdown <==> c in s.categories && c !in todo && number(c) > 0
      invariant forall c | c in breakdown :: breakdown[c] == CategoryTotal(total(c), number(c))
      decreases |todo|
    {
      var c := Pick(todo);
      var group := Group(s, m, a, c);
      todo := todo - {c};
      if group.count > 0 {
        breakdown := breakdown[c := group];
      }
    }
  }

  lemma BreakdownAddsUp(s: Ledger, m: MonthKey, a: Option<Id>, breakdown: map<Id, CategoryTotal>)
    requires Referential(s)
    requires a.Some? ==> a.value in s.allocations && s.allocations[a.value].month == m
    requires forall c | c in breakdown :: c in s.categories && breakdown[c].amount == BreakdownIn(s, m, a)(c)
    requires forall c | c in s.categories && c !in breakdown :: BreakdownIn(s, m, a)(c) == 0
    ensures SumOver(breakdown.Keys, AmountIn(breakdown))
         == if a.Some? then Spent(s.transactions, s.links, a.value) else MonthSpend(s.transactions, s.links, m)
  {
    SumIgnoresZeros(s.categories.Keys, breakdown.Keys, BreakdownIn(s, m, a), AmountIn(breakdown));
    if a.Some? {
      EnvelopeCategoriesAddUp(s, a.value);
    } else {
      CategoriesAddUp(s, m);
    }
  }

  lemma BreakdownSign(s: Ledger, m: MonthKey, a: Option<Id>, c: Id)
    requires Referential(s)
    ensures BreakdownIn(s, m, a)(c) == SumOver(s.transactions.Keys, BreakdownOf(s, m, a, c)) >= 0
    ensures BreakdownIn(s, m, a)(c) > 0 <==> CategoryRows(s, m, a, c) != {}
  {
    var keys, f := s.transactions.Keys, BreakdownOf(s, m, a, c);
    forall t | t in keys
      ensures f(t) >= 0 && (f(t) > 0 <==> InBreakdown(s, m, a, c, t))
    {
      assert Filed(s, s.transactions[t]);
    }
    SumNonNegative(keys, f);
    if CategoryRows(s, m, a, c) == {} {
      assert forall t | t in keys :: t !in CategoryRows(s, m, a, c);
      SumZero(keys, f);
    } else {
      var t :| t in CategoryRows(s, m, a, c);
      assert t in keys && 0 < f(t) <= SumOver(keys, f);
    }
  }
}
