/** A split across two envelopes, and what deleting either of them leaves of it. */
module SplitExamples {
  import opened Wrappers
  import opened Text
  import opened Calendar
  import opened Ledger
  import opened MonthRows
  import opened LedgerOps
  import opened LedgerRuns
  import opened Splits
  import opened Origins
  import Sums

  function Envelope(m: MonthKey, name: string): Allocation {
    Allocation(m, None, name, 300, "flexible", false, 0, true, [], 0)
  }

  function Row(m: MonthKey, date: string, a: Id, amount: int, source: Source, parent: Option<Id>): Transaction {
    Transaction(m, a, UNSORTED_CATEGORY, date, amount, None, false, Spend, source, parent)
  }

  /** Envelopes 2 and 4 in one open month, with the given transactions. */
  function Tables(m: MonthKey, rows: Transactions, links: Links): Ledger {
    Ledger(map[m := Month(1000, 900, Open, None)], map[], map[2 := Envelope(m, "Food"), 4 := Envelope(m, "House")],
           rows, links, map[UNSORTED_CATEGORY := Category("Unsorted", None, true)], map[], map[])
  }

  /** A manual spend of 100 in envelope 2. */
  function Unsplit(m: MonthKey, date: string): Ledger {
    Tables(m, map[3 := Row(m, date, 2, 100, Manual, None)], map[])
  }

  /** The spend split into 60 in envelope 2 and 40 in envelope 4. */
  function Across(m: MonthKey, date: string): Ledger {
    Tables(m, map[3 := Row(m, date, 2, 100, Manual, None), 5 := Row(m, date, 2, 60, Split, Some(3)),
                  6 := Row(m, date, 4, 40, Split, Some(3))], map[5 := 3, 6 := 3])
  }

  /** After deleting envelope 2: the child in envelope 4 has lost its parent. */
  function Stray(m: MonthKey, date: string): Ledger {
    WithoutFood(Tables(m, map[6 := Row(m, date, 4, 40, Split, None)], map[]))
  }

  /** After splitting that child. */
  function SplitAgain(m: MonthKey, date: string): Ledger {
    WithoutFood(Tables(m, map[6 := Row(m, date, 4, 40, Split, None), 7 := Row(m, date, 4, 10, Split, Some(6)),
                              8 := Row(m, date, 4, 30, Split, Some(6))], map[7 := 6, 8 := 6]))
  }

  function WithoutFood(s: Ledger): Ledger {
    s.(allocations := Drop(s.allocations, {2}))
  }

  function Part(a: Id, amount: int): TransactionInput {
    TransactionInput(Some(a), None, "", amount, None, false)
  }

  /** A split into two rows. */
  lemma SplitInTwo(s: Ledger, id: Id, a: TransactionInput, b: TransactionInput, i: Id, j: Id,
                   x: Transaction, y: Transaction)
    requires SplitGuard(s, id, [a, b]).Pass? && i != j
    requires CheckSplitRow(s, id, a) == Success(x) && CheckSplitRow(s, id, b) == Success(y)
    requires x.amount + y.amount == s.transactions[id].amount
    ensures SplitTransaction(s, id, [a, b], [i, j])
         == Success(s.(transactions := s.transactions[i := x][j := y], links := s.links[i := id][j := id]))
  {
    RowsOfTwo(s, id, a, b);
    SplitSucceeds(s, id, [a, b], [i, j], [x, y]);
    WithTwoChildren(s, id, i, j, x, y);
  }

  lemma WithTwoChildren(s: Ledger, id: Id, i: Id, j: Id, x: Transaction, y: Transaction)
    ensures WithChildren(s, id, [i, j], [x, y])
         == s.(transactions := s.transactions[i := x][j := y], links := s.links[i := id][j := id])
  {
    KeyedTwo(i, j, x, y);
    assert s.transactions + map[i := x][j := y] == s.transactions[i := x][j := y];
    LinksOfTwo(s.links, id, i, j);
  }

  lemma SplitSucceeds(s: Ledger, id: Id, rows: seq<TransactionInput>, ids: seq<Id>, children: seq<Transaction>)
    requires SplitGuard(s, id, rows).Pass? && |ids| == |rows|
    requires CheckSplitRows(s, id, rows) == Success(children) && Total(children) == s.transactions[id].amount
    ensures SplitTransaction(s, id, rows, ids) == Success(WithChildren(s, id, ids, children))
  {
  }

  lemma LinksOfTwo(links: Links, id: Id, i: Id, j: Id)
    ensures links + (map k | k in [i, j] :: id) == links[i := id][j := id]
  {
  }

  lemma RowsOfTwo(s: Ledger, id: Id, a: TransactionInput, b: TransactionInput)
    requires id in s.transactions && CheckSplitRow(s, id, a).Success? && CheckSplitRow(s, id, b).Success?
    ensures var x, y := CheckSplitRow(s, id, a).value, CheckSplitRow(s, id, b).value;
      CheckSplitRows(s, id, [a, b]) == Success([x, y]) && Total([x, y]) == a.amount + b.amount
  {
    var x, y := CheckSplitRow(s, id, a).value, CheckSplitRow(s, id, b).value;
    assert [a, b][..1] == [a] && [a][..0] == [] && [x, y][..1] == [x] && [x][..0] == [];
    assert [] + [x] == [x] && [x] + [y] == [x, y];
    assert CheckSplitRows(s, id, []) == Success([]);
    assert CheckSplitRows(s, id, [a]) == Success([] + [x]);
    assert Total([x]) == Total([]) + x.amount;
  }

  lemma KeyedTwo<T>(i: Id, j: Id, x: T, y: T)
    ensures Keyed([i, j], [x, y]) == map[i := x][j := y]
  {
    assert [i, j][..1] == [i] && [i][..0] == [] && [x, y][..1] == [x] && [x][..0] == [];
    assert Keyed([i], [x]) == Keyed([], [])[i := x];
  }

  lemma PartIs(s: Ledger, id: Id, a: Id, amount: int)
    requires id in s.transactions && a in s.allocations && s.allocations[a].month == s.transactions[id].month
    requires s.transactions[id].category in s.categories && s.categories[s.transactions[id].category].active
    requires ValidDateKey(s.transactions[id].date) && amount > 0
    ensures var x := s.transactions[id];
      CheckSplitRow(s, id, Part(a, amount))
      == Success(Transaction(x.month, a, x.category, x.date, amount, None, false, Spend, Split, Some(id)))
  {
    ValidKeysAreTrimmed(s.transactions[id].date);
    assert Trim("") == "";
  }

  lemma UnsplitIsSound(m: MonthKey, date: string)
    requires ValidMonthKey(m)
    ensures Sound(Unsplit(m, date)) && Sourced(Unsplit(m, date))
  {
  }

  lemma AcrossIsSound(m: MonthKey, date: string)
    requires ValidMonthKey(m)
    ensures Sound(Across(m, date)) && Sourced(Across(m, date))
  {
    AcrossIsForest(m, date);
    AcrossIsFiled(m, date);
  }

  lemma AcrossIsForest(m: MonthKey, date: string)
    ensures var s := Across(m, date); Forest(s.transactions, s.links)
  {
  }

  lemma AcrossIsFiled(m: MonthKey, date: string)
    ensures Referential(Across(m, date))
  {
  }

  lemma SplittingAcross(m: MonthKey, date: string)
    requires ValidMonthKey(m) && ValidDateKey(date)
    ensures SplitTransaction(Unsplit(m, date), 3, [Part(2, 60), Part(4, 40)], [5, 6]) == Success(Across(m, date))
  {
    var s := Unsplit(m, date);
    var x, y := Row(m, date, 2, 60, Split, Some(3)), Row(m, date, 4, 40, Split, Some(3));
    PartIs(s, 3, 2, 60);
    PartIs(s, 3, 4, 40);
    SplitInTwo(s, 3, Part(2, 60), Part(4, 40), 5, 6, x, y);
  }

  lemma DeletingTheParentsEnvelope(m: MonthKey, date: string)
    ensures DeleteAllocation(Across(m, date), 2) == Success(Stray(m, date))
  {
    var s := Across(m, date);
    var gone := set t | t in s.transactions && s.transactions[t].allocation == 2;
    assert gone == {3, 5};
    assert RemoveTransactions(s, gone).transactions == Stray(m, date).transactions;
    assert RemoveTransactions(s, gone).links == map[];
  }

  lemma SplittingTheStray(m: MonthKey, date: string)
    requires ValidMonthKey(m) && ValidDateKey(date)
    ensures SplitTransaction(Stray(m, date), 6, [Part(4, 10), Part(4, 30)], [7, 8]) == Success(SplitAgain(m, date))
  {
    var s := Stray(m, date);
    var x, y := Row(m, date, 4, 10, Split, Some(6)), Row(m, date, 4, 30, Split, Some(6));
    PartIs(s, 6, 4, 10);
    PartIs(s, 6, 4, 30);
    StrayPassesGuard(m, date, [Part(4, 10), Part(4, 30)]);
    SplitInTwo(s, 6, Part(4, 10), Part(4, 30), 7, 8, x, y);
  }

  lemma StrayPassesGuard(m: MonthKey, date: string, rows: seq<TransactionInput>)
    requires |rows| == 2
    ensures SplitGuard(Stray(m, date), 6, rows).Pass?
  {
  }

  function StrayRun(): seq<Op> {
    [OpSplitTransaction(3, [Part(2, 60), Part(4, 40)], [5, 6]), OpDeleteAllocation(2),
     OpSplitTransaction(6, [Part(4, 10), Part(4, 30)], [7, 8])]
  }

  /** Split, delete the parent's envelope, split the child that stayed: a parent that is a split row. */
  lemma ParentsCanBeSplitRows(m: MonthKey, date: string)
    requires ValidMonthKey(m) && ValidDateKey(date)
    ensures Sound(Unsplit(m, date)) && Sourced(Unsplit(m, date))
    ensures Run(Unsplit(m, date), StrayRun(), SplitAgain(m, date))
    ensures var s' := SplitAgain(m, date);
      7 in s'.links && s'.links[7] == 6 && 6 in s'.transactions && s'.transactions[6].source == Split
  {
    UnsplitIsSound(m, date);
    SplittingAcross(m, date);
    DeletingTheParentsEnvelope(m, date);
    SplittingTheStray(m, date);
    ExamplesAreReady(m, date);
    StrayRunIs(Unsplit(m, date), Across(m, date), Stray(m, date), SplitAgain(m, date));
  }

  lemma ExamplesAreReady(m: MonthKey, date: string)
    ensures GoodTemplates(Unsplit(m, date)) && GoodTemplates(Across(m, date)) && GoodTemplates(Stray(m, date))
    ensures AllNew([5, 6], Unsplit(m, date).transactions) && AllNew([7, 8], Stray(m, date).transactions)
  {
  }

  lemma StrayRunIs(s: Ledger, s1: Ledger, s2: Ledger, s': Ledger)
    requires GoodTemplates(s) && GoodTemplates(s1) && GoodTemplates(s2)
    requires AllNew([5, 6], s.transactions) && AllNew([7, 8], s2.transactions)
    requires SplitTransaction(s, 3, [Part(2, 60), Part(4, 40)], [5, 6]) == Success(s1)
    requires DeleteAllocation(s1, 2) == Success(s2)
    requires SplitTransaction(s2, 6, [Part(4, 10), Part(4, 30)], [7, 8]) == Success(s')
    ensures Run(s, StrayRun(), s')
  {
    var ops := StrayRun();
    assert Run(s', [], s');
    SplitStep(s2, 6, [Part(4, 10), Part(4, 30)], [7, 8], [], s', s');
    DeletionStep(s1, 2, [ops[2]], s2, s');
    SplitStep(s, 3, [Part(2, 60), Part(4, 40)], [5, 6], [ops[1], ops[2]], s1, s');
    assert [ops[2]] + [] == [ops[2]] && [ops[1]] + [ops[2]] == [ops[1], ops[2]];
    assert [ops[0]] + [ops[1], ops[2]] == ops;
  }

  lemma SplitStep(s: Ledger, id: Id, rows: seq<TransactionInput>, ids: seq<Id>, ops: seq<Op>, s1: Ledger, s': Ledger)
    requires GoodTemplates(s) && |ids| == |rows| && AllNew(ids, s.transactions)
    requires SplitTransaction(s, id, rows, ids) == Success(s1) && Run(s1, ops, s')
    ensures Run(s, [OpSplitTransaction(id, rows, ids)] + ops, s')
  {
    RunStep(s, OpSplitTransaction(id, rows, ids), ops, s');
  }

  lemma DeletionStep(s: Ledger, a: Id, ops: seq<Op>, s1: Ledger, s': Ledger)
    requires GoodTemplates(s) && DeleteAllocation(s, a) == Success(s1) && Run(s1, ops, s')
    ensures Run(s, [OpDeleteAllocation(a)] + ops, s')
  {
    RunStep(s, OpDeleteAllocation(a), ops, s');
  }

  lemma RunStep(s: Ledger, op: Op, ops: seq<Op>, s': Ledger)
    requires GoodTemplates(s) && Ready(s, op) && Run(Next(s, op), ops, s')
    ensures Run(s, [op] + ops, s')
  {
    assert ([op] + ops)[1..] == ops;
  }

  /** Deleting the other envelope leaves the parent with one child, worth less than the parent. */
  lemma ParentsCanBeLeftWithOneChild(m: MonthKey, date: string)
    requires ValidMonthKey(m)
    ensures var s := Across(m, date);
      && Sound(s) && AtLeastTwo(s) && DeleteAllocation(s, 4).Success?
      && 3 in DeleteAllocation(s, 4).value.transactions
      && Children(DeleteAllocation(s, 4).value.links, 3) == {5}
      && !AtLeastTwo(DeleteAllocation(s, 4).value)
  {
    var s := Across(m, date);
    AcrossIsSound(m, date);
    AcrossHasTwo(m, date);
    DeleteAllocationPrunesSplits(s, 4, 3);
    var s' := DeleteAllocation(s, 4).value;
    assert Children(s'.links, 3) == {5};
    ParentsHaveChildren(s'.links, 3);
    assert |Children(s'.links, 3)| == 1;
  }

  lemma AcrossHasTwo(m: MonthKey, date: string)
    ensures AtLeastTwo(Across(m, date)) && Children(Across(m, date).links, 3) == {5, 6}
  {
    var links := Across(m, date).links;
    assert Children(links, 3) == {5, 6};
    assert forall p | HasChildren(links, p) :: p == 3;
  }

  /** The envelope of a split parent carries less into the next month than its summary shows as remaining. */
  lemma CarriedCanDifferFromRemaining(m: MonthKey, date: string)
    requires ValidMonthKey(m)
    ensures var s := Across(m, date);
      Sound(s) && Remaining(s, 2) == 240 && CarriedOver(s, Some(2)) == 140
  {
    var s := Across(m, date);
    AcrossIsSound(m, date);
    var f, g := EnvelopeSpendOf(s.transactions, s.links, 2), AnySpendOf(s.transactions, 2);
    SpendsAcross(m, date);
    assert s.transactions.Keys == {3, 5, 6};
    SumOfThree(3, 5, 6, f);
    SumOfThree(3, 5, 6, g);
  }

  lemma SpendsAcross(m: MonthKey, date: string)
    ensures var s := Across(m, date);
      var f, g := EnvelopeSpendOf(s.transactions, s.links, 2), AnySpendOf(s.transactions, 2);
      f(3) == 0 && f(5) == 60 && f(6) == 0 && g(3) == 100 && g(5) == 60 && g(6) == 0
  {
    var links := Across(m, date).links;
    assert links[5] == 3;
    assert !HasChildren(links, 5) && !HasChildren(links, 6);
  }

  lemma SumOfThree(a: Id, b: Id, c: Id, f: Id -> int)
    requires a != b && b != c && a != c
    ensures Sums.SumOver({a, b, c}, f) == f(a) + f(b) + f(c)
  {
    Sums.SumRemove({a, b, c}, a, f);
    assert {a, b, c} - {a} == {b, c};
    Sums.SumRemove({b, c}, b, f);
    assert {b, c} - {b} == {c};
    Sums.SumSingleton(c, f);
  }
}
