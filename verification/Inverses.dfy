/** What one call undoes: pairs of operations that leave the ledger as it was. */
module Inverses {
  import opened Wrappers
  import opened Ledger
  import opened MonthRows
  import opened LedgerOps
  import opened LedgerRuns
  import opened Splits
  import opened Totals

  lemma WalletThereAndBack(s: Ledger, m: MonthKey, delta: int)
    requires m in s.months
    ensures AddWallet(AddWallet(s, m, delta), m, -delta) == s
  {
    assert AddWallet(AddWallet(s, m, delta), m, -delta).months == s.months;
  }

  /** Deleting an income item just created restores the ledger. */
  lemma DeletingUndoesCreatingIncome(s: Ledger, key: string, input: IncomeInput, id: Id)
    requires id !in s.incomes && CreateIncome(s, key, input, id).Success?
    ensures DeleteIncome(CreateIncome(s, key, input, id).value, id) == Success(s)
  {
    var m := FindOpenMonth(s, key).value;
    FreshItemIsUndone(s, id, CheckIncome(m, input).value, m);
  }

  lemma FreshItemIsUndone(s: Ledger, id: Id, item: IncomeItem, m: MonthKey)
    requires id !in s.incomes && item.month == m && m in s.months && s.months[m].status == Open
    ensures DeleteIncome(AddWallet(s.(incomes := s.incomes[id := item]), m, item.amount), id) == Success(s)
  {
    var s' := AddWallet(s.(incomes := s.incomes[id := item]), m, item.amount);
    assert Drop(s'.incomes, {id}) == s.incomes;
    WalletThereAndBack(s, m, item.amount);
  }

  /** Deleting a spend just created restores the ledger. */
  lemma DeletingUndoesCreatingTransaction(s: Ledger, key: string, input: TransactionInput, today: string, id: Id,
                                          m: MonthKey, a: Id)
    requires Valid(s) && id !in s.transactions && CreateTransaction(s, key, input, today, id).Success?
    requires FindMonth(s, key) == Success(m) && input.allocation == Some(a)
    ensures DeleteTransaction(CreateTransaction(s, key, input, today, id).value, id) == Success(s)
  {
    var x := CreatedIs(s, key, input, today, id, m, a);
    FreshRowIsUndone(s, id, x, m);
  }

  lemma FreshRowIsUndone(s: Ledger, id: Id, x: Transaction, m: MonthKey)
    requires Valid(s) && id !in s.transactions && x.kind == Spend && x.parent.None? && x.month == m
    requires m in s.months && s.months[m].status == Open
    ensures DeleteTransaction(AddWallet(s.(transactions := s.transactions[id := x]), m, -x.amount), id) == Success(s)
  {
    var s' := AddWallet(s.(transactions := s.transactions[id := x]), m, -x.amount);
    ChildlessFreshRow(s.transactions, s.links, id, x);
    RemovalOfChildless(s', id);
    var rest := s'.(transactions := Drop(s'.transactions, {id}));
    DeletionIs(s', id, rest, x.amount);
    assert Drop(s'.transactions, {id}) == s.transactions;
    WalletThereAndBack(s, m, -x.amount);
    assert rest == AddWallet(s, m, -x.amount);
  }

  lemma ChildlessFreshRow(rows: Transactions, links: Links, id: Id, x: Transaction)
    requires Forest(rows, links) && id !in rows && x.parent.None?
    ensures Forest(rows[id := x], links) && !HasChildren(links, id)
  {
    ForestStays(rows, rows[id := x], links);
  }

  /** Reopening a month just closed restores the ledger. */
  lemma ReopeningUndoesClosing(s: Ledger, key: string)
    requires Snapshots(s.months) && FindOpenMonth(s, key).Success?
    ensures CloseMonth(s, key).Success? && ReopenMonth(CloseMonth(s, key).value, key) == Success(s)
  {
    assert ReopenMonth(CloseMonth(s, key).value, key).value.months == s.months;
  }

  /** Changing an income amount and changing it back restores the ledger. */
  lemma RestoringIncomeAmount(s: Ledger, id: Id, amount: int)
    requires id in s.incomes && s.incomes[id].amount >= 0
    requires UpdateIncome(s, id, IncomePatch(None, Some(amount), None, None, None)).Success?
    ensures var s' := UpdateIncome(s, id, IncomePatch(None, Some(amount), None, None, None)).value;
      UpdateIncome(s', id, IncomePatch(None, Some(s.incomes[id].amount), None, None, None)) == Success(s)
  {
    var x := s.incomes[id];
    var s' := UpdateIncome(s, id, IncomePatch(None, Some(amount), None, None, None)).value;
    assert s'.incomes[id := x] == s.incomes;
    WalletThereAndBack(s, x.month, amount - x.amount);
  }
}
