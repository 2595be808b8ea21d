/** The wallet as a state machine: one step per operation, runs as finite sequences of steps. */
module LedgerRuns {
  import opened Wrappers
  import opened Validation
  import opened Ledger
  import opened MonthRows
  import opened LedgerOps

  datatype Op =
    | OpCreateMonth(req: MonthRequest, answers: Answers, now: int, incomeIds: seq<Id>, allocationIds: seq<Id>)
    | OpUpdateMonth(key: string, opening: Option<int>, wallet: Option<int>)
    | OpDeleteMonth(key: string)
    | OpCloseMonth(key: string)
    | OpReopenMonth(key: string)
    | OpCreateIncome(key: string, income: IncomeInput, id: Id)
    | OpUpdateIncome(id: Id, incomePatch: IncomePatch)
    | OpDeleteIncome(id: Id)
    | OpCreateAllocation(key: string, allocation: AllocationInput, now: int, id: Id)
    | OpUpdateAllocation(id: Id, allocationPatch: AllocationPatch)
    | OpDeleteAllocation(id: Id)
    | OpCreateTransaction(key: string, transaction: TransactionInput, today: string, id: Id)
    | OpUpdateTransaction(id: Id, transactionPatch: TransactionPatch)
    | OpDeleteTransaction(id: Id)
    | OpSplitTransaction(id: Id, rows: seq<TransactionInput>, ids: seq<Id>)
    | OpBalanceUpdate(key: string, counted: int, note: Option<string>, today: string, now: int,
                      envelope: Option<Id>, category: Option<Id>, newEnvelope: Id, id: Id)
    | OpChangeCategories(categories: map<Id, Category>)
    | OpChangeTemplates(templates: map<Id, AllocationTemplate>, incomeTemplates: map<Id, IncomeTemplate>)

  ghost predicate AllNew<T>(ids: seq<Id>, table: map<Id, T>) {
    Distinct(ids) && forall k | k in ids :: k !in table
  }

  /** New identifiers are unused, and query answers are what the queries may answer. */
  ghost predicate Ready(s: Ledger, op: Op)
    requires GoodTemplates(s)
  {
    match op
    case OpCreateMonth(req, q, now, incomeIds, allocationIds) =>
      && IsListing(s, q.templates) && IsIncomeListing(s, q.incomeTemplates)
      && (UsesTemplates(req) && PreviewMonth(s, now, req, q).Success? ==>
            AreAnswers(s, PreviewMonth(s, now, req, q).value.key, q))
      && IdsFit(PreviewMonth(s, now, req, q), incomeIds, allocationIds)
      && AllNew(incomeIds, s.incomes) && AllNew(allocationIds, s.allocations)
    case OpCreateIncome(_, _, id) => id !in s.incomes
    case OpCreateAllocation(_, _, _, id) => id !in s.allocations
    case OpCreateTransaction(_, _, _, id) => id !in s.transactions
    case OpSplitTransaction(_, rows, ids) => |ids| == |rows| && AllNew(ids, s.transactions)
    case OpBalanceUpdate(key, counted, _, _, _, envelope, category, newEnvelope, id) =>
      && (envelope.Some? ==> envelope.value in s.allocations)
      && (category.Some? ==> category.value in s.categories)
      && (FindOpenMonth(s, key).Success? && counted != s.months[FindOpenMonth(s, key).value].wallet ==>
            PicksEnvelope(s, FindOpenMonth(s, key).value, envelope) && PicksCategory(s, category))
      && newEnvelope !in s.allocations && id !in s.transactions
    case OpChangeTemplates(templates, incomeTemplates) =>
      GoodTables(templates, incomeTemplates)
    case _ => true
  }

  ghost function Attempt(s: Ledger, op: Op): Result<Ledger, Error>
    requires GoodTemplates(s) && Ready(s, op)
  {
    match op
    case OpCreateMonth(req, q, now, incomeIds, allocationIds) => CreateMonth(s, req, q, now, incomeIds, allocationIds)
    case OpUpdateMonth(key, opening, wallet) => UpdateMonth(s, key, opening, wallet)
    case OpDeleteMonth(key) => DeleteMonth(s, key)
    case OpCloseMonth(key) => CloseMonth(s, key)
    case OpReopenMonth(key) => ReopenMonth(s, key)
    case OpCreateIncome(key, income, id) => CreateIncome(s, key, income, id)
    case OpUpdateIncome(id, patch) => UpdateIncome(s, id, patch)
    case OpDeleteIncome(id) => DeleteIncome(s, id)
    case OpCreateAllocation(key, input, now, id) => CreateAllocation(s, key, input, now, id)
    case OpUpdateAllocation(id, patch) => UpdateAllocation(s, id, patch)
    case OpDeleteAllocation(id) => DeleteAllocation(s, id)
    case OpCreateTransaction(key, input, today, id) => CreateTransaction(s, key, input, today, id)
    case OpUpdateTransaction(id, patch) => UpdateTransaction(s, id, patch)
    case OpDeleteTransaction(id) => DeleteTransaction(s, id)
    case OpSplitTransaction(id, rows, ids) => SplitTransaction(s, id, rows, ids)
    case OpBalanceUpdate(key, counted, note, today, now, envelope, category, newEnvelope, id) =>
      CreateBalanceUpdate(s, key, counted, note, today, now, envelope, category, newEnvelope, id)
    case OpChangeCategories(categories) => ChangeCategories(s, categories)
    case OpChangeTemplates(templates, incomeTemplates) => ChangeTemplates(s, templates, incomeTemplates)
  }

  /** A failed operation leaves the ledger alone. */
  ghost function Next(s: Ledger, op: Op): Ledger
    requires GoodTemplates(s) && Ready(s, op)
  {
    match Attempt(s, op)
    case Success(s') => s'
    case Failure(_) => s
  }

  predicate Deletes(op: Op, m: MonthKey) {
    op.OpDeleteMonth? && ParseMonth(op.key) == Success(m)
  }

  ghost predicate Sound(s: Ledger) {
    Valid(s) && GoodTemplates(s)
  }

  ghost predicate Run(s: Ledger, ops: seq<Op>, s': Ledger)
    decreases |ops|
  {
    if ops == [] then s' == s
    else GoodTemplates(s) && Ready(s, ops[0]) && Run(Next(s, ops[0]), ops[1..], s')
  }

  type StepKind = (Ledger, Op) -> bool

  /** No step of the run is of the given kind at its moment. */
  ghost predicate Never(bad: StepKind, s: Ledger, ops: seq<Op>)
    decreases |ops|
  {
    ops != [] && GoodTemplates(s) && Ready(s, ops[0]) ==>
      !bad(s, ops[0]) && Never(bad, Next(s, ops[0]), ops[1..])
  }

  lemma {:induction false} NeverWithoutEnvelopeDeletions(bad: StepKind, s: Ledger, ops: seq<Op>)
    requires forall t, op :: bad(t, op) ==> op.OpDeleteAllocation?
    requires forall op | op in ops :: !op.OpDeleteAllocation?
    ensures Never(bad, s, ops)
    decreases |ops|
  {
    if ops != [] && GoodTemplates(s) && Ready(s, ops[0]) {
      assert ops[0] in ops;
      NeverWithoutEnvelopeDeletions(bad, Next(s, ops[0]), ops[1..]);
    }
  }

  // ----- Every step keeps the tables sound -----

  /** Rows may be added, and months, incomes and envelopes rewritten, while transactions stay. */
  lemma UntouchedTransactionsKeep(s: Ledger, s': Ledger)
    requires Valid(s)
    requires s'.transactions == s.transactions && s'.links == s.links && s'.categories == s.categories
    requires s.months.Keys <= s'.months.Keys && s.allocations.Keys <= s'.allocations.Keys
    requires forall a | a in s.allocations :: s'.allocations[a].month == s.allocations[a].month
    requires MonthKeys(s'.months)
    requires forall a | a in s'.allocations :: s'.allocations[a].month in s'.months && s'.allocations[a].budget >= 0
    requires forall i | i in s'.incomes :: s'.incomes[i].month in s'.months && s'.incomes[i].amount >= 0
    requires Snapshots(s'.months)
    ensures Valid(s')
  {
  }

  lemma RemovalKeeps(s: Ledger, gone: set<Id>)
    requires Valid(s)
    ensures Valid(RemoveTransactions(s, gone))
  {
    var s' := RemoveTransactions(s, gone);
    forall t | IsChild(s'.transactions, t)
      ensures t in s'.links && s'.links[t] == s'.transactions[t].parent.value
    {
      assert IsChild(s.transactions, t);
    }
  }

  lemma WalletKeeps(s: Ledger, m: MonthKey, delta: int)
    requires Valid(s) && m in s.months && s.months[m].status == Open
    ensures Valid(AddWallet(s, m, delta))
  {
  }

  lemma {:induction false} KeyedRows<T>(ids: seq<Id>, rows: seq<T>, k: Id) returns (i: nat)
    requires |ids| == |rows| && Distinct(ids) && k in Keyed(ids, rows)
    ensures i < |rows| && ids[i] == k && Keyed(ids, rows)[k] == rows[i]
  {
    i :| i < |ids| && ids[i] == k;
    KeyedRow(ids, rows, i);
  }

  /** What the tables demand of the rows a month starts with. */
  ghost predicate GoodRows(m: MonthKey, rows: Rows) {
    && (forall i | 0 <= i < |rows.incomes| :: rows.incomes[i].month == m && rows.incomes[i].amount >= 0)
    && (forall i | 0 <= i < |rows.allocations| :: rows.allocations[i].month == m && rows.allocations[i].budget >= 0)
  }

  lemma TemplateRowsAreGood(s: Ledger, m: MonthKey, now: int, q: Answers, carryForward: bool)
    requires Calendar.ValidMonthKey(m) && GoodTemplates(s)
    requires forall t | t in q.templates :: t in s.templates
    requires forall t | t in q.incomeTemplates :: t in s.incomeTemplates
    ensures GoodRows(m, TemplateRows(s, m, now, q, carryForward))
  {
  }

  lemma PreparedRowsAreGood(s: Ledger, m: MonthKey, now: int, req: MonthRequest, q: Answers)
    requires Calendar.ValidMonthKey(m) && GoodTemplates(s)
    requires forall t | t in q.templates :: t in s.templates
    requires forall t | t in q.incomeTemplates :: t in s.incomeTemplates
    requires PreparedRows(s, m, now, req, q).Success?
    ensures GoodRows(m, PreparedRows(s, m, now, req, q).value)
  {
    if req.incomes == [] && req.allocations == [] && req.useTemplates {
      TemplateRowsAreGood(s, m, now, q, req.carryForward);
    }
  }

  lemma NewMonthKeeps(s: Ledger, m: MonthKey, month: Month, rows: Rows, incomeIds: seq<Id>, allocationIds: seq<Id>)
    requires Valid(s) && Calendar.ValidMonthKey(m) && m !in s.months && GoodRows(m, rows)
    requires month.status == Open && month.closedWallet == None
    requires |incomeIds| == |rows.incomes| && |allocationIds| == |rows.allocations|
    requires AllNew(incomeIds, s.incomes) && AllNew(allocationIds, s.allocations)
    ensures Valid(s.(months := s.months[m := month],
                     incomes := s.incomes + Keyed(incomeIds, rows.incomes),
                     allocations := s.allocations + Keyed(allocationIds, rows.allocations)))
  {
    var s' := s.(months := s.months[m := month],
                 incomes := s.incomes + Keyed(incomeIds, rows.incomes),
                 allocations := s.allocations + Keyed(allocationIds, rows.allocations));
    forall i | i in s'.incomes
      ensures s'.incomes[i].month in s'.months && s'.incomes[i].amount >= 0
    {
      if i in incomeIds {
        var k := KeyedRows(incomeIds, rows.incomes, i);
      }
    }
    forall a | a in s'.allocations
      ensures s'.allocations[a].month in s'.months && s'.allocations[a].budget >= 0
    {
      if a in allocationIds {
        var k := KeyedRows(allocationIds, rows.allocations, a);
      }
    }
    UntouchedTransactionsKeep(s, s');
  }

  lemma CreateMonthKeeps(s: Ledger, req: MonthRequest, q: Answers, now: int, incomeIds: seq<Id>, allocationIds: seq<Id>)
    requires Valid(s) && GoodTemplates(s) && AllNew(incomeIds, s.incomes) && AllNew(allocationIds, s.allocations)
    requires forall t | t in q.templates :: t in s.templates
    requires forall t | t in q.incomeTemplates :: t in s.incomeTemplates
    requires IdsFit(PreviewMonth(s, now, req, q), incomeIds, allocationIds)
    requires CreateMonth(s, req, q, now, incomeIds, allocationIds).Success?
    ensures Valid(CreateMonth(s, req, q, now, incomeIds, allocationIds).value)
  {
    var preview := PreviewMonth(s, now, req, q).value;
    PreparedRowsAreGood(s, preview.key, now, req, q);
    NewMonthKeeps(s, preview.key, preview.month, preview.rows, incomeIds, allocationIds);
  }

  lemma MonthEditKeeps(s: Ledger, m: MonthKey, month: Month)
    requires Valid(s) && m in s.months
    requires month.closedWallet == if month.status == Closed then Some(month.wallet) else None
    ensures Valid(s.(months := s.months[m := month]))
  {
  }

  lemma UpdateMonthKeeps(s: Ledger, key: string, opening: Option<int>, wallet: Option<int>)
    requires Valid(s) && UpdateMonth(s, key, opening, wallet).Success?
    ensures Valid(UpdateMonth(s, key, opening, wallet).value)
  {
  }

  lemma DeleteMonthKeeps(s: Ledger, key: string)
    requires Valid(s) && DeleteMonth(s, key).Success?
    ensures Valid(DeleteMonth(s, key).value)
  {
    var m := FindMonth(s, key).value;
    RemovalKeeps(s, RowsOfMonth(s, m));
    MonthRemovalKeeps(s, RemoveTransactions(s, RowsOfMonth(s, m)), m);
  }

  /** Without its transactions, a month goes with its items and envelopes. */
  lemma MonthRemovalKeeps(s: Ledger, s1: Ledger, m: MonthKey)
    requires Valid(s1) && s1.months == s.months && s1.incomes == s.incomes && s1.allocations == s.allocations
    requires forall t | t in s1.transactions :: s1.transactions[t].month != m
    ensures Valid(s1.(months := Drop(s.months, {m}),
                      incomes := Drop(s.incomes, set i | i in s.incomes && s.incomes[i].month == m),
                      allocations := Drop(s.allocations, set a | a in s.allocations && s.allocations[a].month == m)))
  {
    assert forall t | t in s1.transactions :: Filed(s1, s1.transactions[t]);
  }

  lemma CloseMonthKeeps(s: Ledger, key: string)
    requires Valid(s) && CloseMonth(s, key).Success?
    ensures Valid(CloseMonth(s, key).value)
  {
    var m := FindMonth(s, key).value;
    MonthEditKeeps(s, m, s.months[m].(status := Closed, closedWallet := Some(s.months[m].wallet)));
  }

  lemma ReopenMonthKeeps(s: Ledger, key: string)
    requires Valid(s) && ReopenMonth(s, key).Success?
    ensures Valid(ReopenMonth(s, key).value)
  {
    var m := FindMonth(s, key).value;
    MonthEditKeeps(s, m, s.months[m].(status := Open, closedWallet := None));
  }

  lemma CreateIncomeKeeps(s: Ledger, key: string, input: IncomeInput, id: Id)
    requires Valid(s) && CreateIncome(s, key, input, id).Success?
    ensures Valid(CreateIncome(s, key, input, id).value)
  {
    var m := FindOpenMonth(s, key).value;
    var item := CheckIncome(m, input).value;
    UntouchedTransactionsKeep(s, s.(incomes := s.incomes[id := item]));
    WalletKeeps(s.(incomes := s.incomes[id := item]), m, item.amount);
  }

  lemma UpdateIncomeKeeps(s: Ledger, id: Id, patch: IncomePatch)
    requires Valid(s) && UpdateIncome(s, id, patch).Success?
    ensures Valid(UpdateIncome(s, id, patch).value)
  {
    var y := PatchIncome(s.incomes[id], patch).value;
    UntouchedTransactionsKeep(s, s.(incomes := s.incomes[id := y]));
    WalletKeeps(s.(incomes := s.incomes[id := y]), y.month, y.amount - s.incomes[id].amount);
  }

  lemma DeleteIncomeKeeps(s: Ledger, id: Id)
    requires Valid(s) && DeleteIncome(s, id).Success?
    ensures Valid(DeleteIncome(s, id).value)
  {
    var s1 := s.(incomes := Drop(s.incomes, {id}));
    UntouchedTransactionsKeep(s, s1);
    WalletKeeps(s1, s.incomes[id].month, -s.incomes[id].amount);
  }

  lemma CreateAllocationKeeps(s: Ledger, key: string, input: AllocationInput, now: int, id: Id)
    requires Valid(s) && id !in s.allocations && CreateAllocation(s, key, input, now, id).Success?
    ensures Valid(CreateAllocation(s, key, input, now, id).value)
  {
    UntouchedTransactionsKeep(s, CreateAllocation(s, key, input, now, id).value);
  }

  lemma UpdateAllocationKeeps(s: Ledger, id: Id, patch: AllocationPatch)
    requires Valid(s) && UpdateAllocation(s, id, patch).Success?
    ensures Valid(UpdateAllocation(s, id, patch).value)
  {
    UntouchedTransactionsKeep(s, UpdateAllocation(s, id, patch).value);
  }

  lemma DeleteAllocationKeeps(s: Ledger, id: Id)
    requires Valid(s) && DeleteAllocation(s, id).Success?
    ensures Valid(DeleteAllocation(s, id).value)
  {
    RemovalKeeps(s, set t | t in s.transactions && s.transactions[t].allocation == id);
  }

  /** Edits that keep what links depend on, and new rows outside any split, keep the forest. */
  lemma ForestStays(rows: Transactions, rows': Transactions, links: Links)
    requires Forest(rows, links) && rows.Keys <= rows'.Keys
    requires forall t | t in rows ::
      && rows'[t].parent == rows[t].parent && rows'[t].month == rows[t].month
      && rows'[t].kind == rows[t].kind && rows'[t].source == rows[t].source
    requires forall t | t in rows' && t !in rows :: rows'[t].parent.None?
    ensures Forest(rows', links)
  {
    forall t | IsChild(rows', t)
      ensures t in links && links[t] == rows'[t].parent.value
    {
      assert t in rows && IsChild(rows, t);
    }
  }

  /** A row outside any split, filed in an envelope of its month. */
  lemma InsertionKeeps(s: Ledger, id: Id, x: Transaction)
    requires Valid(s) && id !in s.transactions
    requires x.parent.None? && Filed(s, x)
    ensures Valid(s.(transactions := s.transactions[id := x]))
  {
    var rows := s.transactions[id := x];
    assert Referential(s.(transactions := rows));
    ForestStays(s.transactions, rows, s.links);
  }

  lemma CreateTransactionKeeps(s: Ledger, key: string, input: TransactionInput, today: string, id: Id)
    requires Valid(s) && id !in s.transactions && CreateTransaction(s, key, input, today, id).Success?
    ensures Valid(CreateTransaction(s, key, input, today, id).value)
  {
    var m := FindOpenMonth(s, key).value;
    var x := CheckTransaction(s, m, input, today).value;
    InsertionKeeps(s, id, x);
    WalletKeeps(s.(transactions := s.transactions[id := x]), m, -x.amount);
  }

  lemma UpdateTransactionKeeps(s: Ledger, id: Id, patch: TransactionPatch)
    requires Valid(s) && UpdateTransaction(s, id, patch).Success?
    ensures Valid(UpdateTransaction(s, id, patch).value)
  {
    var x := s.transactions[id];
    var y := PatchTransaction(s, x, patch).value;
    var s1 := s.(transactions := s.transactions[id := y]);
    ForestStays(s.transactions, s1.transactions, s.links);
    assert Valid(s1);
    WalletKeeps(s1, x.month,
                if x.parent.None? && !HasChildren(s.links, id) then EditDelta(x.kind, x.amount, y.amount) else 0);
  }

  lemma DeleteTransactionKeeps(s: Ledger, id: Id)
    requires Valid(s) && DeleteTransaction(s, id).Success?
    ensures Valid(DeleteTransaction(s, id).value)
  {
    var x := s.transactions[id];
    var s1 := RemoveTransactions(s, Children(s.links, id) + {id});
    RemovalKeeps(s, Children(s.links, id) + {id});
    WalletKeeps(s1, x.month,
                if HasChildren(s.links, id) then ChildrenTotal(s.transactions, s.links, id)
                else DeleteDelta(x.kind, x.amount));
  }

  /** What one new row of a split looks like. */
  ghost predicate GoodChild(s: Ledger, p: Id, x: Transaction)
    requires p in s.transactions
  {
    Linked(x, p, s.transactions[p]) && Filed(s, x)
  }

  lemma CheckedRowIsGood(s: Ledger, p: Id, row: TransactionInput)
    requires p in s.transactions && s.transactions[p].parent.None?
    requires s.transactions[p].kind == Spend && s.transactions[p].source != Reconciliation
    requires CheckSplitRow(s, p, row).Success?
    ensures GoodChild(s, p, CheckSplitRow(s, p, row).value)
  {
  }

  lemma CheckedRowsAreGood(s: Ledger, p: Id, rows: seq<TransactionInput>)
    requires p in s.transactions && s.transactions[p].parent.None?
    requires s.transactions[p].kind == Spend && s.transactions[p].source != Reconciliation
    requires CheckSplitRows(s, p, rows).Success?
    ensures forall x | x in CheckSplitRows(s, p, rows).value :: GoodChild(s, p, x)
  {
    var children := CheckSplitRows(s, p, rows).value;
    forall i | 0 <= i < |children|
      ensures GoodChild(s, p, children[i])
    {
      assert CheckSplitRow(s, p, rows[i]) == Success(children[i]);
      CheckedRowIsGood(s, p, rows[i]);
    }
  }

  /** The tables after inserting the children of p under the identifiers ids. */
  ghost function WithChildren(s: Ledger, p: Id, ids: seq<Id>, children: seq<Transaction>): Ledger
    requires |ids| == |children|
  {
    s.(transactions := s.transactions + Keyed(ids, children), links := s.links + map k | k in ids :: p)
  }

  lemma InsertedChild(s: Ledger, p: Id, ids: seq<Id>, children: seq<Transaction>, c: Id)
    requires |ids| == |children| && Distinct(ids) && c in ids
    ensures var s' := WithChildren(s, p, ids, children);
      c in s'.transactions && s'.transactions[c] in children && c in s'.links && s'.links[c] == p
  {
    var i := KeyedRows(ids, children, c);
  }

  lemma SplitTransactionKeeps(s: Ledger, id: Id, rows: seq<TransactionInput>, ids: seq<Id>)
    requires Valid(s) && |ids| == |rows| && AllNew(ids, s.transactions)
    requires SplitTransaction(s, id, rows, ids).Success?
    ensures Valid(SplitTransaction(s, id, rows, ids).value)
  {
    var children := CheckSplitRows(s, id, rows).value;
    CheckedRowsAreGood(s, id, rows);
    assert SplitTransaction(s, id, rows, ids).value == WithChildren(s, id, ids, children);
    ChildrenKeep(s, id, ids, children);
  }

  lemma ChildrenKeep(s: Ledger, p: Id, ids: seq<Id>, children: seq<Transaction>)
    requires Valid(s) && p in s.transactions && s.transactions[p].parent.None?
    requires |ids| == |children| && AllNew(ids, s.transactions)
    requires forall x | x in children :: GoodChild(s, p, x)
    ensures Valid(WithChildren(s, p, ids, children))
  {
    var s' := WithChildren(s, p, ids, children);
    forall c | c in ids
      ensures c in s'.transactions && c in s'.links && s'.links[c] == p && GoodChild(s, p, s'.transactions[c])
    {
      InsertedChild(s, p, ids, children, c);
    }
    assert Referential(s');
    SplitForest(s, s', p, ids);
  }

  lemma SplitForest(s: Ledger, s': Ledger, id: Id, ids: seq<Id>)
    requires Forest(s.transactions, s.links) && id in s.transactions && id !in s.links && id !in ids
    requires AllNew(ids, s.transactions)
    requires forall t :: t in s'.transactions <==> t in s.transactions || t in ids
    requires forall t | t in s.transactions :: s'.transactions[t] == s.transactions[t]
    requires forall c :: c in s'.links <==> c in s.links || c in ids
    requires forall c | c in s'.links :: s'.links[c] == if c in ids then id else s.links[c]
    requires forall c | c in ids :: Linked(s'.transactions[c], id, s.transactions[id])
    ensures Forest(s'.transactions, s'.links)
  {
    forall t | IsChild(s'.transactions, t)
      ensures t in s'.links && s'.links[t] == s'.transactions[t].parent.value
    {
      if t !in ids {
        assert IsChild(s.transactions, t);
      }
    }
  }

  lemma MoreCategoriesKeep(s: Ledger, categories: map<Id, Category>)
    requires Valid(s) && s.categories.Keys <= categories.Keys
    ensures Valid(s.(categories := categories))
  {
  }

  lemma ReconcileKeeps(s: Ledger, m: MonthKey, counted: int, note: Option<string>, today: string, now: int,
                       envelope: Option<Id>, category: Option<Id>, newEnvelope: Id, id: Id)
    requires Valid(s) && newEnvelope !in s.allocations && id !in s.transactions
    requires m in s.months && s.months[m].status == Open && counted != s.months[m].wallet
    requires envelope.Some? ==> ReconciliationEnvelope(s, m, envelope.value)
    requires category.Some? ==> category.value in s.categories
    requires Reconcile(s, m, counted, note, today, now, envelope, category, newEnvelope, id).Success?
    ensures Valid(Reconcile(s, m, counted, note, today, now, envelope, category, newEnvelope, id).value)
  {
    var delta := counted - s.months[m].wallet;
    var (allocations, a) := ClaimEnvelope(s, m, envelope, now, newEnvelope);
    var (categories, c) := ClaimCategory(s, category).value;
    ClaimedEnvelope(s, m, envelope, now, newEnvelope);
    var x := ReconciliationRow(m, a, c, delta, note, today);
    ReconciledRow(m, a, c, delta, note, today);
    ReconciledTablesKeep(s, m, allocations, categories, id, x, delta);
    assert Reconcile(s, m, counted, note, today, now, envelope, category, newEnvelope, id).value
        == AddWallet(s.(allocations := allocations, categories := categories,
                        transactions := s.transactions[id := x]), m, delta);
  }

  /** Envelopes may be added or re-budgeted, never moved or dropped; a is one of month m. */
  ghost predicate EnvelopesGrow(s: Ledger, m: MonthKey, allocations: map<Id, Allocation>, a: Id) {
    && s.allocations.Keys <= allocations.Keys
    && (forall b | b in allocations :: allocations[b].month in s.months && allocations[b].budget >= 0)
    && (forall b | b in s.allocations :: allocations[b].month == s.allocations[b].month)
    && a in allocations && allocations[a].month == m
  }

  lemma ClaimedEnvelope(s: Ledger, m: MonthKey, pick: Option<Id>, now: int, newId: Id)
    requires Referential(s) && m in s.months && newId !in s.allocations
    requires pick.Some? ==> ReconciliationEnvelope(s, m, pick.value)
    ensures var (allocations, a) := ClaimEnvelope(s, m, pick, now, newId);
      EnvelopesGrow(s, m, allocations, a)
  {
  }

  lemma ReconciledRow(m: MonthKey, a: Id, c: Id, delta: int, note: Option<string>, today: string)
    requires delta != 0
    ensures var x := ReconciliationRow(m, a, c, delta, note, today);
      && x.parent.None? && x.amount > 0 && x.category == c && x.month == m && x.allocation == a
      && x.source == Reconciliation
      && ((x.kind == Income && x.amount == delta) || (x.kind == Spend && x.amount == -delta))
  {
  }

  lemma ReconciledTablesKeep(s: Ledger, m: MonthKey, allocations: map<Id, Allocation>, categories: map<Id, Category>,
                       id: Id, x: Transaction, delta: int)
    requires Valid(s) && m in s.months && s.months[m].status == Open && id !in s.transactions
    requires EnvelopesGrow(s, m, allocations, x.allocation) && s.categories.Keys <= categories.Keys
    requires x.parent.None? && x.amount > 0 && x.category in categories && x.month == m
    ensures Valid(AddWallet(s.(allocations := allocations, categories := categories,
                               transactions := s.transactions[id := x]), m, delta))
  {
    var s1 := s.(allocations := allocations);
    UntouchedTransactionsKeep(s, s1);
    MoreCategoriesKeep(s1, categories);
    var s2 := s1.(categories := categories);
    InsertionKeeps(s2, id, x);
    WalletKeeps(s2.(transactions := s2.transactions[id := x]), m, delta);
  }

  lemma {:induction false} KeptIsDistinct(ids: seq<Id>, alive: set<Id>)
    requires Distinct(ids)
    ensures Distinct(Kept(ids, alive))
    ensures forall k :: k in Kept(ids, alive) <==> k in ids && k in alive
  {
    if ids != [] {
      var n := |ids| - 1;
      KeptIsDistinct(ids[..n], alive);
      assert ids == ids[..n] + [ids[n]];
      assert ids[n] !in ids[..n];
    }
  }

  lemma ChangeCategoriesKeeps(s: Ledger, categories: map<Id, Category>)
    requires Sound(s) && ChangeCategories(s, categories).Success?
    ensures Sound(ChangeCategories(s, categories).value)
  {
    var s' := ChangeCategories(s, categories).value;
    forall t | t in s.templates
      ensures Distinct(s'.templates[t].defaults)
    {
      KeptIsDistinct(s.templates[t].defaults, categories.Keys);
    }
  }

  lemma ChangeTemplatesKeeps(s: Ledger, templates: map<Id, AllocationTemplate>, incomes: map<Id, IncomeTemplate>)
    requires Valid(s) && GoodTables(templates, incomes)
    ensures Sound(ChangeTemplates(s, templates, incomes).value)
  {
    UntouchedTransactionsKeep(s, ChangeTemplates(s, templates, incomes).value);
  }

  predicate ChangesRows(op: Op) {
    || op.OpCreateTransaction? || op.OpUpdateTransaction? || op.OpDeleteTransaction?
    || op.OpSplitTransaction? || op.OpBalanceUpdate?
  }

  lemma RowStepKeeps(s: Ledger, op: Op)
    requires Sound(s) && Ready(s, op) && ChangesRows(op)
    ensures Sound(Next(s, op))
  {
    var r := Attempt(s, op);
    if r.Success? {
      match op
      case OpCreateTransaction(key, input, today, id) => CreateTransactionKeeps(s, key, input, today, id);
      case OpUpdateTransaction(id, patch) => UpdateTransactionKeeps(s, id, patch);
      case OpDeleteTransaction(id) => DeleteTransactionKeeps(s, id);
      case OpSplitTransaction(id, rows, ids) => SplitTransactionKeeps(s, id, rows, ids);
      case OpBalanceUpdate(key, counted, note, today, now, envelope, category, newEnvelope, id) =>
        var m := FindOpenMonth(s, key).value;
        if counted != s.months[m].wallet {
          ReconcileKeeps(s, m, counted, note, today, now, envelope, category, newEnvelope, id);
        }
      case _ =>
    }
  }

  predicate ChangesMonths(op: Op) {
    || op.OpCreateMonth? || op.OpUpdateMonth? || op.OpDeleteMonth? || op.OpCloseMonth? || op.OpReopenMonth?
    || op.OpChangeCategories? || op.OpChangeTemplates?
  }

  lemma MonthStepKeeps(s: Ledger, op: Op)
    requires Sound(s) && Ready(s, op) && ChangesMonths(op)
    ensures Sound(Next(s, op))
  {
    var r := Attempt(s, op);
    if r.Success? {
      match op
      case OpCreateMonth(req, q, now, incomeIds, allocationIds) =>
        CreateMonthKeeps(s, req, q, now, incomeIds, allocationIds);
      case OpUpdateMonth(key, opening, wallet) => UpdateMonthKeeps(s, key, opening, wallet);
      case OpDeleteMonth(key) => DeleteMonthKeeps(s, key);
      case OpCloseMonth(key) => CloseMonthKeeps(s, key);
      case OpReopenMonth(key) => ReopenMonthKeeps(s, key);
      case OpChangeCategories(categories) => ChangeCategoriesKeeps(s, categories);
      case OpChangeTemplates(templates, incomeTemplates) => ChangeTemplatesKeeps(s, templates, incomeTemplates);
      case _ =>
    }
  }

  lemma EntryStepKeeps(s: Ledger, op: Op)
    requires Sound(s) && Ready(s, op) && !ChangesRows(op) && !ChangesMonths(op)
    ensures Sound(Next(s, op))
  {
    var r := Attempt(s, op);
    if r.Success? {
      match op
      case OpCreateIncome(key, income, id) => CreateIncomeKeeps(s, key, income, id);
      case OpUpdateIncome(id, patch) => UpdateIncomeKeeps(s, id, patch);
      case OpDeleteIncome(id) => DeleteIncomeKeeps(s, id);
      case OpCreateAllocation(key, input, now, id) => CreateAllocationKeeps(s, key, input, now, id);
      case OpUpdateAllocation(id, patch) => UpdateAllocationKeeps(s, id, patch);
      case OpDeleteAllocation(id) => DeleteAllocationKeeps(s, id);
      case _ =>
    }
  }

  /** One step, whatever the operation and whether or not it is refused. */
  lemma StepKeepsSound(s: Ledger, op: Op)
    requires Sound(s) && Ready(s, op)
    ensures Sound(Next(s, op))
  {
    if ChangesRows(op) {
      RowStepKeeps(s, op);
    } else if ChangesMonths(op) {
      MonthStepKeeps(s, op);
    } else {
      EntryStepKeeps(s, op);
    }
  }

  /** Every reachable ledger is sound. */
  lemma {:induction false} RunKeepsSound(s: Ledger, ops: seq<Op>, s': Ledger)
    requires Sound(s) && Run(s, ops, s')
    ensures Sound(s')
    decreases |ops|
  {
    if ops != [] {
      StepKeepsSound(s, ops[0]);
      RunKeepsSound(Next(s, ops[0]), ops[1..], s');
    }
  }
}
