/** What each wallet operation does to the tables: the new ledger, or the error it reports.
    A failed operation changes nothing. New row identifiers are parameters. */
module LedgerOps {
  import opened Wrappers
  import opened Text
  import opened Calendar
  import opened Validation
  import opened Ledger
  import opened MonthRows

  // ----- Months -----

  function FindMonth(s: Ledger, key: string): (r: Result<MonthKey, Error>)
    ensures r.Success? ==> r.value in s.months
  {
    var m :- ParseMonth(key);
    if m in s.months then Success(m) else Failure(NotFound)
  }

  function FindOpenMonth(s: Ledger, key: string): (r: Result<MonthKey, Error>)
    ensures r.Success? ==> r.value in s.months && s.months[r.value].status == Open
  {
    var m :- FindMonth(s, key);
    if s.months[m].status == Open then Success(m) else Failure(MonthClosed)
  }

  /** ensureMonthOpen. */
  function EnsureOpen(s: Ledger, m: MonthKey): Outcome<Error> {
    if m !in s.months then Fail(NotFound)
    else if s.months[m].status == Closed then Fail(MonthClosed)
    else Pass
  }

  ghost function CreateMonth(s: Ledger, req: MonthRequest, q: Answers, now: int,
                             incomeIds: seq<Id>, allocationIds: seq<Id>): Result<Ledger, Error>
    requires GoodTemplates(s)
    requires forall t | t in q.templates :: t in s.templates
    requires forall t | t in q.incomeTemplates :: t in s.incomeTemplates
    requires IdsFit(PreviewMonth(s, now, req, q), incomeIds, allocationIds)
  {
    var preview :- PreviewMonth(s, now, req, q);
    Success(s.(months := s.months[preview.key := preview.month],
               incomes := s.incomes + Keyed(incomeIds, preview.rows.incomes),
               allocations := s.allocations + Keyed(allocationIds, preview.rows.allocations)))
  }

  /** One new identifier for each row about to be inserted. */
  predicate IdsFit(preview: Result<Preview, Error>, incomeIds: seq<Id>, allocationIds: seq<Id>) {
    preview.Success? ==>
      |incomeIds| == |preview.value.rows.incomes| && |allocationIds| == |preview.value.rows.allocations|
  }

  function UpdateMonth(s: Ledger, key: string, opening: Option<int>, wallet: Option<int>): Result<Ledger, Error> {
    var m :- FindOpenMonth(s, key);
    var current := s.months[m];
    Success(s.(months := s.months[m := current.(opening := opening.GetOr(current.opening),
                                                wallet := wallet.GetOr(current.wallet))]))
  }

  function RowsOfMonth(s: Ledger, m: MonthKey): set<Id> {
    set t | t in s.transactions && InMonth(s, m, t)
  }

  /** Every table's rows of the month go with it (ON DELETE CASCADE). */
  function DeleteMonth(s: Ledger, key: string): Result<Ledger, Error> {
    var m :- FindMonth(s, key);
    Success(RemoveTransactions(s, RowsOfMonth(s, m)).(
      months := Drop(s.months, {m}),
      incomes := Drop(s.incomes, set i | i in s.incomes && s.incomes[i].month == m),
      allocations := Drop(s.allocations, set a | a in s.allocations && s.allocations[a].month == m)))
  }

  /** A transaction goes with its month or with its envelope, whichever is deleted. */
  predicate InMonth(s: Ledger, m: MonthKey, t: Id)
    requires t in s.transactions
  {
    || s.transactions[t].month == m
    || (s.transactions[t].allocation in s.allocations && s.allocations[s.transactions[t].allocation].month == m)
  }

  function CloseMonth(s: Ledger, key: string): Result<Ledger, Error> {
    var m :- FindMonth(s, key);
    if s.months[m].status == Closed then Success(s)
    else Success(s.(months := s.months[m := s.months[m].(status := Closed, closedWallet := Some(s.months[m].wallet))]))
  }

  function ReopenMonth(s: Ledger, key: string): Result<Ledger, Error> {
    var m :- FindMonth(s, key);
    if s.months[m].status == Open then Success(s)
    else Success(s.(months := s.months[m := s.months[m].(status := Open, closedWallet := None)]))
  }

  // ----- Income -----

  datatype IncomePatch = IncomePatch(
    name: Option<string>, amount: Option<int>, received: Option<Option<string>>, appliesTo: Option<string>,
    notes: Option<Option<string>>)

  function CreateIncome(s: Ledger, key: string, input: IncomeInput, id: Id): Result<Ledger, Error> {
    var m :- FindOpenMonth(s, key);
    var item :- CheckIncome(m, input);
    Success(AddWallet(s.(incomes := s.incomes[id := item]), m, item.amount))
  }

  function PatchIncome(x: IncomeItem, patch: IncomePatch): (r: Result<IncomeItem, Error>)
    ensures r.Success? ==> r.value.month == x.month
    ensures r.Success? && x.amount >= 0 ==> r.value.amount >= 0
  {
    var name :- if patch.name.Some? then RequireName(patch.name.value) else Success(x.name);
    :- Need(patch.amount.GetOr(0) >= 0, AmountNegative);
    var received :- if patch.received.Some? then ParseOptionalDate(patch.received.value) else Success(x.received);
    var appliesTo :- if patch.appliesTo.Some? then ParseMonth(patch.appliesTo.value) else Success(x.appliesTo);
    Success(IncomeItem(x.month, name, patch.amount.GetOr(x.amount), received, appliesTo,
                       if patch.notes.Some? then OptionalText(patch.notes.value) else x.notes))
  }

  function UpdateIncome(s: Ledger, id: Id, patch: IncomePatch): Result<Ledger, Error> {
    if id !in s.incomes then Failure(NotFound) else
      var x := s.incomes[id];
      :- EnsureOpen(s, x.month);
      var y :- PatchIncome(x, patch);
      Success(AddWallet(s.(incomes := s.incomes[id := y]), x.month, y.amount - x.amount))
  }

  function DeleteIncome(s: Ledger, id: Id): Result<Ledger, Error> {
    if id !in s.incomes then Failure(NotFound) else
      var x := s.incomes[id];
      :- EnsureOpen(s, x.month);
      Success(AddWallet(s.(incomes := Drop(s.incomes, {id})), x.month, -x.amount))
  }

  // ----- Envelopes -----

  datatype AllocationPatch = AllocationPatch(
    name: Option<string>, budget: Option<int>, kind: Option<string>, carryForward: Option<bool>,
    sortOrder: Option<int>, active: Option<bool>)

  function CreateAllocation(s: Ledger, key: string, input: AllocationInput, now: int, id: Id): Result<Ledger, Error> {
    var m :- FindOpenMonth(s, key);
    var a :- CheckAllocation(s, m, now, input);
    Success(s.(allocations := s.allocations[id := a]))
  }

  function PatchAllocation(a: Allocation, patch: AllocationPatch): (r: Result<Allocation, Error>)
    ensures r.Success? ==> r.value.month == a.month
    ensures r.Success? && a.budget >= 0 ==> r.value.budget >= 0
  {
    var name :- if patch.name.Some? then RequireName(patch.name.value) else Success(a.name);
    :- Need(patch.budget.GetOr(0) >= 0, AmountNegative);
    Success(a.(name := name, budget := patch.budget.GetOr(a.budget),
               kind := if patch.kind.Some? then NormalizeAllocationType(patch.kind.value) else a.kind,
               carryForward := patch.carryForward.GetOr(a.carryForward),
               sortOrder := patch.sortOrder.GetOr(a.sortOrder),
               active := patch.active.GetOr(a.active)))
  }

  function UpdateAllocation(s: Ledger, id: Id, patch: AllocationPatch): Result<Ledger, Error> {
    if id !in s.allocations then Failure(NotFound) else
      :- EnsureOpen(s, s.allocations[id].month);
      var a :- PatchAllocation(s.allocations[id], patch);
      Success(s.(allocations := s.allocations[id := a]))
  }

  /** The envelope's transactions go with it (ON DELETE CASCADE); the wallet is left as it is. */
  function DeleteAllocation(s: Ledger, id: Id): Result<Ledger, Error> {
    if id !in s.allocations then Failure(NotFound) else
      :- EnsureOpen(s, s.allocations[id].month);
      var gone := set t | t in s.transactions && s.transactions[t].allocation == id;
      Success(RemoveTransactions(s, gone).(allocations := Drop(s.allocations, {id})))
  }

  // ----- Transactions -----

  /** A missing envelope stands for a blank allocation_id; a blank date means today. */
  datatype TransactionInput = TransactionInput(
    allocation: Option<Id>, category: Option<Id>, date: string, amount: int, note: Option<string>, rounded: bool)

  datatype TransactionPatch = TransactionPatch(
    allocation: Option<Option<Id>>, category: Option<Option<Id>>, date: Option<string>, amount: Option<int>,
    note: Option<Option<string>>, rounded: Option<bool>)

  /** ensureAllocationBelongsToMonth. */
  function EnsureEnvelope(s: Ledger, a: Option<Id>, m: MonthKey): Outcome<Error> {
    if a.None? then Fail(AllocationRequired)
    else if a.value in s.allocations && s.allocations[a.value].month == m then Pass
    else Fail(AllocationNotInMonth)
  }

  /** ensureCategoryExists. */
  function EnsureCategory(s: Ledger, c: Id): Outcome<Error> {
    Need(c in s.categories && s.categories[c].active, CategoryMissing)
  }

  function CheckTransaction(s: Ledger, m: MonthKey, input: TransactionInput, today: string):
    Result<Transaction, Error> {
    var category := input.category.GetOr(UNSORTED_CATEGORY);
    :- EnsureEnvelope(s, input.allocation, m);
    :- EnsureCategory(s, category);
    :- Need(input.amount > 0, AmountNotPositive);
    var date :- ParseDate(if Trim(input.date) == [] then today else input.date);
    Success(Transaction(m, input.allocation.value, category, date, input.amount, OptionalText(input.note),
                        input.rounded, Spend, Manual, None))
  }

  function CreateTransaction(s: Ledger, key: string, input: TransactionInput, today: string, id: Id):
    Result<Ledger, Error>
  {
    var m :- FindOpenMonth(s, key);
    var x :- CheckTransaction(s, m, input, today);
    Success(AddWallet(s.(transactions := s.transactions[id := x]), m, -x.amount))
  }

  /** transactionEditBalanceDelta. */
  function EditDelta(kind: Kind, before: int, after: int): int {
    match kind
    case Income => after - before
    case Spend => before - after
    case _ => 0
  }

  /** transactionDeleteBalanceDelta. */
  function DeleteDelta(kind: Kind, amount: int): int {
    match kind
    case Income => -amount
    case Spend => amount
    case _ => 0
  }

  /** A split child's amount is frozen; a new envelope or category must be one that may be used. */
  function Refile(s: Ledger, x: Transaction, patch: TransactionPatch): (r: Result<Transaction, Error>)
    ensures r.Success? ==> r.value == x.(allocation := r.value.allocation, category := r.value.category)
  {
    if x.parent.Some? && patch.amount.Some? then Failure(ChildAmountFrozen) else
      :- if patch.allocation.Some? then EnsureEnvelope(s, patch.allocation.value, x.month) else Pass;
      :- Need(patch.category != Some(None), CategoryRequired);
      :- if patch.category.Some? then EnsureCategory(s, patch.category.value.value) else Pass;
      Success(x.(allocation := if patch.allocation.Some? then patch.allocation.value.value else x.allocation,
                 category := if patch.category.Some? then patch.category.value.value else x.category))
  }

  function PatchTransaction(s: Ledger, x: Transaction, patch: TransactionPatch): (r: Result<Transaction, Error>)
    ensures r.Success? ==> r.value.month == x.month && r.value.kind == x.kind && r.value.source == x.source
                           && r.value.parent == x.parent
    ensures r.Success? && x.parent.Some? ==> r.value.amount == x.amount
  {
    var y :- Refile(s, x, patch);
    var date :- if patch.date.Some? then ParseDate(patch.date.value) else Success(x.date);
    :- Need(patch.amount.GetOr(1) > 0, AmountNotPositive);
    Success(y.(date := date, amount := patch.amount.GetOr(x.amount),
               note := if patch.note.Some? then OptionalText(patch.note.value) else x.note,
               rounded := patch.rounded.GetOr(x.rounded)))
  }

  /** The wallet follows an amount edit only for rows outside any split. */
  function UpdateTransaction(s: Ledger, id: Id, patch: TransactionPatch): Result<Ledger, Error> {
    if id !in s.transactions then Failure(NotFound) else
      var x := s.transactions[id];
      :- EnsureOpen(s, x.month);
      var y :- PatchTransaction(s, x, patch);
      var delta := if x.parent.None? && !HasChildren(s.links, id) then EditDelta(x.kind, x.amount, y.amount) else 0;
      Success(AddWallet(s.(transactions := s.transactions[id := y]), x.month, delta))
  }

  ghost function AmountOf(rows: Transactions): Id -> int {
    t => if t in rows then rows[t].amount else 0
  }

  /** What a split parent's rows are worth: the sum over its children. */
  ghost function ChildrenTotal(rows: Transactions, links: Links, p: Id): int {
    Sums.SumOver(Children(links, p), AmountOf(rows))
  }

  /** A split is deleted as a whole, and refunds its children. */
  ghost function DeleteTransaction(s: Ledger, id: Id): Result<Ledger, Error> {
    if id !in s.transactions then Failure(NotFound) else
      var x := s.transactions[id];
      :- EnsureOpen(s, x.month);
      :- Need(x.parent.None?, ChildNotDeletable);
      var refund := if HasChildren(s.links, id) then ChildrenTotal(s.transactions, s.links, id)
                    else DeleteDelta(x.kind, x.amount);
      Success(AddWallet(RemoveTransactions(s, Children(s.links, id) + {id}), x.month, refund))
  }

  // ----- Splits -----

  /** sanitizeSplitInput: blank fields are taken from the parent. */
  function CheckSplitRow(s: Ledger, p: Id, row: TransactionInput): (r: Result<Transaction, Error>)
    requires p in s.transactions
    ensures r.Success? ==> r.value.parent == Some(p) && r.value.month == s.transactions[p].month
                           && r.value.kind == Spend && r.value.source == Split && r.value.amount == row.amount > 0
  {
    var parent := s.transactions[p];
    var allocation := row.allocation.GetOr(parent.allocation);
    :- EnsureEnvelope(s, Some(allocation), parent.month);
    var category := row.category.GetOr(parent.category);
    :- EnsureCategory(s, category);
    :- Need(row.amount > 0, AmountNotPositive);
    var date :- ParseDate(if Trim(row.date) == [] then parent.date else row.date);
    Success(Transaction(parent.month, allocation, category, date, row.amount, OptionalText(row.note), row.rounded,
                        Spend, Split, Some(p)))
  }

  function CheckSplitRows(s: Ledger, p: Id, rows: seq<TransactionInput>): (r: Result<seq<Transaction>, Error>)
    requires p in s.transactions
    ensures r.Success? ==> |r.value| == |rows|
    ensures r.Success? ==> forall i | 0 <= i < |rows| :: CheckSplitRow(s, p, rows[i]) == Success(r.value[i])
  {
    if rows == [] then Success([])
    else
      var init :- CheckSplitRows(s, p, rows[..|rows| - 1]);
      var last :- CheckSplitRow(s, p, rows[|rows| - 1]);
      Success(init + [last])
  }

  function Total(rows: seq<Transaction>): int {
    if rows == [] then 0 else Total(rows[..|rows| - 1]) + rows[|rows| - 1].amount
  }

  function SplitGuard(s: Ledger, id: Id, rows: seq<TransactionInput>): (r: Outcome<Error>)
    ensures r.Pass? ==> id in s.transactions && s.transactions[id].month in s.months
  {
    if id !in s.transactions then Fail(NotFound)
    else if EnsureOpen(s, s.transactions[id].month).Fail? then EnsureOpen(s, s.transactions[id].month)
    else if s.transactions[id].parent.Some? then Fail(ChildNotSplittable)
    else if s.transactions[id].kind != Spend then Fail(OnlySpendsSplit)
    else if s.transactions[id].source == Reconciliation then Fail(ReconciliationNotSplittable)
    else if HasChildren(s.links, id) then Fail(AlreadySplit)
    else if |rows| < 2 then Fail(TooFewRows)
    else if |rows| > 20 then Fail(TooManyRows)
    else Pass
  }

  function SplitTransaction(s: Ledger, id: Id, rows: seq<TransactionInput>, ids: seq<Id>): Result<Ledger, Error>
    requires |ids| == |rows|
  {
    if SplitGuard(s, id, rows).Fail? then Failure(SplitGuard(s, id, rows).error) else
      var children :- CheckSplitRows(s, id, rows);
      :- Need(Total(children) == s.transactions[id].amount, SumMismatch);
      Success(s.(transactions := s.transactions + Keyed(ids, children),
                 links := s.links + map k | k in ids :: id))
  }

  // ----- Reconciliation -----

  predicate ReconciliationEnvelope(s: Ledger, m: MonthKey, a: Id) {
    a in s.allocations && s.allocations[a].month == m && s.allocations[a].name == RECONCILIATION_ALLOCATION_NAME
  }

  /** The envelope the query picks: inactive before active, then oldest. */
  ghost predicate PicksEnvelope(s: Ledger, m: MonthKey, pick: Option<Id>) {
    match pick
    case None => forall a | a in s.allocations :: !ReconciliationEnvelope(s, m, a)
    case Some(a) =>
      && ReconciliationEnvelope(s, m, a)
      && forall b | b in s.allocations && ReconciliationEnvelope(s, m, b) ::
           && (s.allocations[a].active ==> s.allocations[b].active)
           && (s.allocations[a].active == s.allocations[b].active ==>
                 s.allocations[a].created <= s.allocations[b].created)
  }

  /** The category row the three queries find: by id, by system key, by name. */
  ghost predicate PicksCategory(s: Ledger, pick: Option<Id>) {
    match pick
    case None =>
      RECONCILIATION_CATEGORY !in s.categories && forall c | c in s.categories ::
        s.categories[c].systemKey != Some(RECONCILIATION_SYSTEM_KEY)
        && s.categories[c].name != RECONCILIATION_CATEGORY_NAME
    case Some(c) =>
      && c in s.categories
      && (RECONCILIATION_CATEGORY in s.categories ==> c == RECONCILIATION_CATEGORY)
      && (c != RECONCILIATION_CATEGORY && s.categories[c].systemKey != Some(RECONCILIATION_SYSTEM_KEY) ==>
            && s.categories[c].name == RECONCILIATION_CATEGORY_NAME
            && forall d | d in s.categories :: s.categories[d].systemKey != Some(RECONCILIATION_SYSTEM_KEY))
  }

  /** ensureReconciliationCategory: the UNIQUE columns may refuse the renaming. */
  function ClaimCategory(s: Ledger, pick: Option<Id>): (r: Result<(map<Id, Category>, Id), Error>)
    requires pick.Some? ==> pick.value in s.categories
    ensures r.Success? ==> r.value.0.Keys == s.categories.Keys + {r.value.1}
  {
    var claimed := Category(RECONCILIATION_CATEGORY_NAME, Some(RECONCILIATION_SYSTEM_KEY), true);
    match pick
    case None => Success((s.categories[RECONCILIATION_CATEGORY := claimed], RECONCILIATION_CATEGORY))
    case Some(c) =>
      if exists d | d in s.categories :: d != c
           && (s.categories[d].name == RECONCILIATION_CATEGORY_NAME
               || s.categories[d].systemKey == Some(RECONCILIATION_SYSTEM_KEY))
      then Failure(NameTaken)
      else Success((s.categories[c := claimed], c))
  }

  /** ensureReconciliationAllocation. */
  function ClaimEnvelope(s: Ledger, m: MonthKey, pick: Option<Id>, now: int, newId: Id): (map<Id, Allocation>, Id)
    requires pick.Some? ==> pick.value in s.allocations
  {
    match pick
    case None =>
      (s.allocations[newId := Allocation(m, None, RECONCILIATION_ALLOCATION_NAME, 0, "flexible", false,
                                         RECONCILIATION_SORT_ORDER, false, [], now)], newId)
    case Some(a) =>
      (s.allocations[a := s.allocations[a].(budget := 0, kind := "flexible", carryForward := false,
                                            sortOrder := RECONCILIATION_SORT_ORDER, active := false)], a)
  }

  /** reconciliationTransactionDate: today if it lies in the month, otherwise the month's first day. */
  function ReconciliationDate(m: MonthKey, today: string): string {
    if m + "-" <= today then today else m + "-01"
  }

  /** The date lies in the month, and is today whenever today does. */
  lemma ReconciliationDateIs(m: MonthKey, today: string)
    requires ValidMonthKey(m) && ValidDateKey(today)
    ensures var date := ReconciliationDate(m, today);
      ValidDateKey(date) && date[..7] == m && (today[..7] == m ==> date == today)
  {
    if today[..7] == m {
      assert today == m + "-" + today[8..];
    } else {
      assert Number("01"[..1]) == 0 && Number("01") == 1;
      DateIsValid(m, "01");
      assert m + "-01" == m + "-" + "01";
      assert (m + "-")[..7] == m;
    }
  }

  function ReconciliationRow(m: MonthKey, a: Id, c: Id, delta: int, note: Option<string>, today: string): Transaction {
    Transaction(m, a, c, ReconciliationDate(m, today), if delta < 0 then -delta else delta,
                Some(OptionalText(note).GetOr("Reconcile balance")), false,
                if delta < 0 then Spend else Income, Reconciliation, None)
  }

  datatype BalanceUpdate = BalanceUpdate(
    month: MonthKey, previous: int, new_: int, expected: int, difference: int, note: Option<string>)

  /** A row in a hidden envelope accounts for the difference between wallet and counted figure. */
  function Reconcile(s: Ledger, m: MonthKey, counted: int, note: Option<string>, today: string, now: int,
                     envelope: Option<Id>, category: Option<Id>, newEnvelope: Id, id: Id): Result<Ledger, Error>
    requires m in s.months
    requires envelope.Some? ==> envelope.value in s.allocations
    requires category.Some? ==> category.value in s.categories
  {
    var (allocations, a) := ClaimEnvelope(s, m, envelope, now, newEnvelope);
    var (categories, c) :- ClaimCategory(s, category);
    var x := ReconciliationRow(m, a, c, counted - s.months[m].wallet, note, today);
    Success(SetWallet(s.(allocations := allocations, categories := categories,
                         transactions := s.transactions[id := x]), m, counted))
  }

  /** CreateBalanceUpdate: the wallet becomes the counted figure. */
  function CreateBalanceUpdate(s: Ledger, key: string, counted: int, note: Option<string>, today: string, now: int,
                               envelope: Option<Id>, category: Option<Id>, newEnvelope: Id, id: Id):
    Result<Ledger, Error>
    requires envelope.Some? ==> envelope.value in s.allocations
    requires category.Some? ==> category.value in s.categories
  {
    var m :- FindOpenMonth(s, key);
    if counted == s.months[m].wallet then Success(s)
    else Reconcile(s, m, counted, note, today, now, envelope, category, newEnvelope, id)
  }

  // ----- Settings -----

  /** Any sequence of category edits: referenced rows cannot go (ON DELETE RESTRICT), and default
      lists forget a deleted category (ON DELETE CASCADE). */
  function ChangeCategories(s: Ledger, categories: map<Id, Category>): Result<Ledger, Error> {
    if exists t | t in s.transactions :: s.transactions[t].category !in categories then Failure(CategoryMissing) else
      Success(s.(categories := categories,
                 allocations := map a | a in s.allocations ::
                   s.allocations[a].(defaults := Kept(s.allocations[a].defaults, categories.Keys)),
                 templates := map t | t in s.templates ::
                   s.templates[t].(defaults := Kept(s.templates[t].defaults, categories.Keys))))
  }

  function Kept(ids: seq<Id>, alive: set<Id>): seq<Id> {
    if ids == [] then []
    else Kept(ids[..|ids| - 1], alive) + (if ids[|ids| - 1] in alive then [ids[|ids| - 1]] else [])
  }

  /** Any sequence of template edits: envelopes forget a deleted template (ON DELETE SET NULL). */
  function ChangeTemplates(s: Ledger, templates: map<Id, AllocationTemplate>, incomes: map<Id, IncomeTemplate>):
    Result<Ledger, Error>
  {
    Success(s.(templates := templates, incomeTemplates := incomes,
               allocations := map a | a in s.allocations ::
                 if s.allocations[a].template.Some? && s.allocations[a].template.value !in templates
                 then s.allocations[a].(template := None) else s.allocations[a]))
  }
}
