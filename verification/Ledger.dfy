/** The wallet's tables and the figures computed from them.
    A month row is identified by its key: the key, like the row id, is unique and never changes. */
module Ledger {
  import opened Wrappers
  import opened Calendar
  import opened Sums

  /** Row identifiers: only equality matters. */
  type Id = int
  type MonthKey = string

  const UNSORTED_CATEGORY := 0
  const RECONCILIATION_CATEGORY := 1
  const RECONCILIATION_ALLOCATION_NAME := "Reconcillation Adjustment"
  const RECONCILIATION_CATEGORY_NAME := "Adjustment"
  const RECONCILIATION_SYSTEM_KEY := "reconciliation_adjustment"
  const RECONCILIATION_SORT_ORDER := 1_000_000

  datatype Status = Open | Closed
  datatype Kind = Spend | Income | Adjustment | Transfer
  datatype Source = Manual | Reconciliation | Split | System

  datatype Month = Month(opening: int, wallet: int, status: Status, closedWallet: Option<int>)

  datatype IncomeItem = IncomeItem(
    month: MonthKey, name: string, amount: int, received: Option<string>, appliesTo: string, notes: Option<string>)

  datatype Allocation = Allocation(
    month: MonthKey, template: Option<Id>, name: string, budget: int, kind: string, carryForward: bool,
    sortOrder: int, active: bool, defaults: seq<Id>, created: int)

  datatype Transaction = Transaction(
    month: MonthKey, allocation: Id, category: Id, date: string, amount: int, note: Option<string>,
    rounded: bool, kind: Kind, source: Source, parent: Option<Id>)

  datatype Category = Category(name: string, systemKey: Option<string>, active: bool)

  datatype AllocationTemplate = AllocationTemplate(
    name: string, amount: int, kind: string, carryForward: bool, active: bool, sortOrder: int, defaults: seq<Id>)

  datatype IncomeTemplate = IncomeTemplate(
    name: string, amount: int, day: Option<int>, active: bool, sortOrder: int)

  /** `links` is the split table, from child to parent: its child column is UNIQUE. */
  datatype Ledger = Ledger(
    months: map<MonthKey, Month>,
    incomes: map<Id, IncomeItem>,
    allocations: map<Id, Allocation>,
    transactions: map<Id, Transaction>,
    links: map<Id, Id>,
    categories: map<Id, Category>,
    templates: map<Id, AllocationTemplate>,
    incomeTemplates: map<Id, IncomeTemplate>)

  // ----- Figures -----

  type Incomes = map<Id, IncomeItem>
  type Allocations = map<Id, Allocation>
  type Transactions = map<Id, Transaction>
  type Links = map<Id, Id>

  predicate HasChildren(links: Links, t: Id) {
    exists c | c in links :: links[c] == t
  }

  function Children(links: Links, t: Id): set<Id> {
    set c | c in links && links[c] == t
  }

  /** visibleSpendCondition: a spend that is not a split parent. */
  predicate VisibleSpend(rows: Transactions, links: Links, t: Id) {
    t in rows && rows[t].kind == Spend && !HasChildren(links, t)
  }

  /** visibleIncomeCondition. */
  predicate VisibleIncome(rows: Transactions, links: Links, t: Id) {
    t in rows && rows[t].kind == Income && !HasChildren(links, t)
  }

  function ItemOf(incomes: Incomes, m: MonthKey): Id -> int {
    i => if i in incomes && incomes[i].month == m then incomes[i].amount else 0
  }

  function IncomeOf(rows: Transactions, links: Links, m: MonthKey): Id -> int {
    t => if VisibleIncome(rows, links, t) && rows[t].month == m then rows[t].amount else 0
  }

  function SpendOf(rows: Transactions, links: Links, m: MonthKey): Id -> int {
    t => if VisibleSpend(rows, links, t) && rows[t].month == m then rows[t].amount else 0
  }

  ghost function ItemTotal(incomes: Incomes, m: MonthKey): int {
    SumOver(incomes.Keys, ItemOf(incomes, m))
  }

  ghost function IncomeTransactionTotal(rows: Transactions, links: Links, m: MonthKey): int {
    SumOver(rows.Keys, IncomeOf(rows, links, m))
  }

  /** Visible spending filed under a month. */
  ghost function MonthSpend(rows: Transactions, links: Links, m: MonthKey): int {
    SumOver(rows.Keys, SpendOf(rows, links, m))
  }

  /** Opening balance, plus all income, less all visible spending. */
  ghost function Expected(s: Ledger, m: MonthKey): int
    requires m in s.months
  {
    s.months[m].opening + ItemTotal(s.incomes, m) + IncomeTransactionTotal(s.transactions, s.links, m)
    - MonthSpend(s.transactions, s.links, m)
  }

  /** Stored wallet balance less the balance recomputed from the rows. */
  ghost function Variance(s: Ledger, m: MonthKey): int
    requires m in s.months
  {
    s.months[m].wallet - Expected(s, m)
  }

  function EnvelopeSpendOf(rows: Transactions, links: Links, a: Id): Id -> int {
    t => if VisibleSpend(rows, links, t) && rows[t].allocation == a then rows[t].amount else 0
  }

  /** An envelope's visible spending; as in the source, joined on the allocation alone. */
  ghost function Spent(rows: Transactions, links: Links, a: Id): int {
    SumOver(rows.Keys, EnvelopeSpendOf(rows, links, a))
  }

  ghost function Remaining(s: Ledger, a: Id): int
    requires a in s.allocations
  {
    s.allocations[a].budget - Spent(s.transactions, s.links, a)
  }

  /** Envelopes whose remainder is set aside: active, and not the hidden reconciliation envelope. */
  predicate Reserving(x: Allocation) {
    x.name != RECONCILIATION_ALLOCATION_NAME && x.active
  }

  ghost function ReservedOf(s: Ledger, m: MonthKey): Id -> int {
    a =>
      if a in s.allocations && s.allocations[a].month == m && Reserving(s.allocations[a]) && Remaining(s, a) > 0
      then Remaining(s, a) else 0
  }

  ghost function Reserved(s: Ledger, m: MonthKey): int {
    SumOver(s.allocations.Keys, ReservedOf(s, m))
  }

  ghost function Available(s: Ledger, m: MonthKey): int
    requires m in s.months
  {
    s.months[m].wallet - Reserved(s, m)
  }

  // ----- Well-formed tables -----

  ghost predicate MonthKeys(months: map<MonthKey, Month>) {
    forall m {:trigger ValidMonthKey(m)} | m in months :: ValidMonthKey(m)
  }

  /** A month is closed exactly when it holds a snapshot, and the snapshot is its wallet. */
  ghost predicate Snapshots(months: map<MonthKey, Month>) {
    forall m | m in months ::
      months[m].closedWallet == if months[m].status == Closed then Some(months[m].wallet) else None
  }

  /** Foreign keys and CHECK constraints, and every transaction filed in an envelope of its own month. */
  ghost predicate Referential(s: Ledger) {
    && (forall i | i in s.incomes :: s.incomes[i].month in s.months && s.incomes[i].amount >= 0)
    && (forall a | a in s.allocations :: s.allocations[a].month in s.months && s.allocations[a].budget >= 0)
    && (forall t | t in s.transactions :: Filed(s, s.transactions[t]))
  }

  predicate Filed(s: Ledger, x: Transaction) {
    && x.allocation in s.allocations
    && s.allocations[x.allocation].month == x.month
    && x.category in s.categories
    && x.amount > 0
  }

  /** A legal child of a legal parent. */
  predicate Linked(child: Transaction, p: Id, parent: Transaction) {
    && child.parent == Some(p) && parent.parent.None?
    && child.month == parent.month
    && child.kind == Spend && child.source == Split
    && parent.kind == Spend && parent.source != Reconciliation
  }

  predicate IsChild(rows: Transactions, t: Id) {
    t in rows && rows[t].parent.Some?
  }

  /** The link table and the parent column describe one forest of depth one. */
  ghost predicate Forest(rows: Transactions, links: Links) {
    && (forall c | c in links :: c in rows && links[c] in rows && Linked(rows[c], links[c], rows[links[c]]))
    && (forall t {:trigger IsChild(rows, t)} | IsChild(rows, t) :: t in links && links[t] == rows[t].parent.value)
  }

  ghost predicate Valid(s: Ledger) {
    MonthKeys(s.months) && Snapshots(s.months) && Referential(s) && Forest(s.transactions, s.links)
  }

  // ----- Row changes -----

  /** applyWalletBalanceDelta. */
  function AddWallet(s: Ledger, m: MonthKey, delta: int): Ledger
    requires m in s.months
  {
    s.(months := s.months[m := s.months[m].(wallet := s.months[m].wallet + delta)])
  }

  function SetWallet(s: Ledger, m: MonthKey, wallet: int): (r: Ledger)
    requires m in s.months
    ensures r == AddWallet(s, m, wallet - s.months[m].wallet)
  {
    s.(months := s.months[m := s.months[m].(wallet := wallet)])
  }

  /** Deleting transactions: the schema drops their split links (ON DELETE CASCADE on both
      columns) and clears the parent column of rows that pointed to them (ON DELETE SET NULL). */
  function RemoveTransactions(s: Ledger, gone: set<Id>): Ledger {
    s.(transactions := map t | t in s.transactions && t !in gone ::
         Orphaned(s.transactions[t], gone),
       links := Unlinked(s.links, gone))
  }

  function Unlinked(links: Links, gone: set<Id>): Links {
    map c | c in links && c !in gone && links[c] !in gone :: links[c]
  }

  function Orphaned(x: Transaction, gone: set<Id>): Transaction {
    if x.parent.Some? && x.parent.value in gone then x.(parent := None) else x
  }

  /** DELETE of some rows. */
  function Drop<K, T>(table: map<K, T>, gone: set<K>): map<K, T> {
    map k | k in table && k !in gone :: table[k]
  }

  /** Rows under their new identifiers. */
  function Keyed<T>(ids: seq<Id>, rows: seq<T>): (r: map<Id, T>)
    requires |ids| == |rows|
    ensures forall k :: k in r <==> k in ids
  {
    if ids == [] then map[]
    else
      assert ids == ids[..|ids| - 1] + [ids[|ids| - 1]];
      Keyed(ids[..|ids| - 1], rows[..|rows| - 1])[ids[|ids| - 1] := rows[|rows| - 1]]
  }

  predicate Distinct(ids: seq<Id>) {
    forall i, j | 0 <= i < j < |ids| :: ids[i] != ids[j]
  }

  lemma {:induction false} KeyedRow<T>(ids: seq<Id>, rows: seq<T>, i: nat)
    requires |ids| == |rows| && Distinct(ids) && i < |ids|
    ensures ids[i] in Keyed(ids, rows) && Keyed(ids, rows)[ids[i]] == rows[i]
  {
    var n := |ids| - 1;
    if i < n {
      KeyedRow(ids[..n], rows[..n], i);
      assert ids[..n][i] != ids[n];
    }
  }
}
