/** Over every run, the variance of a month moves only by manual corrections and envelope deletions. */
module VarianceOverRuns {
  import opened Wrappers
  import opened Sums
  import opened Ledger
  import opened MonthRows
  import opened LedgerOps
  import opened LedgerRuns
  import opened Conservation

  lemma VarianceIs(s: Ledger, m: MonthKey)
    requires m in s.months
    ensures Variance(s, m) == s.months[m].wallet - s.months[m].opening - ItemTotal(s.incomes, m)
                              - Net(s.transactions, s.links, m)
  {
    NetIs(s.transactions, s.links, m);
  }

  /** Steps that leave the rows and the difference of the two balances alone. */
  lemma SameVariance(s: Ledger, s': Ledger, m: MonthKey)
    requires m in s.months && m in s'.months
    requires s'.incomes == s.incomes && s'.transactions == s.transactions && s'.links == s.links
    requires s'.months[m].wallet - s'.months[m].opening == s.months[m].wallet - s.months[m].opening
    ensures Variance(s', m) == Variance(s, m)
  {
  }

  // ----- Months -----

  lemma {:induction false} ItemsAlong(ids: seq<Id>, rows: seq<IncomeItem>, f: Id -> int)
    requires |ids| == |rows| && forall i | 0 <= i < |ids| :: f(ids[i]) == rows[i].amount
    ensures SumAlong(ids, f) == RowTotal(rows)
  {
    if ids != [] {
      ItemsAlong(ids[..|ids| - 1], rows[..|ids| - 1], f);
    }
  }

  lemma KeyedItems(incomes: Incomes, ids: seq<Id>, rows: seq<IncomeItem>, key: MonthKey, m: MonthKey)
    requires |ids| == |rows| && Distinct(ids)
    requires forall i | 0 <= i < |ids| :: ids[i] in incomes && incomes[ids[i]] == rows[i] && rows[i].month == key
    ensures SumOver((set i | i in ids), ItemOf(incomes, m)) == if m == key then RowTotal(rows) else 0
  {
    if m == key {
      SumAlongDistinct(ids, ItemOf(incomes, m));
      ItemsAlong(ids, rows, ItemOf(incomes, m));
    } else {
      SumZero((set i | i in ids), ItemOf(incomes, m));
    }
  }

  lemma ItemsOfInsertion(incomes: Incomes, ids: seq<Id>, rows: seq<IncomeItem>, key: MonthKey, m: MonthKey)
    requires |ids| == |rows| && AllNew(ids, incomes)
    requires forall i | 0 <= i < |rows| :: rows[i].month == key
    ensures ItemTotal(incomes + Keyed(ids, rows), m) == ItemTotal(incomes, m) + if m == key then RowTotal(rows) else 0
  {
    var incomes' := incomes + Keyed(ids, rows);
    var added := set i | i in ids;
    forall i | 0 <= i < |ids|
      ensures ids[i] in incomes' && incomes'[ids[i]] == rows[i]
    {
      KeyedRow(ids, rows, i);
    }
    SumChange(incomes.Keys, incomes'.Keys, ItemOf(incomes, m), ItemOf(incomes', m), added);
    assert incomes.Keys * added == {};
    assert incomes'.Keys * added == added;
    KeyedItems(incomes', ids, rows, key, m);
  }

  lemma EmptyMonth(s: Ledger, m: MonthKey)
    requires Referential(s) && m !in s.months
    ensures ItemTotal(s.incomes, m) == 0 && Net(s.transactions, s.links, m) == 0
  {
    var f := ItemOf(s.incomes, m);
    assert forall i | i in s.incomes.Keys :: f(i) == 0;
    SumZero(s.incomes.Keys, f);
    forall t | t in s.transactions.Keys
      ensures EffectOf(s.transactions, s.links, m)(t) == 0
    {
      EffectIs(s.transactions, s.links, m, t);
      assert Filed(s, s.transactions[t]);
    }
    SumZero(s.transactions.Keys, EffectOf(s.transactions, s.links, m));
  }

  /** A month starts with no variance, unless its request states a wallet that disagrees with its rows. */
  lemma NewMonthVariance(s: Ledger, req: MonthRequest, q: Answers, now: int, incomeIds: seq<Id>, allocationIds: seq<Id>)
    requires Sound(s) && AllNew(incomeIds, s.incomes) && AllNew(allocationIds, s.allocations)
    requires forall t | t in q.templates :: t in s.templates
    requires forall t | t in q.incomeTemplates :: t in s.incomeTemplates
    requires IdsFit(PreviewMonth(s, now, req, q), incomeIds, allocationIds)
    requires CreateMonth(s, req, q, now, incomeIds, allocationIds).Success?
    ensures var s' := CreateMonth(s, req, q, now, incomeIds, allocationIds).value;
      var preview := PreviewMonth(s, now, req, q).value;
      && preview.key in s'.months
      && Variance(s', preview.key) == (match req.wallet
           case None => 0
           case Some(w) => w - req.opening - RowTotal(preview.rows.incomes))
      && forall m | m in s.months :: m in s'.months && Variance(s', m) == Variance(s, m)
  {
    var s' := CreateMonth(s, req, q, now, incomeIds, allocationIds).value;
    var preview := PreviewMonth(s, now, req, q).value;
    PreparedRowsAreGood(s, preview.key, now, req, q);
    InsertionVariance(s, s', incomeIds, preview.rows.incomes, preview.key, preview.month);
  }

  lemma InsertionVariance(s: Ledger, s': Ledger, ids: seq<Id>, rows: seq<IncomeItem>, key: MonthKey, month: Month)
    requires Referential(s) && key !in s.months && s'.months == s.months[key := month]
    requires s'.transactions == s.transactions && s'.links == s.links
    requires |ids| == |rows| && AllNew(ids, s.incomes) && s'.incomes == s.incomes + Keyed(ids, rows)
    requires forall i | 0 <= i < |rows| :: rows[i].month == key
    ensures Variance(s', key) == month.wallet - month.opening - RowTotal(rows)
    ensures forall m | m in s.months :: m in s'.months && Variance(s', m) == Variance(s, m)
  {
    InsertionHere(s, s', ids, rows, key);
    forall m | m in s.months
      ensures m in s'.months && Variance(s', m) == Variance(s, m)
    {
      InsertionElsewhere(s, s', ids, rows, key, m);
    }
  }

  lemma InsertionHere(s: Ledger, s': Ledger, ids: seq<Id>, rows: seq<IncomeItem>, key: MonthKey)
    requires Referential(s) && key !in s.months && key in s'.months
    requires s'.transactions == s.transactions && s'.links == s.links
    requires |ids| == |rows| && AllNew(ids, s.incomes) && s'.incomes == s.incomes + Keyed(ids, rows)
    requires forall i | 0 <= i < |rows| :: rows[i].month == key
    ensures Variance(s', key) == s'.months[key].wallet - s'.months[key].opening - RowTotal(rows)
  {
    VarianceIs(s', key);
    EmptyMonth(s, key);
    ItemsOfInsertion(s.incomes, ids, rows, key, key);
  }

  lemma InsertionElsewhere(s: Ledger, s': Ledger, ids: seq<Id>, rows: seq<IncomeItem>, key: MonthKey, m: MonthKey)
    requires m in s.months && m in s'.months && m != key && s'.months[m] == s.months[m]
    requires s'.transactions == s.transactions && s'.links == s.links
    requires |ids| == |rows| && AllNew(ids, s.incomes) && s'.incomes == s.incomes + Keyed(ids, rows)
    requires forall i | 0 <= i < |rows| :: rows[i].month == key
    ensures Variance(s', m) == Variance(s, m)
  {
    VarianceIs(s, m);
    VarianceIs(s', m);
    ItemsOfInsertion(s.incomes, ids, rows, key, m);
  }

  /** Deleting a month leaves the others' variance alone. */
  lemma DeleteMonthVariance(s: Ledger, key: string, m: MonthKey)
    requires Valid(s) && DeleteMonth(s, key).Success? && m in s.months && FindMonth(s, key).value != m
    ensures m in DeleteMonth(s, key).value.months
    ensures Variance(DeleteMonth(s, key).value, m) == Variance(s, m)
  {
    var k := FindMonth(s, key).value;
    var s' := DeleteMonth(s, key).value;
    var gone := set t | t in s.transactions && InMonth(s, k, t);
    forall t | t in s.transactions && t in gone
      ensures s.transactions[t].month != m
    {
      assert Filed(s, s.transactions[t]);
    }
    NetElsewhere(s, gone, m);
    var items := set i | i in s.incomes && s.incomes[i].month == k;
    ItemsOfRemoval(s.incomes, m, items);
    SumZero(s.incomes.Keys * items, ItemOf(s.incomes, m));
    VarianceIs(s, m);
    VarianceIs(s', m);
  }

  // ----- Income -----

  lemma IncomeWriteVariance(s: Ledger, id: Id, x: IncomeItem, m: MonthKey)
    requires x.month in s.months && m in s.months && (id in s.incomes ==> s.incomes[id].month == x.month)
    ensures var delta := x.amount - (if id in s.incomes then s.incomes[id].amount else 0);
      Variance(AddWallet(s.(incomes := s.incomes[id := x]), x.month, delta), m) == Variance(s, m)
  {
    var delta := x.amount - (if id in s.incomes then s.incomes[id].amount else 0);
    ItemsOfWrite(s.incomes, m, id, x);
    VarianceIs(s, m);
    VarianceIs(AddWallet(s.(incomes := s.incomes[id := x]), x.month, delta), m);
  }

  lemma DeleteIncomeVariance(s: Ledger, id: Id, m: MonthKey)
    requires m in s.months && DeleteIncome(s, id).Success?
    ensures Variance(DeleteIncome(s, id).value, m) == Variance(s, m)
  {
    ItemsOfRemoval(s.incomes, m, {id});
    assert s.incomes.Keys * {id} == {id};
    SumSingleton(id, ItemOf(s.incomes, m));
    VarianceIs(s, m);
    VarianceIs(DeleteIncome(s, id).value, m);
  }

  // ----- Transactions -----

  /** Writing a row together with its effect on the wallet. */
  lemma WriteVariance(s: Ledger, id: Id, x: Transaction, m: MonthKey, delta: int)
    requires x.month in s.months && m in s.months
    requires id in s.transactions ==> s.transactions[id].month == x.month
    requires delta == if HasChildren(s.links, id) then 0
                      else Signed(x) - (if id in s.transactions then Signed(s.transactions[id]) else 0)
    ensures Variance(AddWallet(s.(transactions := s.transactions[id := x]), x.month, delta), m) == Variance(s, m)
  {
    NetOfWrite(s.transactions, s.links, m, id, x);
    VarianceIs(s, m);
    VarianceIs(AddWallet(s.(transactions := s.transactions[id := x]), x.month, delta), m);
  }

  lemma NewRowIsNoParent(s: Ledger, id: Id)
    requires Forest(s.transactions, s.links) && id !in s.transactions
    ensures !HasChildren(s.links, id)
  {
  }

  lemma CreateTransactionVariance(s: Ledger, key: string, input: TransactionInput, today: string, id: Id, m: MonthKey)
    requires Valid(s) && m in s.months && id !in s.transactions
    requires CreateTransaction(s, key, input, today, id).Success?
    ensures Variance(CreateTransaction(s, key, input, today, id).value, m) == Variance(s, m)
  {
    var k := FindOpenMonth(s, key).value;
    var x := CheckTransaction(s, k, input, today).value;
    NewRowIsNoParent(s, id);
    WriteVariance(s, id, x, m, -x.amount);
  }

  /** A child's amount is frozen, a parent's is invisible, and any other edit moves the wallet. */
  lemma UpdateTransactionVariance(s: Ledger, id: Id, patch: TransactionPatch, m: MonthKey)
    requires Valid(s) && m in s.months && UpdateTransaction(s, id, patch).Success?
    ensures Variance(UpdateTransaction(s, id, patch).value, m) == Variance(s, m)
  {
    var x := s.transactions[id];
    var y := PatchTransaction(s, x, patch).value;
    var delta := if x.parent.None? && !HasChildren(s.links, id) then EditDelta(x.kind, x.amount, y.amount) else 0;
    if x.parent.Some? {
      assert IsChild(s.transactions, id);
      ChildHasNoChildren(s.transactions, s.links, id);
    }
    WriteVariance(s, id, y, m, delta);
  }

  /** Removing a split, or an unsplit row, with the refund it is worth. */
  lemma FamilyRemovalVariance(s: Ledger, p: Id, m: MonthKey, refund: int)
    requires Forest(s.transactions, s.links) && p in s.transactions && s.transactions[p].parent.None?
    requires m in s.months && s.transactions[p].month in s.months
    requires refund == -FamilyWeight(s.transactions, s.links, p)
    ensures Variance(AddWallet(RemoveTransactions(s, Family(s.links, p)), s.transactions[p].month, refund), m)
         == Variance(s, m)
  {
    NetOfFamilyRemoval(s, p, m);
    VarianceIs(s, m);
    VarianceIs(AddWallet(RemoveTransactions(s, Family(s.links, p)), s.transactions[p].month, refund), m);
  }

  lemma DeleteTransactionVariance(s: Ledger, id: Id, m: MonthKey)
    requires Valid(s) && m in s.months && DeleteTransaction(s, id).Success?
    ensures Variance(DeleteTransaction(s, id).value, m) == Variance(s, m)
  {
    var x := s.transactions[id];
    var refund := if HasChildren(s.links, id) then ChildrenTotal(s.transactions, s.links, id)
                  else DeleteDelta(x.kind, x.amount);
    FamilyRemovalVariance(s, id, m, refund);
  }

  lemma SplitTransactionVariance(s: Ledger, id: Id, rows: seq<TransactionInput>, ids: seq<Id>, m: MonthKey)
    requires Valid(s) && m in s.months && |ids| == |rows| && AllNew(ids, s.transactions)
    requires SplitTransaction(s, id, rows, ids).Success?
    ensures Variance(SplitTransaction(s, id, rows, ids).value, m) == Variance(s, m)
  {
    var children := CheckSplitRows(s, id, rows).value;
    var s' := WithChildren(s, id, ids, children);
    CheckedRowsAreGood(s, id, rows);
    NetOfSplit(s, id, ids, children, m);
    SplitTotal(s, id, ids, children);
    VarianceIs(s, m);
    VarianceIs(s', m);
  }

  lemma ReconcileVariance(s: Ledger, m': MonthKey, counted: int, note: Option<string>, today: string, now: int,
                          envelope: Option<Id>, category: Option<Id>, newEnvelope: Id, id: Id, m: MonthKey)
    requires Forest(s.transactions, s.links) && id !in s.transactions && m in s.months
    requires m' in s.months && counted != s.months[m'].wallet
    requires envelope.Some? ==> envelope.value in s.allocations
    requires category.Some? ==> category.value in s.categories
    requires Reconcile(s, m', counted, note, today, now, envelope, category, newEnvelope, id).Success?
    ensures var s' := Reconcile(s, m', counted, note, today, now, envelope, category, newEnvelope, id).value;
      Variance(s', m) == Variance(s, m) && s'.months[m'].wallet == counted
  {
    var (allocations, a) := ClaimEnvelope(s, m', envelope, now, newEnvelope);
    var (categories, c) := ClaimCategory(s, category).value;
    var delta := counted - s.months[m'].wallet;
    var x := ReconciliationRow(m', a, c, delta, note, today);
    var s1 := s.(allocations := allocations, categories := categories, transactions := s.transactions[id := x]);
    assert Reconcile(s, m', counted, note, today, now, envelope, category, newEnvelope, id).value
        == SetWallet(s1, m', counted) == AddWallet(s1, m', delta);
    ReconciledVariance(s, m', allocations, categories, id, a, c, delta, note, today, m);
  }

  lemma ReconciledVariance(s: Ledger, m': MonthKey, allocations: Allocations, categories: map<Id, Category>, id: Id,
                           a: Id, c: Id, delta: int, note: Option<string>, today: string, m: MonthKey)
    requires Forest(s.transactions, s.links) && id !in s.transactions && m in s.months && m' in s.months && delta != 0
    ensures var x := ReconciliationRow(m', a, c, delta, note, today);
      Variance(AddWallet(s.(allocations := allocations, categories := categories,
                            transactions := s.transactions[id := x]), m', delta), m) == Variance(s, m)
  {
    ReconciledRow(m', a, c, delta, note, today);
    var s1 := s.(allocations := allocations, categories := categories);
    SameVariance(s, s1, m);
    NewRowIsNoParent(s, id);
    WriteVariance(s1, id, ReconciliationRow(m', a, c, delta, note, today), m, delta);
  }

  // ----- Deleting an envelope -----

  ghost function RowsOf(rows: Transactions, a: Id): set<Id> {
    set t | t in rows && rows[t].allocation == a
  }

  /** What deleting an envelope does to the variance of its month: its visible spending is no longer
      expected but was already paid, and parents that lose all children count again. */
  ghost function EnvelopeDrift(s: Ledger, a: Id, m: MonthKey): int {
    SumOver(RowsOf(s.transactions, a), EffectOf(s.transactions, s.links, m))
    + SumOver(s.transactions.Keys - RowsOf(s.transactions, a),
              RevealedOf(s.transactions, s.links, RowsOf(s.transactions, a), m))
  }

  lemma DeleteAllocationVariance(s: Ledger, a: Id, m: MonthKey)
    requires Valid(s) && m in s.months && DeleteAllocation(s, a).Success?
    ensures Variance(DeleteAllocation(s, a).value, m) == Variance(s, m) + EnvelopeDrift(s, a, m)
    ensures s.allocations[a].month != m ==> EnvelopeDrift(s, a, m) == 0
  {
    var gone := RowsOf(s.transactions, a);
    var s' := DeleteAllocation(s, a).value;
    NetOfRemoval(s, gone, m);
    assert s.transactions.Keys * gone == gone;
    VarianceIs(s, m);
    VarianceIs(s', m);
    if s.allocations[a].month != m {
      forall t | t in s.transactions && t in gone
        ensures s.transactions[t].month != m
      {
        assert Filed(s, s.transactions[t]);
      }
      NetElsewhere(s, gone, m);
    }
  }

  /** Visible income filed in an envelope. */
  ghost function EnvelopeIncomeOf(rows: Transactions, links: Links, a: Id): Id -> int {
    t => if VisibleIncome(rows, links, t) && rows[t].allocation == a then rows[t].amount else 0
  }

  ghost function RevealedTotal(s: Ledger, a: Id, m: MonthKey): int {
    SumOver(s.transactions.Keys - RowsOf(s.transactions, a),
            RevealedOf(s.transactions, s.links, RowsOf(s.transactions, a), m))
  }

  /** In the terms of the screens: the drift is the envelope's income, less its spent figure, plus the
      amounts of the split parents elsewhere whose children all lay in it. */
  lemma EnvelopeDriftIs(s: Ledger, a: Id)
    requires Referential(s) && a in s.allocations
    ensures EnvelopeDrift(s, a, s.allocations[a].month)
         == SumOver(s.transactions.Keys, EnvelopeIncomeOf(s.transactions, s.links, a))
            - Spent(s.transactions, s.links, a) + RevealedTotal(s, a, s.allocations[a].month)
  {
    var m, rows, links := s.allocations[a].month, s.transactions, s.links;
    var mine, f := RowsOf(rows, a), EffectOf(rows, links, m);
    var income, spend := EnvelopeIncomeOf(rows, links, a), EnvelopeSpendOf(rows, links, a);
    forall t | t in rows.Keys
      ensures t in mine ==> income(t) == f(t) + spend(t)
      ensures t !in mine ==> income(t) == 0 && spend(t) == 0
    {
      assert Filed(s, rows[t]);
      EffectIs(rows, links, m, t);
    }
    assert forall t | t in rows.Keys - mine :: t !in mine;
    SumPart(rows.Keys, mine, f, income, spend);
  }

  /** Whether an envelope holds rows of its own only: no income, and no child of a split filed elsewhere. */
  ghost predicate SelfContained(s: Ledger, a: Id) {
    && (forall t | t in s.transactions && s.transactions[t].allocation == a :: s.transactions[t].kind != Income)
    && (forall c | c in s.links && c in s.transactions && s.transactions[c].allocation == a ::
          s.links[c] in s.transactions && s.transactions[s.links[c]].allocation == a)
  }

  lemma NoIncomeIn(s: Ledger, a: Id)
    requires SelfContained(s, a)
    ensures SumOver(s.transactions.Keys, EnvelopeIncomeOf(s.transactions, s.links, a)) == 0
  {
    var f := EnvelopeIncomeOf(s.transactions, s.links, a);
    forall t | t in s.transactions.Keys
      ensures f(t) == 0
    {
    }
    SumZero(s.transactions.Keys, f);
  }

  /** Whether anything visible was spent from the envelope. */
  ghost predicate Unspent(s: Ledger, a: Id) {
    forall t | t in s.transactions && s.transactions[t].allocation == a :: !VisibleSpend(s.transactions, s.links, t)
  }

  lemma SpentIsZeroIff(s: Ledger, a: Id)
    requires Referential(s)
    ensures Spent(s.transactions, s.links, a) == 0 <==> Unspent(s, a)
  {
    var keys, f := s.transactions.Keys, EnvelopeSpendOf(s.transactions, s.links, a);
    forall t | t in keys
      ensures f(t) >= 0
      ensures f(t) == 0 <==> !(VisibleSpend(s.transactions, s.links, t) && s.transactions[t].allocation == a)
    {
      assert Filed(s, s.transactions[t]);
    }
    SumNonNegative(keys, f);
    if Unspent(s, a) {
      SumZero(keys, f);
    } else {
      var t :| t in s.transactions && s.transactions[t].allocation == a && VisibleSpend(s.transactions, s.links, t);
      assert t in keys && 0 < f(t) <= SumOver(keys, f);
    }
  }

  /** Deleting an envelope leaves the variance of its month alone exactly when its income, and the split
      parents that lose all their children with it, make up for its spent figure. */
  lemma DeletingEnvelopeIsNeutralIff(s: Ledger, a: Id)
    requires Valid(s) && DeleteAllocation(s, a).Success? && s.allocations[a].month in s.months
    ensures var s', m := DeleteAllocation(s, a).value, s.allocations[a].month;
      && m in s'.months
      && (Variance(s', m) == Variance(s, m) <==>
            SumOver(s.transactions.Keys, EnvelopeIncomeOf(s.transactions, s.links, a)) + RevealedTotal(s, a, m)
            == Spent(s.transactions, s.links, a))
  {
    DeleteAllocationVariance(s, a, s.allocations[a].month);
    EnvelopeDriftIs(s, a);
  }

  /** For an envelope with rows of its own only, exactly when nothing visible was spent from it. */
  lemma DeletingPlainEnvelopeIsNeutralIff(s: Ledger, a: Id)
    requires Valid(s) && DeleteAllocation(s, a).Success? && SelfContained(s, a) && s.allocations[a].month in s.months
    ensures var s', m := DeleteAllocation(s, a).value, s.allocations[a].month;
      m in s'.months && (Variance(s', m) == Variance(s, m) <==> Unspent(s, a))
  {
    DeletingEnvelopeIsNeutralIff(s, a);
    NoIncomeIn(s, a);
    NothingRevealed(s, a, s.allocations[a].month);
    SpentIsZeroIff(s, a);
  }

  /** A month with one envelope and one spend of 100 in it. */
  function SpentEnvelope(m: MonthKey): Ledger {
    Ledger(map[m := Month(1000, 900, Open, None)], map[],
           map[2 := Allocation(m, None, "Food", 300, "flexible", false, 0, true, [], 0)],
           map[3 := Transaction(m, 2, UNSORTED_CATEGORY, m + "-05", 100, None, false, Spend, Manual, None)],
           map[], map[UNSORTED_CATEGORY := Category("Unsorted", None, true)], map[], map[])
  }

  lemma SpentEnvelopeIsSound(m: MonthKey)
    requires Calendar.ValidMonthKey(m)
    ensures Sound(SpentEnvelope(m))
  {
  }

  /** Deleting its envelope moves the figure that every other operation keeps in step. */
  lemma DeletingSpentEnvelopeMovesVariance(m: MonthKey)
    requires Calendar.ValidMonthKey(m)
    ensures var s := SpentEnvelope(m);
      DeleteAllocation(s, 2).Success? && m in DeleteAllocation(s, 2).value.months
      && Variance(DeleteAllocation(s, 2).value, m) != Variance(s, m)
  {
    var s := SpentEnvelope(m);
    SpentEnvelopeIsSound(m);
    assert VisibleSpend(s.transactions, s.links, 3);
    DeletingPlainEnvelopeIsNeutralIff(s, 2);
  }

  lemma NothingRevealed(s: Ledger, a: Id, m: MonthKey)
    requires Forest(s.transactions, s.links) && SelfContained(s, a)
    ensures RevealedTotal(s, a, m) == 0
  {
    var rows, links, mine := s.transactions, s.links, RowsOf(s.transactions, a);
    forall t | t in rows.Keys - mine
      ensures RevealedOf(rows, links, mine, m)(t) == 0
    {
      assert forall c | c in links && links[c] == t :: c in rows && rows[c].allocation != a;
    }
    SumZero(rows.Keys - mine, RevealedOf(rows, links, mine, m));
  }

  // ----- Steps and runs -----

  /** How far one step moves the variance of a month. */
  ghost function Drift(s: Ledger, op: Op, m: MonthKey): int
    requires m in s.months
  {
    match op
    case OpUpdateMonth(key, opening, wallet) =>
      if FindOpenMonth(s, key) == Success(m)
      then (wallet.GetOr(s.months[m].wallet) - s.months[m].wallet)
           - (opening.GetOr(s.months[m].opening) - s.months[m].opening)
      else 0
    case OpDeleteAllocation(a) =>
      if DeleteAllocation(s, a).Success? && s.allocations[a].month == m then EnvelopeDrift(s, a, m) else 0
    case _ => 0
  }

  lemma BalanceStepVariance(s: Ledger, op: Op, m: MonthKey)
    requires Sound(s) && Ready(s, op) && m in s.months && op.OpBalanceUpdate?
    ensures m in Next(s, op).months && Variance(Next(s, op), m) == Variance(s, m)
  {
    if Attempt(s, op).Success? {
      var k := FindOpenMonth(s, op.key).value;
      if op.counted != s.months[k].wallet {
        ReconcileVariance(s, k, op.counted, op.note, op.today, op.now, op.envelope, op.category, op.newEnvelope,
                          op.id, m);
      }
    }
  }

  lemma DeletionStepVariance(s: Ledger, op: Op, m: MonthKey)
    requires Sound(s) && Ready(s, op) && m in s.months && op.OpDeleteTransaction?
    ensures m in Next(s, op).months && Variance(Next(s, op), m) == Variance(s, m)
  {
    if Attempt(s, op).Success? {
      DeleteTransactionVariance(s, op.id, m);
    }
  }

  lemma SplitStepVariance(s: Ledger, op: Op, m: MonthKey)
    requires Sound(s) && Ready(s, op) && m in s.months && op.OpSplitTransaction?
    ensures m in Next(s, op).months && Variance(Next(s, op), m) == Variance(s, m)
  {
    if Attempt(s, op).Success? {
      SplitTransactionVariance(s, op.id, op.rows, op.ids, m);
    }
  }

  lemma WriteStepVariance(s: Ledger, op: Op, m: MonthKey)
    requires Sound(s) && Ready(s, op) && m in s.months && (op.OpCreateTransaction? || op.OpUpdateTransaction?)
    ensures m in Next(s, op).months && Variance(Next(s, op), m) == Variance(s, m)
  {
    if Attempt(s, op).Success? {
      if op.OpCreateTransaction? {
        CreateTransactionVariance(s, op.key, op.transaction, op.today, op.id, m);
      } else {
        UpdateTransactionVariance(s, op.id, op.transactionPatch, m);
      }
    }
  }

  lemma RowStepVariance(s: Ledger, op: Op, m: MonthKey)
    requires Sound(s) && Ready(s, op) && m in s.months && ChangesRows(op)
    ensures m in Next(s, op).months && Variance(Next(s, op), m) == Variance(s, m)
  {
    if op.OpBalanceUpdate? {
      BalanceStepVariance(s, op, m);
    } else if op.OpCreateTransaction? || op.OpUpdateTransaction? {
      WriteStepVariance(s, op, m);
    } else if op.OpSplitTransaction? {
      SplitStepVariance(s, op, m);
    } else {
      DeletionStepVariance(s, op, m);
    }
  }

  lemma MonthStepVariance(s: Ledger, op: Op, m: MonthKey)
    requires Sound(s) && Ready(s, op) && m in s.months && ChangesMonths(op) && !Deletes(op, m)
    ensures m in Next(s, op).months && Variance(Next(s, op), m) == Variance(s, m) + Drift(s, op, m)
  {
    if op.OpCreateMonth? {
      CreateMonthStep(s, op, m);
    } else if op.OpDeleteMonth? {
      DeleteMonthStep(s, op, m);
    } else if op.OpUpdateMonth? {
      UpdateMonthStep(s, op, m);
    } else {
      StatusOrSettingsStep(s, op, m);
    }
  }

  lemma UpdateMonthStep(s: Ledger, op: Op, m: MonthKey)
    requires Sound(s) && Ready(s, op) && m in s.months && op.OpUpdateMonth?
    ensures m in Next(s, op).months && Variance(Next(s, op), m) == Variance(s, m) + Drift(s, op, m)
  {
    if Attempt(s, op).Success? {
      UpdateMonthVariance(s, op.key, op.opening, op.wallet, m);
    }
  }

  lemma UpdateMonthVariance(s: Ledger, key: string, opening: Option<int>, wallet: Option<int>, m: MonthKey)
    requires m in s.months && UpdateMonth(s, key, opening, wallet).Success?
    ensures var s' := UpdateMonth(s, key, opening, wallet).value;
      && m in s'.months
      && Variance(s', m) - Variance(s, m)
         == (s'.months[m].wallet - s.months[m].wallet) - (s'.months[m].opening - s.months[m].opening)
  {
    VarianceIs(s, m);
    VarianceIs(UpdateMonth(s, key, opening, wallet).value, m);
  }

  lemma MonthEditVariance(s: Ledger, k: MonthKey, x: Month, m: MonthKey)
    requires m in s.months && k in s.months
    requires x.wallet == s.months[k].wallet && x.opening == s.months[k].opening
    ensures Variance(s.(months := s.months[k := x]), m) == Variance(s, m)
  {
    SameVariance(s, s.(months := s.months[k := x]), m);
  }

  lemma CloseMonthVariance(s: Ledger, key: string, m: MonthKey)
    requires m in s.months && CloseMonth(s, key).Success?
    ensures m in CloseMonth(s, key).value.months && Variance(CloseMonth(s, key).value, m) == Variance(s, m)
  {
    var k := FindMonth(s, key).value;
    MonthEditVariance(s, k, s.months[k].(status := Closed, closedWallet := Some(s.months[k].wallet)), m);
  }

  lemma ReopenMonthVariance(s: Ledger, key: string, m: MonthKey)
    requires m in s.months && ReopenMonth(s, key).Success?
    ensures m in ReopenMonth(s, key).value.months && Variance(ReopenMonth(s, key).value, m) == Variance(s, m)
  {
    var k := FindMonth(s, key).value;
    MonthEditVariance(s, k, s.months[k].(status := Open, closedWallet := None), m);
  }

  lemma StatusOrSettingsStep(s: Ledger, op: Op, m: MonthKey)
    requires Sound(s) && Ready(s, op) && m in s.months
    requires op.OpCloseMonth? || op.OpReopenMonth? || op.OpChangeCategories? || op.OpChangeTemplates?
    ensures m in Next(s, op).months && Variance(Next(s, op), m) == Variance(s, m)
  {
    if op.OpCloseMonth? {
      if Attempt(s, op).Success? { CloseMonthVariance(s, op.key, m); }
    } else if op.OpReopenMonth? {
      if Attempt(s, op).Success? { ReopenMonthVariance(s, op.key, m); }
    } else {
      SettingsLeaveBooks(s, op);
      SameVariance(s, Next(s, op), m);
    }
  }

  lemma SettingsLeaveBooks(s: Ledger, op: Op)
    requires GoodTemplates(s) && Ready(s, op) && (op.OpChangeCategories? || op.OpChangeTemplates?)
    ensures var s' := Next(s, op);
      s'.months == s.months && s'.incomes == s.incomes && s'.transactions == s.transactions && s'.links == s.links
  {
  }

  lemma CreateMonthStep(s: Ledger, op: Op, m: MonthKey)
    requires Sound(s) && Ready(s, op) && m in s.months && op.OpCreateMonth?
    ensures m in Next(s, op).months && Variance(Next(s, op), m) == Variance(s, m)
  {
    if Attempt(s, op).Success? {
      NewMonthVariance(s, op.req, op.answers, op.now, op.incomeIds, op.allocationIds);
    }
  }

  lemma DeleteMonthStep(s: Ledger, op: Op, m: MonthKey)
    requires Sound(s) && Ready(s, op) && m in s.months && op.OpDeleteMonth? && !Deletes(op, m)
    ensures m in Next(s, op).months && Variance(Next(s, op), m) == Variance(s, m)
  {
    if Attempt(s, op).Success? {
      DeleteMonthVariance(s, op.key, m);
    }
  }

  lemma EntryStepVariance(s: Ledger, op: Op, m: MonthKey)
    requires Sound(s) && Ready(s, op) && m in s.months && !ChangesRows(op) && !ChangesMonths(op)
    ensures m in Next(s, op).months && Variance(Next(s, op), m) == Variance(s, m) + Drift(s, op, m)
  {
    var r := Attempt(s, op);
    if r.Success? {
      match op
      case OpCreateIncome(key, income, id) =>
        IncomeWriteVariance(s, id, CheckIncome(FindOpenMonth(s, key).value, income).value, m);
      case OpUpdateIncome(id, patch) => IncomeWriteVariance(s, id, PatchIncome(s.incomes[id], patch).value, m);
      case OpDeleteIncome(id) => DeleteIncomeVariance(s, id, m);
      case OpDeleteAllocation(a) => DeleteAllocationVariance(s, a, m);
      case OpCreateAllocation(_, _, _, _) => SameVariance(s, r.value, m);
      case OpUpdateAllocation(_, _) => SameVariance(s, r.value, m);
      case _ =>
    }
  }

  /** Every step moves the variance of a surviving month by exactly its drift. */
  lemma StepVariance(s: Ledger, op: Op, m: MonthKey)
    requires Sound(s) && Ready(s, op) && m in s.months && !Deletes(op, m)
    ensures m in Next(s, op).months && Variance(Next(s, op), m) == Variance(s, m) + Drift(s, op, m)
  {
    if ChangesRows(op) {
      RowStepVariance(s, op, m);
    } else if ChangesMonths(op) {
      MonthStepVariance(s, op, m);
    } else {
      EntryStepVariance(s, op, m);
    }
  }

  /** Conservation: over any run that does not delete the month, correct it by hand or delete an
      envelope, wallet less expected balance stays what it was. */
  lemma {:induction false} VarianceIsConserved(s: Ledger, ops: seq<Op>, s': Ledger, m: MonthKey)
    requires Sound(s) && Run(s, ops, s') && m in s.months
    requires forall op | op in ops :: !Deletes(op, m) && !op.OpUpdateMonth? && !op.OpDeleteAllocation?
    ensures m in s'.months && Variance(s', m) == Variance(s, m)
    decreases |ops|
  {
    if ops != [] {
      assert ops[0] in ops;
      StepVariance(s, ops[0], m);
      StepKeepsSound(s, ops[0]);
      VarianceIsConserved(Next(s, ops[0]), ops[1..], s', m);
    }
  }

  /** The drifts of a run, added up along it. */
  ghost function RunDrift(s: Ledger, ops: seq<Op>, m: MonthKey): int
    decreases |ops|
  {
    if ops == [] || m !in s.months || !GoodTemplates(s) || !Ready(s, ops[0]) then 0
    else Drift(s, ops[0], m) + RunDrift(Next(s, ops[0]), ops[1..], m)
  }

  lemma {:induction false} VarianceOfRun(s: Ledger, ops: seq<Op>, s': Ledger, m: MonthKey)
    requires Sound(s) && Run(s, ops, s') && m in s.months
    requires forall op | op in ops :: !Deletes(op, m)
    ensures m in s'.months && Variance(s', m) == Variance(s, m) + RunDrift(s, ops, m)
    decreases |ops|
  {
    if ops != [] {
      assert ops[0] in ops;
      StepVariance(s, ops[0], m);
      StepKeepsSound(s, ops[0]);
      VarianceOfRun(Next(s, ops[0]), ops[1..], s', m);
    }
  }
}
