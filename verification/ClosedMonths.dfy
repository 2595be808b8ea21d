/** A closed month is frozen until it is reopened or deleted. */
module ClosedMonths {
  import opened Wrappers
  import opened Validation
  import opened Sums
  import opened Ledger
  import opened MonthRows
  import opened LedgerOps
  import opened LedgerRuns
  import opened Conservation

  ghost predicate SameItems(incomes: Incomes, incomes': Incomes, m: MonthKey) {
    && (forall i | i in incomes && incomes[i].month == m :: i in incomes' && incomes'[i] == incomes[i])
    && (forall i | i in incomes' && incomes'[i].month == m :: i in incomes && incomes[i].month == m)
  }

  ghost predicate SameEnvelopes(allocations: Allocations, allocations': Allocations, m: MonthKey) {
    && (forall a | a in allocations && allocations[a].month == m ::
          a in allocations' && allocations'[a] == allocations[a])
    && (forall a | a in allocations' && allocations'[a].month == m :: a in allocations && allocations[a].month == m)
  }

  ghost predicate SameRows(rows: Transactions, links: Links, rows': Transactions, links': Links, m: MonthKey) {
    && (forall t | t in rows && rows[t].month == m :: t in rows' && rows'[t] == rows[t])
    && (forall t | t in rows' && rows'[t].month == m :: t in rows && rows[t].month == m)
    && (forall t | t in rows && rows[t].month == m ::
          (t in links <==> t in links') && (t in links ==> links'[t] == links[t]))
  }

  /** The month's record, its income items and its transactions are the same in both ledgers. */
  ghost predicate SameEntries(s: Ledger, s': Ledger, m: MonthKey) {
    && m in s.months && m in s'.months && s'.months[m] == s.months[m]
    && SameItems(s.incomes, s'.incomes, m)
    && SameRows(s.transactions, s.links, s'.transactions, s'.links, m)
  }

  /** The month's record and all its rows are the same in both ledgers. */
  ghost predicate SameBooks(s: Ledger, s': Ledger, m: MonthKey) {
    SameEntries(s, s', m) && SameEnvelopes(s.allocations, s'.allocations, m)
  }

  /** The envelope may have lost the link to its template, and default categories, but nothing else. */
  predicate Faded(x: Allocation, y: Allocation) {
    && y.(template := x.template, defaults := x.defaults) == x
    && (y.template == x.template || y.template.None?)
    && (y.defaults == x.defaults || |y.defaults| < |x.defaults|)
  }

  ghost predicate FadedEnvelopes(allocations: Allocations, allocations': Allocations, m: MonthKey) {
    && (forall a | a in allocations && allocations[a].month == m ::
          a in allocations' && Faded(allocations[a], allocations'[a]))
    && (forall a | a in allocations' && allocations'[a].month == m :: a in allocations && allocations[a].month == m)
  }

  ghost predicate FadedBooks(s: Ledger, s': Ledger, m: MonthKey) {
    SameEntries(s, s', m) && FadedEnvelopes(s.allocations, s'.allocations, m)
  }

  /** What is lost along the way is not found again. */
  lemma FadedBooksTransitive(s: Ledger, s': Ledger, s'': Ledger, m: MonthKey)
    requires FadedBooks(s, s', m) && FadedBooks(s', s'', m)
    ensures FadedBooks(s, s'', m)
    ensures SameBooks(s, s'', m) <==> SameBooks(s, s', m) && SameBooks(s', s'', m)
  {
    SameEntriesTransitive(s, s', s'', m);
    FadedEnvelopesTransitive(s.allocations, s'.allocations, s''.allocations, m);
  }

  lemma SameEntriesTransitive(s: Ledger, s': Ledger, s'': Ledger, m: MonthKey)
    requires SameEntries(s, s', m) && SameEntries(s', s'', m)
    ensures SameEntries(s, s'', m)
  {
  }

  lemma FadedEnvelopesTransitive(x: Allocations, y: Allocations, z: Allocations, m: MonthKey)
    requires FadedEnvelopes(x, y, m) && FadedEnvelopes(y, z, m)
    ensures FadedEnvelopes(x, z, m)
    ensures SameEnvelopes(x, z, m) <==> SameEnvelopes(x, y, m) && SameEnvelopes(y, z, m)
  {
    forall a | a in x && x[a].month == m
      ensures a in y && a in z && Faded(x[a], z[a]) && (z[a] == x[a] <==> y[a] == x[a] && z[a] == y[a])
    {
      FadedTransitive(x[a], y[a], z[a]);
    }
    assert forall a | a in z && z[a].month == m :: a in y;
  }

  lemma FadedTransitive(x: Allocation, y: Allocation, z: Allocation)
    requires Faded(x, y) && Faded(y, z)
    ensures Faded(x, z) && (z == x <==> y == x && z == y)
  {
  }

  predicate Reopens(op: Op, m: MonthKey) {
    op.OpReopenMonth? && ParseMonth(op.key) == Success(m)
  }

  ghost predicate ClosedIn(s: Ledger, m: MonthKey) {
    m in s.months && s.months[m].status == Closed
  }

  lemma RemovalElsewhere(s: Ledger, gone: set<Id>, m: MonthKey)
    requires Valid(s)
    requires forall t | t in s.transactions && t in gone :: s.transactions[t].month != m
    ensures var s' := RemoveTransactions(s, gone); SameRows(s.transactions, s.links, s'.transactions, s'.links, m)
  {
    var s' := RemoveTransactions(s, gone);
    forall t | t in s.transactions && s.transactions[t].month == m
      ensures t in s'.transactions && s'.transactions[t] == s.transactions[t]
      ensures t in s.links ==> t in s'.links
    {
      assert IsChild(s.transactions, t) ==> t in s.links && s.links[t] == s.transactions[t].parent.value;
    }
  }

  lemma DeleteMonthElsewhere(s: Ledger, key: string, m: MonthKey)
    requires Valid(s) && ClosedIn(s, m) && DeleteMonth(s, key).Success? && FindMonth(s, key).value != m
    ensures SameBooks(s, DeleteMonth(s, key).value, m)
  {
    var k := FindMonth(s, key).value;
    var gone := set t | t in s.transactions && InMonth(s, k, t);
    forall t | t in s.transactions && t in gone
      ensures s.transactions[t].month != m
    {
      assert Filed(s, s.transactions[t]);
    }
    RemovalElsewhere(s, gone, m);
  }

  lemma DeleteAllocationElsewhere(s: Ledger, a: Id, m: MonthKey)
    requires Valid(s) && ClosedIn(s, m) && DeleteAllocation(s, a).Success?
    ensures SameBooks(s, DeleteAllocation(s, a).value, m)
  {
    var gone := set t | t in s.transactions && s.transactions[t].allocation == a;
    forall t | t in s.transactions && t in gone
      ensures s.transactions[t].month != m
    {
      assert Filed(s, s.transactions[t]);
    }
    RemovalElsewhere(s, gone, m);
  }

  lemma DeleteTransactionElsewhere(s: Ledger, id: Id, m: MonthKey)
    requires Valid(s) && ClosedIn(s, m) && DeleteTransaction(s, id).Success?
    ensures SameBooks(s, DeleteTransaction(s, id).value, m)
  {
    var gone := Family(s.links, id);
    forall t | t in s.transactions && t in gone
      ensures s.transactions[t].month != m
    {
      if t != id {
        assert Linked(s.transactions[t], id, s.transactions[id]);
      }
    }
    RemovalElsewhere(s, gone, m);
  }

  lemma SplitElsewhere(s: Ledger, id: Id, rows: seq<TransactionInput>, ids: seq<Id>, m: MonthKey)
    requires Valid(s) && ClosedIn(s, m) && |ids| == |rows| && AllNew(ids, s.transactions)
    requires SplitTransaction(s, id, rows, ids).Success?
    ensures SameBooks(s, SplitTransaction(s, id, rows, ids).value, m)
  {
    var children := CheckSplitRows(s, id, rows).value;
    var s' := WithChildren(s, id, ids, children);
    CheckedRowsAreGood(s, id, rows);
    forall t | t in s'.transactions && s'.transactions[t].month == m
      ensures t in s.transactions && s.transactions[t].month == m
    {
      if t in ids {
        InsertedChild(s, id, ids, children, t);
      }
    }
    assert forall t | t in s.transactions :: t !in ids;
  }

  lemma CreateMonthElsewhere(s: Ledger, req: MonthRequest, q: Answers, now: int,
                             incomeIds: seq<Id>, allocationIds: seq<Id>, m: MonthKey)
    requires Sound(s) && ClosedIn(s, m) && AllNew(incomeIds, s.incomes) && AllNew(allocationIds, s.allocations)
    requires forall t | t in q.templates :: t in s.templates
    requires forall t | t in q.incomeTemplates :: t in s.incomeTemplates
    requires IdsFit(PreviewMonth(s, now, req, q), incomeIds, allocationIds)
    requires CreateMonth(s, req, q, now, incomeIds, allocationIds).Success?
    ensures SameBooks(s, CreateMonth(s, req, q, now, incomeIds, allocationIds).value, m)
  {
    var s' := CreateMonth(s, req, q, now, incomeIds, allocationIds).value;
    var preview := PreviewMonth(s, now, req, q).value;
    PreparedRowsAreGood(s, preview.key, now, req, q);
    forall i | i in s'.incomes && s'.incomes[i].month == m
      ensures i in s.incomes && s.incomes[i].month == m
    {
      if i in incomeIds {
        var k := KeyedRows(incomeIds, preview.rows.incomes, i);
      }
    }
    forall a | a in s'.allocations && s'.allocations[a].month == m
      ensures a in s.allocations && s.allocations[a].month == m
    {
      if a in allocationIds {
        var k := KeyedRows(allocationIds, preview.rows.allocations, a);
      }
    }
  }

  lemma ReconcileElsewhere(s: Ledger, m': MonthKey, counted: int, note: Option<string>, today: string, now: int,
                           envelope: Option<Id>, category: Option<Id>, newEnvelope: Id, id: Id, m: MonthKey)
    requires Forest(s.transactions, s.links) && ClosedIn(s, m) && m' in s.months && m' != m
    requires newEnvelope !in s.allocations && id !in s.transactions
    requires envelope.Some? ==> ReconciliationEnvelope(s, m', envelope.value)
    requires category.Some? ==> category.value in s.categories
    requires Reconcile(s, m', counted, note, today, now, envelope, category, newEnvelope, id).Success?
    ensures SameBooks(s, Reconcile(s, m', counted, note, today, now, envelope, category, newEnvelope, id).value, m)
  {
  }

  // ----- Settings -----

  predicate ChangesSettings(op: Op) {
    op.OpChangeCategories? || op.OpChangeTemplates?
  }

  /** What an envelope refers to in the settings survives the step. */
  ghost predicate KeepsRow(s: Ledger, op: Op, a: Id)
    requires a in s.allocations
  {
    match op
    case OpChangeCategories(categories) =>
      ChangeCategories(s, categories).Success? ==> forall c | c in s.allocations[a].defaults :: c in categories
    case OpChangeTemplates(templates, _) =>
      s.allocations[a].template.Some? ==> s.allocations[a].template.value in templates
    case _ => true
  }

  /** The step deletes a template or a category that an envelope of the month refers to. */
  ghost function Reaches(m: MonthKey): StepKind {
    (s: Ledger, op: Op) => exists a | a in s.allocations && s.allocations[a].month == m :: !KeepsRow(s, op, a)
  }

  lemma {:induction false} KeptIsAllIff(ids: seq<Id>, alive: set<Id>)
    ensures |Kept(ids, alive)| <= |ids|
    ensures |Kept(ids, alive)| == |ids| <==> forall c | c in ids :: c in alive
    ensures |Kept(ids, alive)| == |ids| <==> Kept(ids, alive) == ids
  {
    if ids != [] {
      var n := |ids| - 1;
      KeptIsAllIff(ids[..n], alive);
      assert ids == ids[..n] + [ids[n]];
      assert forall c :: c in ids <==> c in ids[..n] || c == ids[n];
    }
  }

  /** Deleting a template leaves an envelope row alone exactly when the row does not refer to it. */
  lemma TemplateDeletionReachesClosedMonths(s: Ledger, templates: map<Id, AllocationTemplate>,
                                            incomes: map<Id, IncomeTemplate>, a: Id)
    requires a in s.allocations
    ensures var x, y := s.allocations[a], ChangeTemplates(s, templates, incomes).value.allocations[a];
      && Faded(x, y) && y.defaults == x.defaults
      && (y == x <==> (x.template.Some? ==> x.template.value in templates))
  {
  }

  /** Deleting a category leaves an envelope row alone exactly when the category is none of its defaults. */
  lemma CategoryDeletionReachesClosedMonths(s: Ledger, categories: map<Id, Category>, a: Id)
    requires a in s.allocations && ChangeCategories(s, categories).Success?
    ensures var x, y := s.allocations[a], ChangeCategories(s, categories).value.allocations[a];
      && Faded(x, y) && y.template == x.template
      && (y == x <==> forall c | c in x.defaults :: c in categories)
  {
    KeptIsAllIff(s.allocations[a].defaults, categories.Keys);
  }

  lemma SettingsLeaveEntries(s: Ledger, op: Op, m: MonthKey)
    requires Sound(s) && Ready(s, op) && ChangesSettings(op) && m in s.months
    ensures SameEntries(s, Next(s, op), m) && Next(s, op).allocations.Keys == s.allocations.Keys
  {
    if op.OpChangeTemplates? {
      SettingsApart(s, ChangeTemplates(s, op.templates, op.incomeTemplates).value, m);
    } else if ChangeCategories(s, op.categories).Success? {
      SettingsApart(s, ChangeCategories(s, op.categories).value, m);
    }
  }

  lemma SettingsApart(s: Ledger, s': Ledger, m: MonthKey)
    requires m in s.months && s'.months == s.months && s'.incomes == s.incomes
    requires s'.transactions == s.transactions && s'.links == s.links
    ensures SameEntries(s, s', m)
  {
  }

  lemma SettingsRow(s: Ledger, op: Op, a: Id)
    requires Sound(s) && Ready(s, op) && ChangesSettings(op) && a in s.allocations && a in Next(s, op).allocations
    ensures var x, y := s.allocations[a], Next(s, op).allocations[a];
      Faded(x, y) && (y == x <==> KeepsRow(s, op, a))
  {
    if op.OpChangeTemplates? {
      TemplateDeletionReachesClosedMonths(s, op.templates, op.incomeTemplates, a);
    } else if ChangeCategories(s, op.categories).Success? {
      CategoryDeletionReachesClosedMonths(s, op.categories, a);
    }
  }

  lemma SettingsElsewhere(s: Ledger, op: Op, m: MonthKey)
    requires Sound(s) && Ready(s, op) && ChangesSettings(op) && m in s.months
    ensures FadedBooks(s, Next(s, op), m)
    ensures SameBooks(s, Next(s, op), m) <==> !Reaches(m)(s, op)
  {
    SettingsLeaveEntries(s, op, m);
    var s' := Next(s, op);
    forall a | a in s.allocations
      ensures Faded(s.allocations[a], s'.allocations[a])
      ensures s'.allocations[a] == s.allocations[a] <==> KeepsRow(s, op, a)
    {
      SettingsRow(s, op, a);
    }
    FadedSettings(s, op, s', m);
  }

  lemma FadedSettings(s: Ledger, op: Op, s': Ledger, m: MonthKey)
    requires SameEntries(s, s', m) && s'.allocations.Keys == s.allocations.Keys
    requires forall a | a in s.allocations ::
      Faded(s.allocations[a], s'.allocations[a]) && (s'.allocations[a] == s.allocations[a] <==> KeepsRow(s, op, a))
    ensures FadedBooks(s, s', m) && (SameBooks(s, s', m) <==> !Reaches(m)(s, op))
  {
  }

  // ----- One write elsewhere -----

  lemma OtherMonthWritten(s: Ledger, k: MonthKey, x: Month, m: MonthKey)
    requires m in s.months && k != m
    ensures SameBooks(s, s.(months := s.months[k := x]), m)
  {
  }

  lemma OtherItemWritten(s: Ledger, id: Id, x: IncomeItem, delta: int, m: MonthKey)
    requires m in s.months && x.month in s.months && x.month != m
    requires id in s.incomes ==> s.incomes[id].month != m
    ensures SameBooks(s, AddWallet(s.(incomes := s.incomes[id := x]), x.month, delta), m)
  {
  }

  lemma OtherItemDropped(s: Ledger, id: Id, delta: int, m: MonthKey)
    requires m in s.months && id in s.incomes && s.incomes[id].month in s.months && s.incomes[id].month != m
    ensures SameBooks(s, AddWallet(s.(incomes := Drop(s.incomes, {id})), s.incomes[id].month, delta), m)
  {
  }

  lemma OtherEnvelopeWritten(s: Ledger, id: Id, x: Allocation, m: MonthKey)
    requires m in s.months && x.month != m && (id in s.allocations ==> s.allocations[id].month != m)
    ensures SameBooks(s, s.(allocations := s.allocations[id := x]), m)
  {
  }

  lemma OtherRowWritten(s: Ledger, id: Id, x: Transaction, delta: int, m: MonthKey)
    requires m in s.months && x.month in s.months && x.month != m
    requires id in s.transactions ==> s.transactions[id].month != m
    ensures SameBooks(s, AddWallet(s.(transactions := s.transactions[id := x]), x.month, delta), m)
  {
  }

  lemma WriteElsewhere(s: Ledger, op: Op, m: MonthKey)
    requires Sound(s) && Ready(s, op) && ClosedIn(s, m) && (op.OpCreateTransaction? || op.OpUpdateTransaction?)
    requires Attempt(s, op).Success?
    ensures SameBooks(s, Next(s, op), m)
  {
    match op
    case OpCreateTransaction(key, input, today, id) =>
      var x := CheckTransaction(s, FindOpenMonth(s, key).value, input, today).value;
      OtherRowWritten(s, id, x, -x.amount, m);
    case OpUpdateTransaction(id, patch) =>
      var x := s.transactions[id];
      var y := PatchTransaction(s, x, patch).value;
      OtherRowWritten(s, id, y,
                      if x.parent.None? && !HasChildren(s.links, id) then EditDelta(x.kind, x.amount, y.amount)
                                else 0, m);
  }

  lemma RowStepElsewhere(s: Ledger, op: Op, m: MonthKey)
    requires Sound(s) && Ready(s, op) && ClosedIn(s, m) && ChangesRows(op)
    ensures SameBooks(s, Next(s, op), m)
  {
    if Attempt(s, op).Success? {
      if op.OpCreateTransaction? || op.OpUpdateTransaction? {
        WriteElsewhere(s, op, m);
      } else if op.OpDeleteTransaction? {
        DeleteTransactionElsewhere(s, op.id, m);
      } else if op.OpSplitTransaction? {
        SplitElsewhere(s, op.id, op.rows, op.ids, m);
      } else {
        BalanceStepElsewhere(s, op, m);
      }
    }
  }

  lemma BalanceStepElsewhere(s: Ledger, op: Op, m: MonthKey)
    requires Sound(s) && Ready(s, op) && ClosedIn(s, m) && op.OpBalanceUpdate? && Attempt(s, op).Success?
    ensures SameBooks(s, Next(s, op), m)
  {
    var k := FindOpenMonth(s, op.key).value;
    if op.counted != s.months[k].wallet {
      ReconcileElsewhere(s, k, op.counted, op.note, op.today, op.now, op.envelope, op.category, op.newEnvelope,
                         op.id, m);
    }
  }

  lemma UpdateMonthElsewhere(s: Ledger, key: string, opening: Option<int>, wallet: Option<int>, m: MonthKey)
    requires ClosedIn(s, m) && UpdateMonth(s, key, opening, wallet).Success?
    ensures SameBooks(s, UpdateMonth(s, key, opening, wallet).value, m)
  {
    var k := FindOpenMonth(s, key).value;
    OtherMonthWritten(s, k, s.months[k].(opening := opening.GetOr(s.months[k].opening),
                                         wallet := wallet.GetOr(s.months[k].wallet)), m);
  }

  lemma CloseMonthElsewhere(s: Ledger, key: string, m: MonthKey)
    requires ClosedIn(s, m) && CloseMonth(s, key).Success?
    ensures SameBooks(s, CloseMonth(s, key).value, m)
  {
    var k := FindMonth(s, key).value;
    if k != m {
      OtherMonthWritten(s, k, s.months[k].(status := Closed, closedWallet := Some(s.months[k].wallet)), m);
    }
  }

  lemma ReopenMonthElsewhere(s: Ledger, key: string, m: MonthKey)
    requires ClosedIn(s, m) && ReopenMonth(s, key).Success? && FindMonth(s, key).value != m
    ensures SameBooks(s, ReopenMonth(s, key).value, m)
  {
    var k := FindMonth(s, key).value;
    OtherMonthWritten(s, k, s.months[k].(status := Open, closedWallet := None), m);
  }

  lemma StatusElsewhere(s: Ledger, op: Op, m: MonthKey)
    requires Sound(s) && Ready(s, op) && ClosedIn(s, m) && !Reopens(op, m)
    requires op.OpUpdateMonth? || op.OpCloseMonth? || op.OpReopenMonth?
    requires Attempt(s, op).Success?
    ensures SameBooks(s, Next(s, op), m)
  {
    if op.OpUpdateMonth? {
      UpdateMonthElsewhere(s, op.key, op.opening, op.wallet, m);
    } else if op.OpCloseMonth? {
      CloseMonthElsewhere(s, op.key, m);
    } else {
      ReopenMonthElsewhere(s, op.key, m);
    }
  }

  lemma MonthStepElsewhere(s: Ledger, op: Op, m: MonthKey)
    requires Sound(s) && Ready(s, op) && ClosedIn(s, m) && ChangesMonths(op)
    requires !Deletes(op, m) && !Reopens(op, m) && !ChangesSettings(op)
    ensures SameBooks(s, Next(s, op), m)
  {
    if Attempt(s, op).Success? {
      if op.OpCreateMonth? {
        CreateMonthElsewhere(s, op.req, op.answers, op.now, op.incomeIds, op.allocationIds, m);
      } else if !op.OpDeleteMonth? {
        StatusElsewhere(s, op, m);
      } else {
        DeleteMonthElsewhere(s, op.key, m);
      }
    }
  }

  lemma IncomeStepElsewhere(s: Ledger, op: Op, m: MonthKey)
    requires Sound(s) && Ready(s, op) && ClosedIn(s, m) && Attempt(s, op).Success?
    requires op.OpCreateIncome? || op.OpUpdateIncome? || op.OpDeleteIncome?
    ensures SameBooks(s, Next(s, op), m)
  {
    match op
    case OpCreateIncome(key, input, id) =>
      var x := CheckIncome(FindOpenMonth(s, key).value, input).value;
      OtherItemWritten(s, id, x, x.amount, m);
    case OpUpdateIncome(id, patch) =>
      var y := PatchIncome(s.incomes[id], patch).value;
      OtherItemWritten(s, id, y, y.amount - s.incomes[id].amount, m);
    case OpDeleteIncome(id) =>
      OtherItemDropped(s, id, -s.incomes[id].amount, m);
  }

  lemma EnvelopeStepElsewhere(s: Ledger, op: Op, m: MonthKey)
    requires Sound(s) && Ready(s, op) && ClosedIn(s, m) && Attempt(s, op).Success?
    requires op.OpCreateAllocation? || op.OpUpdateAllocation?
    ensures SameBooks(s, Next(s, op), m)
  {
    match op
    case OpCreateAllocation(key, input, now, id) =>
      var k := FindOpenMonth(s, key).value;
      OtherEnvelopeWritten(s, id, CheckAllocation(s, k, now, input).value, m);
    case OpUpdateAllocation(id, patch) =>
      OtherEnvelopeWritten(s, id, PatchAllocation(s.allocations[id], patch).value, m);
  }

  lemma EntryStepElsewhere(s: Ledger, op: Op, m: MonthKey)
    requires Sound(s) && Ready(s, op) && ClosedIn(s, m) && !ChangesRows(op) && !ChangesMonths(op)
    ensures SameBooks(s, Next(s, op), m)
  {
    if Attempt(s, op).Success? {
      if op.OpCreateAllocation? || op.OpUpdateAllocation? {
        EnvelopeStepElsewhere(s, op, m);
      } else if !op.OpDeleteAllocation? {
        IncomeStepElsewhere(s, op, m);
      } else {
        DeleteAllocationElsewhere(s, op.id, m);
      }
    }
  }

  /** A step, short of reopening or deleting a closed month, touches its books exactly when it deletes a
      template or a category that one of its envelopes refers to, and then only that reference. */
  lemma StepLeavesClosedMonth(s: Ledger, op: Op, m: MonthKey)
    requires Sound(s) && Ready(s, op) && ClosedIn(s, m) && !Deletes(op, m) && !Reopens(op, m)
    ensures FadedBooks(s, Next(s, op), m)
    ensures SameBooks(s, Next(s, op), m) <==> !Reaches(m)(s, op)
    ensures !ChangesSettings(op) ==> SameBooks(s, Next(s, op), m)
  {
    if ChangesSettings(op) {
      SettingsElsewhere(s, op, m);
    } else {
      OtherStepElsewhere(s, op, m);
      assert FadedBooks(s, Next(s, op), m);
    }
  }

  lemma OtherStepElsewhere(s: Ledger, op: Op, m: MonthKey)
    requires Sound(s) && Ready(s, op) && ClosedIn(s, m) && !Deletes(op, m) && !Reopens(op, m)
    requires !ChangesSettings(op)
    ensures SameBooks(s, Next(s, op), m)
  {
    if ChangesRows(op) {
      RowStepElsewhere(s, op, m);
    } else if ChangesMonths(op) {
      MonthStepElsewhere(s, op, m);
    } else {
      EntryStepElsewhere(s, op, m);
    }
  }

  lemma {:induction false} OnlySettingsReach(s: Ledger, ops: seq<Op>, m: MonthKey)
    requires forall op | op in ops :: !ChangesSettings(op)
    ensures Never(Reaches(m), s, ops)
    decreases |ops|
  {
    if ops != [] && GoodTemplates(s) && Ready(s, ops[0]) {
      assert ops[0] in ops;
      OnlySettingsReach(Next(s, ops[0]), ops[1..], m);
    }
  }

  /** From closing until reopening or deletion, whatever runs in between: the books are the same exactly when
      no setting was deleted that an envelope of the month referred to. */
  lemma {:induction false} ClosedMonthIsFrozen(s: Ledger, ops: seq<Op>, s': Ledger, m: MonthKey)
    requires Sound(s) && Run(s, ops, s') && ClosedIn(s, m)
    requires forall op | op in ops :: !Deletes(op, m) && !Reopens(op, m)
    ensures FadedBooks(s, s', m)
    ensures SameBooks(s, s', m) <==> Never(Reaches(m), s, ops)
    ensures (forall op | op in ops :: !ChangesSettings(op)) ==> SameBooks(s, s', m)
    ensures s'.months[m].closedWallet == Some(s'.months[m].wallet)
    decreases |ops|
  {
    if forall op | op in ops :: !ChangesSettings(op) {
      OnlySettingsReach(s, ops, m);
    }
    if ops == [] {
      assert SameBooks(s, s, m);
    } else {
      assert ops[0] in ops;
      StepLeavesClosedMonth(s, ops[0], m);
      StepKeepsSound(s, ops[0]);
      ClosedMonthIsFrozen(Next(s, ops[0]), ops[1..], s', m);
      FadedBooksTransitive(s, Next(s, ops[0]), s', m);
    }
  }

  /** In every reachable ledger a month is closed exactly when it holds a snapshot, and then the snapshot is
      its wallet. */
  lemma ReachableSnapshots(s: Ledger, ops: seq<Op>, s': Ledger, m: MonthKey)
    requires Sound(s) && Run(s, ops, s') && m in s'.months
    ensures s'.months[m].status == Closed <==> s'.months[m].closedWallet.Some?
    ensures s'.months[m].closedWallet.Some? ==> s'.months[m].closedWallet.value == s'.months[m].wallet
  {
    RunKeepsSound(s, ops, s');
  }

  // ----- The figures of a frozen month -----

  lemma SameEffects(s: Ledger, s': Ledger, m: MonthKey, t: Id)
    requires SameRows(s.transactions, s.links, s'.transactions, s'.links, m)
    requires Forest(s.transactions, s.links) && Forest(s'.transactions, s'.links)
    ensures EffectOf(s.transactions, s.links, m)(t) == EffectOf(s'.transactions, s'.links, m)(t)
    ensures t !in s.transactions || t !in s'.transactions ==> EffectOf(s.transactions, s.links, m)(t) == 0
  {
    EffectIs(s.transactions, s.links, m, t);
    EffectIs(s'.transactions, s'.links, m, t);
    if t in s.transactions && s.transactions[t].month == m {
      if c :| c in s.links && s.links[c] == t {
        assert Linked(s.transactions[c], t, s.transactions[t]);
        assert s'.links[c] == t;
      }
      if c :| c in s'.links && s'.links[c] == t {
        assert Linked(s'.transactions[c], t, s'.transactions[t]);
        assert s.links[c] == t;
      }
    }
  }

  lemma SameNet(s: Ledger, s': Ledger, m: MonthKey)
    requires SameRows(s.transactions, s.links, s'.transactions, s'.links, m)
    requires Forest(s.transactions, s.links) && Forest(s'.transactions, s'.links)
    ensures Net(s'.transactions, s'.links, m) == Net(s.transactions, s.links, m)
  {
    var f, f' := EffectOf(s.transactions, s.links, m), EffectOf(s'.transactions, s'.links, m);
    forall t
      ensures f(t) == f'(t)
      ensures t !in s.transactions || t !in s'.transactions ==> f(t) == 0
    {
      SameEffects(s, s', m, t);
    }
    SumIgnoresZeros(s.transactions.Keys, s'.transactions.Keys, f, f');
  }

  /** Equal entries give equal figures. */
  lemma SameFigures(s: Ledger, s': Ledger, m: MonthKey)
    requires SameEntries(s, s', m) && Forest(s.transactions, s.links) && Forest(s'.transactions, s'.links)
    ensures Expected(s', m) == Expected(s, m) && Variance(s', m) == Variance(s, m)
  {
    SameNet(s, s', m);
    SameItemTotals(s.incomes, s'.incomes, m);
    NetIs(s.transactions, s.links, m);
    NetIs(s'.transactions, s'.links, m);
  }

  lemma SameItemTotals(incomes: Incomes, incomes': Incomes, m: MonthKey)
    requires SameItems(incomes, incomes', m)
    ensures ItemTotal(incomes', m) == ItemTotal(incomes, m)
  {
    var f, f' := ItemOf(incomes, m), ItemOf(incomes', m);
    forall i
      ensures f(i) == f'(i)
      ensures i !in incomes || i !in incomes' ==> f(i) == 0
    {
    }
    SumIgnoresZeros(incomes.Keys, incomes'.Keys, f, f');
  }

  /** A closed month keeps its figures too: balance, expected balance and variance. */
  lemma ClosedMonthKeepsFigures(s: Ledger, ops: seq<Op>, s': Ledger, m: MonthKey)
    requires Sound(s) && Run(s, ops, s') && ClosedIn(s, m)
    requires forall op | op in ops :: !Deletes(op, m) && !Reopens(op, m)
    ensures m in s'.months && s'.months[m] == s.months[m]
    ensures Expected(s', m) == Expected(s, m) && Variance(s', m) == Variance(s, m)
  {
    ClosedMonthIsFrozen(s, ops, s', m);
    RunKeepsSound(s, ops, s');
    SameFigures(s, s', m);
  }
}
