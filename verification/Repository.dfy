/** The wallet repository: the tables as fields, each operation reading and writing them step by step.
    Every method is specified by the operation of LedgerOps with the same name. */
module WalletRepository {
  import opened Wrappers
  import opened Text
  import opened Validation
  import opened Sums
  import opened Ledger
  import opened MonthRows
  import opened LedgerRuns
  import opened Summary
  import Ops = LedgerOps
  import Preparation

  /** The outcome and the new tables are those of the specification; a failure changes nothing. */
  ghost predicate Follows(spec: Result<Ledger, Error>, before: Ledger, after: Ledger, r: Outcome<Error>) {
    match spec
    case Success(s) => r.Pass? && after == s
    case Failure(e) => r == Fail(e) && after == before
  }

  class Repository {
    var months: map<MonthKey, Month>
    var incomes: map<Id, IncomeItem>
    var allocations: map<Id, Allocation>
    var transactions: map<Id, Transaction>
    var links: map<Id, Id>
    var categories: map<Id, Category>
    var templates: map<Id, AllocationTemplate>
    var incomeTemplates: map<Id, IncomeTemplate>

    function State(): Ledger
      reads this
    {
      Ledger(months, incomes, allocations, transactions, links, categories, templates, incomeTemplates)
    }

    /** Empty tables but for the two categories the schema seeds. */
    constructor ()
      ensures Sound(State()) && months == map[] && transactions == map[]
    {
      months, incomes, allocations, transactions, links := map[], map[], map[], map[], map[];
      categories := map[UNSORTED_CATEGORY := Category("Unsorted", Some("unsorted"), true),
                        RECONCILIATION_CATEGORY :=
                          Category(RECONCILIATION_CATEGORY_NAME, Some(RECONCILIATION_SYSTEM_KEY), true)];
      templates, incomeTemplates := map[], map[];
    }

    // ----- Months -----

    /** A new month and its rows, under identifiers drawn from `newId`. The ghost result names the step taken. */
    method CreateMonth(req: MonthRequest, now: int, templateListing: seq<Id>, incomeListing: seq<Id>, newId: nat -> Id)
      returns (r: Outcome<Error>, ghost op: Op)
      requires Sound(State()) && IsListing(State(), templateListing) && IsIncomeListing(State(), incomeListing)
      requires NewIds(newId, incomes.Keys + allocations.Keys)
      modifies this`months, this`incomes, this`allocations
      ensures op.OpCreateMonth? && op.req == req && op.now == now && Ready(old(State()), op)
      ensures Follows(Attempt(old(State()), op), old(State()), State(), r)
      ensures Sound(State())
    {
      ghost var s := State();
      var preview, q := Preparation.Preview(State(), now, req, templateListing, incomeListing);
      if preview.Failure? {
        op := OpCreateMonth(req, q, now, [], []);
        return Fail(preview.error), op;
      }
      var p := preview.value;
      var incomeIds := Drawn(newId, |p.rows.incomes|);
      var allocationIds := Drawn(newId, |p.rows.allocations|);
      op := OpCreateMonth(req, q, now, incomeIds, allocationIds);
      DrawnAreNew(newId, s.incomes.Keys + s.allocations.Keys, |p.rows.incomes|, s.incomes);
      DrawnAreNew(newId, s.incomes.Keys + s.allocations.Keys, |p.rows.allocations|, s.allocations);
      InsertMonth(p, incomeIds, allocationIds);
      StepKeepsSound(s, op);
      r := Pass;
    }

    method InsertMonth(p: Preview, incomeIds: seq<Id>, allocationIds: seq<Id>)
      requires |incomeIds| == |p.rows.incomes| && |allocationIds| == |p.rows.allocations|
      modifies this`months, this`incomes, this`allocations
      ensures State() == old(State()).(months := old(months)[p.key := p.month],
                                       incomes := old(incomes) + Keyed(incomeIds, p.rows.incomes),
                                       allocations := old(allocations) + Keyed(allocationIds, p.rows.allocations))
    {
      months := months[p.key := p.month];
      InsertIncomes(incomeIds, p.rows.incomes);
      InsertAllocations(allocationIds, p.rows.allocations);
    }

    method InsertIncomes(ids: seq<Id>, rows: seq<IncomeItem>)
      requires |ids| == |rows|
      modifies this`incomes
      ensures incomes == old(incomes) + Keyed(ids, rows)
    {
      for i := 0 to |rows|
        invariant incomes == old(incomes) + Keyed(ids[..i], rows[..i])
      {
        KeyedOneMore(ids, rows, i);
        AddOneMore(old(incomes), Keyed(ids[..i], rows[..i]), ids[i], rows[i]);
        incomes := incomes[ids[i] := rows[i]];
      }
      assert ids[..|rows|] == ids && rows[..|rows|] == rows;
    }

    method InsertAllocations(ids: seq<Id>, rows: seq<Allocation>)
      requires |ids| == |rows|
      modifies this`allocations
      ensures allocations == old(allocations) + Keyed(ids, rows)
    {
      for i := 0 to |rows|
        invariant allocations == old(allocations) + Keyed(ids[..i], rows[..i])
      {
        KeyedOneMore(ids, rows, i);
        AddOneMore(old(allocations), Keyed(ids[..i], rows[..i]), ids[i], rows[i]);
        allocations := allocations[ids[i] := rows[i]];
      }
      assert ids[..|rows|] == ids && rows[..|rows|] == rows;
    }

    method UpdateMonth(key: string, opening: Option<int>, wallet: Option<int>) returns (r: Outcome<Error>)
      requires Sound(State())
      modifies this`months
      ensures Follows(Ops.UpdateMonth(old(State()), key, opening, wallet), old(State()), State(), r)
      ensures Sound(State())
    {
      var found := Ops.FindOpenMonth(State(), key);
      if found.Failure? { return Fail(found.error); }
      var current := months[found.value];
      if opening.Some? { current := current.(opening := opening.value); }
      if wallet.Some? { current := current.(wallet := wallet.value); }
      ghost var s := State();
      months := months[found.value := current];
      UpdateMonthKeeps(s, key, opening, wallet);
      r := Pass;
    }

    method CloseMonth(key: string) returns (r: Outcome<Error>)
      requires Sound(State())
      modifies this`months
      ensures Follows(Ops.CloseMonth(old(State()), key), old(State()), State(), r)
      ensures Sound(State())
    {
      var found := Ops.FindMonth(State(), key);
      if found.Failure? { return Fail(found.error); }
      ghost var s := State();
      CloseMonthKeeps(s, key);
      r := Pass;
      var month := months[found.value];
      if month.status == Closed { return; }
      months := months[found.value := month.(status := Closed, closedWallet := Some(month.wallet))];
    }

    method ReopenMonth(key: string) returns (r: Outcome<Error>)
      requires Sound(State())
      modifies this`months
      ensures Follows(Ops.ReopenMonth(old(State()), key), old(State()), State(), r)
      ensures Sound(State())
    {
      var found := Ops.FindMonth(State(), key);
      if found.Failure? { return Fail(found.error); }
      ghost var s := State();
      ReopenMonthKeeps(s, key);
      r := Pass;
      var month := months[found.value];
      if month.status == Open { return; }
      months := months[found.value := month.(status := Open, closedWallet := None)];
    }

    /** The schema deletes the month's rows in every table. */
    method DeleteMonth(key: string) returns (r: Outcome<Error>)
      requires Sound(State())
      modifies this
      ensures Follows(Ops.DeleteMonth(old(State()), key), old(State()), State(), r)
      ensures Sound(State())
    {
      ghost var s := State();
      var found := Ops.FindMonth(State(), key);
      if found.Failure? { return Fail(found.error); }
      DeleteRows(Ops.RowsOfMonth(State(), found.value));
      DropMonth(found.value);
      DeleteMonthKeeps(s, key);
      r := Pass;
    }

    method DropMonth(m: MonthKey)
      modifies this`months, this`incomes, this`allocations
      ensures State() == old(State()).(
        months := Drop(old(months), {m}),
        incomes := Drop(old(incomes), set i | i in old(incomes) && old(incomes)[i].month == m),
        allocations := Drop(old(allocations), set a | a in old(allocations) && old(allocations)[a].month == m))
    {
      months := Drop(months, {m});
      incomes := Drop(incomes, set i | i in incomes && incomes[i].month == m);
      allocations := Drop(allocations, set a | a in allocations && allocations[a].month == m);
    }

    // ----- Envelopes -----

    method CreateAllocation(key: string, input: AllocationInput, now: int, id: Id) returns (r: Outcome<Error>)
      requires Sound(State()) && id !in allocations
      modifies this`allocations
      ensures Follows(Ops.CreateAllocation(old(State()), key, input, now, id), old(State()), State(), r)
      ensures Sound(State())
    {
      ghost var s := State();
      var found := Ops.FindOpenMonth(State(), key);
      if found.Failure? { return Fail(found.error); }
      var row := Preparation.SanitizeAllocation(State(), found.value, now, input);
      if row.Failure? { return Fail(row.error); }
      allocations := allocations[id := row.value];
      CreateAllocationKeeps(s, key, input, now, id);
      r := Pass;
    }

    method PatchedAllocation(a: Allocation, patch: Ops.AllocationPatch) returns (r: Result<Allocation, Error>)
      ensures r == Ops.PatchAllocation(a, patch)
    {
      var current := a;
      if patch.name.Some? {
        var name :- RequireName(patch.name.value);
        current := current.(name := name);
      }
      if patch.budget.Some? {
        if patch.budget.value < 0 { return Failure(AmountNegative); }
        current := current.(budget := patch.budget.value);
      }
      if patch.kind.Some? { current := current.(kind := NormalizeAllocationType(patch.kind.value)); }
      if patch.carryForward.Some? { current := current.(carryForward := patch.carryForward.value); }
      if patch.sortOrder.Some? { current := current.(sortOrder := patch.sortOrder.value); }
      if patch.active.Some? { current := current.(active := patch.active.value); }
      r := Success(current);
    }

    method UpdateAllocation(id: Id, patch: Ops.AllocationPatch) returns (r: Outcome<Error>)
      requires Sound(State())
      modifies this`allocations
      ensures Follows(Ops.UpdateAllocation(old(State()), id, patch), old(State()), State(), r)
      ensures Sound(State())
    {
      ghost var s := State();
      if id !in allocations { return Fail(NotFound); }
      var isOpen := Ops.EnsureOpen(State(), allocations[id].month);
      if isOpen.Fail? { return isOpen; }
      var current := PatchedAllocation(allocations[id], patch);
      if current.Failure? { return Fail(current.error); }
      allocations := allocations[id := current.value];
      UpdateAllocationKeeps(s, id, patch);
      r := Pass;
    }

    /** The schema deletes the envelope's transactions; nothing adjusts the wallet. */
    method DeleteAllocation(id: Id) returns (r: Outcome<Error>)
      requires Sound(State())
      modifies this`allocations, this`transactions, this`links
      ensures Follows(Ops.DeleteAllocation(old(State()), id), old(State()), State(), r)
      ensures Sound(State())
    {
      ghost var s := State();
      if id !in allocations { return Fail(NotFound); }
      var isOpen := Ops.EnsureOpen(State(), allocations[id].month);
      if isOpen.Fail? { return isOpen; }
      DeleteRows(set t | t in transactions && transactions[t].allocation == id);
      allocations := Drop(allocations, {id});
      DeleteAllocationKeeps(s, id);
      r := Pass;
    }

    // ----- Income -----

    method AddToWallet(m: MonthKey, delta: int)
      requires m in months
      modifies this`months
      ensures State() == AddWallet(old(State()), m, delta)
    {
      if delta == 0 {
        assert months[m := months[m].(wallet := months[m].wallet + delta)] == months;
        return;
      }
      months := months[m := months[m].(wallet := months[m].wallet + delta)];
    }

    method CreateIncome(key: string, input: IncomeInput, id: Id) returns (r: Outcome<Error>)
      requires Sound(State()) && id !in incomes
      modifies this`months, this`incomes
      ensures Follows(Ops.CreateIncome(old(State()), key, input, id), old(State()), State(), r)
      ensures Sound(State())
    {
      ghost var s := State();
      var found := Ops.FindOpenMonth(State(), key);
      if found.Failure? { return Fail(found.error); }
      var checked := CheckIncome(found.value, input);
      if checked.Failure? { return Fail(checked.error); }
      incomes := incomes[id := checked.value];
      AddToWallet(found.value, input.amount);
      CreateIncomeKeeps(s, key, input, id);
      r := Pass;
    }

    /** The patch is applied field by field; the first bad field decides the error. */
    method PatchedIncome(x: IncomeItem, patch: Ops.IncomePatch) returns (r: Result<IncomeItem, Error>)
      ensures r == Ops.PatchIncome(x, patch)
    {
      var current := x;
      if patch.name.Some? {
        var name :- RequireName(patch.name.value);
        current := current.(name := name);
      }
      if patch.amount.Some? {
        if patch.amount.value < 0 { return Failure(AmountNegative); }
        current := current.(amount := patch.amount.value);
      }
      if patch.received.Some? {
        var received :- ParseOptionalDate(patch.received.value);
        current := current.(received := received);
      }
      if patch.appliesTo.Some? {
        var appliesTo :- ParseMonth(patch.appliesTo.value);
        current := current.(appliesTo := appliesTo);
      }
      if patch.notes.Some? { current := current.(notes := OptionalText(patch.notes.value)); }
      r := Success(current);
    }

    method UpdateIncome(id: Id, patch: Ops.IncomePatch) returns (r: Outcome<Error>)
      requires Sound(State())
      modifies this`months, this`incomes
      ensures Follows(Ops.UpdateIncome(old(State()), id, patch), old(State()), State(), r)
      ensures Sound(State())
    {
      ghost var s := State();
      if id !in incomes { return Fail(NotFound); }
      var previous := incomes[id];
      var isOpen := Ops.EnsureOpen(State(), previous.month);
      if isOpen.Fail? { return isOpen; }
      var current := PatchedIncome(previous, patch);
      if current.Failure? { return Fail(current.error); }
      incomes := incomes[id := current.value];
      AddToWallet(previous.month, current.value.amount - previous.amount);
      assert Ops.UpdateIncome(s, id, patch) == Success(State());
      UpdateIncomeKeeps(s, id, patch);
      r := Pass;
    }

    method DeleteIncome(id: Id) returns (r: Outcome<Error>)
      requires Sound(State())
      modifies this`months, this`incomes
      ensures Follows(Ops.DeleteIncome(old(State()), id), old(State()), State(), r)
      ensures Sound(State())
    {
      ghost var s := State();
      if id !in incomes { return Fail(NotFound); }
      var item := incomes[id];
      var isOpen := Ops.EnsureOpen(State(), item.month);
      if isOpen.Fail? { return isOpen; }
      incomes := Drop(incomes, {id});
      AddToWallet(item.month, -item.amount);
      DeleteIncomeKeeps(s, id);
      r := Pass;
    }

    // ----- Transactions -----

    method NewTransaction(m: MonthKey, input: Ops.TransactionInput, today: string)
      returns (r: Result<Transaction, Error>)
      ensures r == Ops.CheckTransaction(State(), m, input, today)
    {
      var category := UNSORTED_CATEGORY;
      :- Ops.EnsureEnvelope(State(), input.allocation, m);
      if input.category.Some? { category := input.category.value; }
      :- Ops.EnsureCategory(State(), category);
      if input.amount <= 0 { return Failure(AmountNotPositive); }
      var text := input.date;
      if Trim(text) == [] { text := today; }
      var date :- ParseDate(text);
      r := Success(Transaction(m, input.allocation.value, category, date, input.amount, OptionalText(input.note),
                               input.rounded, Spend, Manual, None));
    }

    method CreateTransaction(key: string, input: Ops.TransactionInput, today: string, id: Id)
      returns (r: Outcome<Error>)
      requires Sound(State()) && id !in transactions
      modifies this`months, this`transactions
      ensures Follows(Ops.CreateTransaction(old(State()), key, input, today, id), old(State()), State(), r)
      ensures Sound(State())
    {
      ghost var s := State();
      var found := Ops.FindOpenMonth(State(), key);
      if found.Failure? { return Fail(found.error); }
      var row := NewTransaction(found.value, input, today);
      if row.Failure? { return Fail(row.error); }
      InsertTransaction(found.value, id, row.value);
      CreatedTransactionIs(s, key, input, today, id, found.value, row.value);
      r := Pass;
    }

    /** The row and its effect on the wallet, in one transaction. */
    method InsertTransaction(m: MonthKey, id: Id, row: Transaction)
      requires m in months
      modifies this`months, this`transactions
      ensures State() == AddWallet(old(State()).(transactions := old(transactions)[id := row]), m, -row.amount)
    {
      transactions := transactions[id := row];
      AddToWallet(m, -row.amount);
    }

    method RefiledTransaction(x: Transaction, patch: Ops.TransactionPatch) returns (r: Result<Transaction, Error>)
      ensures r == Ops.Refile(State(), x, patch)
    {
      var current := x;
      if current.parent.Some? && patch.amount.Some? { return Failure(ChildAmountFrozen); }
      if patch.allocation.Some? {
        :- Ops.EnsureEnvelope(State(), patch.allocation.value, current.month);
        current := current.(allocation := patch.allocation.value.value);
      }
      if patch.category.Some? {
        if patch.category.value.None? { return Failure(CategoryRequired); }
        :- Ops.EnsureCategory(State(), patch.category.value.value);
        current := current.(category := patch.category.value.value);
      }
      r := Success(current);
    }

    method PatchedTransaction(x: Transaction, patch: Ops.TransactionPatch) returns (r: Result<Transaction, Error>)
      ensures r == Ops.PatchTransaction(State(), x, patch)
    {
      var current :- RefiledTransaction(x, patch);
      if patch.date.Some? {
        var date :- ParseDate(patch.date.value);
        current := current.(date := date);
      }
      if patch.amount.Some? {
        if patch.amount.value <= 0 { return Failure(AmountNotPositive); }
        current := current.(amount := patch.amount.value);
      }
      if patch.note.Some? { current := current.(note := OptionalText(patch.note.value)); }
      if patch.rounded.Some? { current := current.(rounded := patch.rounded.value); }
      r := Success(current);
    }

    /** What an amount edit does to the wallet: nothing when the row belongs to a split. */
    method WalletEffect(id: Id, previous: Transaction, amount: int) returns (delta: int)
      ensures delta == if previous.parent.None? && !HasChildren(links, id)
                       then Ops.EditDelta(previous.kind, previous.amount, amount) else 0
    {
      var balanceRelevant := (previous.kind == Spend || previous.kind == Income) && previous.parent.None?;
      if balanceRelevant {
        balanceRelevant := !HasChildren(links, id);
      }
      delta := 0;
      if balanceRelevant {
        delta := Ops.EditDelta(previous.kind, previous.amount, amount);
      }
    }

    method UpdateTransaction(id: Id, patch: Ops.TransactionPatch) returns (r: Outcome<Error>)
      requires Sound(State())
      modifies this`months, this`transactions
      ensures Follows(Ops.UpdateTransaction(old(State()), id, patch), old(State()), State(), r)
      ensures Sound(State())
    {
      var s := State();
      if id !in transactions { return Fail(NotFound); }
      var previous := transactions[id];
      var isOpen := Ops.EnsureOpen(s, previous.month);
      if isOpen.Fail? { return isOpen; }
      var current := PatchedTransaction(previous, patch);
      if current.Failure? { return Fail(current.error); }
      var delta := WalletEffect(id, previous, current.value.amount);
      transactions := transactions[id := current.value];
      AddToWallet(previous.month, delta);
      UpdateTransactionKeeps(s, id, patch);
      r := Pass;
    }

    /** DELETE of one row, with the cascades of the schema. */
    method DeleteRow(id: Id)
      modifies this`transactions, this`links
      ensures State() == RemoveTransactions(old(State()), {id})
    {
      var kept := map t | t in transactions && t != id :: Orphaned(transactions[t], {id});
      assert kept == RemoveTransactions(State(), {id}).transactions;
      transactions := kept;
      links := Unlinked(links, {id});
    }

    /** The split rows below a parent, and what they add up to. */
    method SplitRows(id: Id) returns (childIDs: set<Id>, total: int)
      requires Forest(transactions, links)
      ensures childIDs == Children(links, id)
      ensures total == Ops.ChildrenTotal(transactions, links, id)
    {
      assert forall c | c in links :: c in transactions;
      childIDs, total := SplitRowsOf(transactions, links, id, Ops.AmountOf(transactions));
    }

    method DeleteTransaction(id: Id) returns (r: Outcome<Error>)
      requires Sound(State())
      modifies this`months, this`transactions, this`links
      ensures Follows(Ops.DeleteTransaction(old(State()), id), old(State()), State(), r)
      ensures Sound(State())
    {
      ghost var s := State();
      if id !in transactions { return Fail(NotFound); }
      var current := transactions[id];
      var isOpen := Ops.EnsureOpen(State(), current.month);
      if isOpen.Fail? { return isOpen; }
      if current.parent.Some? { return Fail(ChildNotDeletable); }
      var childIDs, balanceDelta := SplitRows(id);
      ChildrenIffAny(links, id);
      if childIDs == {} {
        balanceDelta := Ops.DeleteDelta(current.kind, current.amount);
      }
      DeleteRows(childIDs);
      DeleteRow(id);
      RemovingTwice(s, childIDs, {id});
      AddToWallet(current.month, balanceDelta);
      DeleteTransactionKeeps(s, id);
      r := Pass;
    }

    method DeleteRows(ids: set<Id>)
      modifies this`transactions, this`links
      ensures State() == RemoveTransactions(old(State()), ids)
    {
      ghost var s := State();
      RemovingNothing(s);
      var todo := ids;
      assert ids - todo == {};
      while todo != {}
        invariant todo <= ids
        invariant State() == RemoveTransactions(s, ids - todo)
        decreases |todo|
      {
        var c := Pick(todo);
        DeleteRow(c);
        RemovingTwice(s, ids - todo, {c});
        assert ids - todo + {c} == ids - (todo - {c});
        todo := todo - {c};
      }
    }

    /** The checked rows of a split and their running total. */
    method BuildChildren(id: Id, rows: seq<Ops.TransactionInput>)
      returns (children: Result<seq<Transaction>, Error>, total: int)
      requires id in transactions
      ensures children == Ops.CheckSplitRows(State(), id, rows)
      ensures children.Success? ==> total == Ops.Total(children.value)
    {
      var built: seq<Transaction>;
      built, total := [], 0;
      for i := 0 to |rows|
        invariant Ops.CheckSplitRows(State(), id, rows[..i]) == Success(built)
        invariant total == Ops.Total(built)
      {
        OneMoreChild(State(), id, rows, i, built);
        var child := Ops.CheckSplitRow(State(), id, rows[i]);
        if child.Failure? {
          FirstBadRow(State(), id, rows, i + 1);
          return Failure(child.error), total;
        }
        total := total + child.value.amount;
        built := built + [child.value];
      }
      assert rows[..|rows|] == rows;
      children := Success(built);
    }

    method InsertChildren(id: Id, ids: seq<Id>, children: seq<Transaction>)
      requires |ids| == |children|
      modifies this`transactions, this`links
      ensures transactions == old(transactions) + Keyed(ids, children)
      ensures links == old(links) + LinksTo(id, ids)
    {
      for i := 0 to |children|
        invariant transactions == old(transactions) + Keyed(ids[..i], children[..i])
        invariant links == old(links) + LinksTo(id, ids[..i])
      {
        KeyedOneMore(ids, children, i);
        AddOneMore(old(transactions), Keyed(ids[..i], children[..i]), ids[i], children[i]);
        LinksOneMore(id, ids, i);
        AddOneMore(old(links), LinksTo(id, ids[..i]), ids[i], id);
        transactions := transactions[ids[i] := children[i]];
        links := links[ids[i] := id];
      }
      assert ids[..|children|] == ids && children[..|children|] == children;
    }

    method SplitTransaction(id: Id, rows: seq<Ops.TransactionInput>, ids: seq<Id>) returns (r: Outcome<Error>)
      requires Sound(State()) && |ids| == |rows| && AllNew(ids, transactions)
      modifies this`transactions, this`links
      ensures Follows(Ops.SplitTransaction(old(State()), id, rows, ids), old(State()), State(), r)
      ensures Sound(State())
    {
      ghost var s := State();
      var guard := Ops.SplitGuard(State(), id, rows);
      if guard.Fail? { return guard; }
      var children, total := BuildChildren(id, rows);
      if children.Failure? { return Fail(children.error); }
      if total != transactions[id].amount { return Fail(SumMismatch); }
      InsertChildren(id, ids, children.value);
      assert LinksTo(id, ids) == map k | k in ids :: id;
      SplitTransactionKeeps(s, id, rows, ids);
      r := Pass;
    }

    // ----- Reconciliation -----

    /** The month's hidden envelope: inactive before active, then oldest. */
    method FindEnvelope(m: MonthKey) returns (pick: Option<Id>)
      ensures Ops.PicksEnvelope(State(), m, pick)
    {
      pick := None;
      var todo := allocations.Keys;
      while todo != {}
        invariant todo <= allocations.Keys
        invariant pick.None? ==>
          forall a | a in allocations && a !in todo :: !Ops.ReconciliationEnvelope(State(), m, a)
        invariant pick.Some? ==> Ops.ReconciliationEnvelope(State(), m, pick.value)
        invariant pick.Some? ==>
          forall b | b in allocations && b !in todo && Ops.ReconciliationEnvelope(State(), m, b) ::
            !Before(allocations[b], allocations[pick.value])
        decreases |todo|
      {
        var a := Pick(todo);
        todo := todo - {a};
        if Ops.ReconciliationEnvelope(State(), m, a)
           && (pick.None? || Before(allocations[a], allocations[pick.value])) {
          pick := Some(a);
        }
      }
    }

    /** The reconciliation category: by identifier, else by system key, else by name. */
    method FindCategory() returns (pick: Option<Id>)
      ensures Ops.PicksCategory(State(), pick)
    {
      if RECONCILIATION_CATEGORY in categories { return Some(RECONCILIATION_CATEGORY); }
      var named: Option<Id> := None;
      var todo := categories.Keys;
      while todo != {}
        invariant todo <= categories.Keys
        invariant forall c | c in categories && c !in todo :: !HasSystemKey(categories[c])
        invariant named.Some? ==> named.value in categories && HasName(categories[named.value])
        invariant named.None? ==> forall c | c in categories && c !in todo :: !HasName(categories[c])
        decreases |todo|
      {
        var c := Pick(todo);
        if HasSystemKey(categories[c]) { return Some(c); }
        if HasName(categories[c]) { named := Some(c); }
        todo := todo - {c};
      }
      pick := named;
    }

    /** createReconciliationTransaction and the new wallet, in one transaction: a refused renaming of
        the category undoes the rest. */
    method Reconcile(m: MonthKey, counted: int, note: Option<string>, today: string, now: int, newEnvelope: Id, id: Id)
      returns (r: Outcome<Error>, ghost envelope: Option<Id>, ghost category: Option<Id>)
      requires m in months
      modifies this`months, this`allocations, this`categories, this`transactions
      ensures Ops.PicksEnvelope(old(State()), m, envelope) && Ops.PicksCategory(old(State()), category)
      ensures Follows(Ops.Reconcile(old(State()), m, counted, note, today, now, envelope, category, newEnvelope, id),
                      old(State()), State(), r)
    {
      var foundEnvelope := FindEnvelope(m);
      var foundCategory := FindCategory();
      envelope, category := foundEnvelope, foundCategory;
      var claimedEnvelope := Ops.ClaimEnvelope(State(), m, foundEnvelope, now, newEnvelope);
      var claimedCategory := Ops.ClaimCategory(State(), foundCategory);
      if claimedCategory.Failure? { return Fail(claimedCategory.error), envelope, category; }
      var row := Ops.ReconciliationRow(m, claimedEnvelope.1, claimedCategory.value.1, counted - months[m].wallet,
                                       note, today);
      Commit(m, counted, claimedEnvelope.0, claimedCategory.value.0, id, row);
      r := Pass;
    }

    method Commit(m: MonthKey, counted: int, newAllocations: Allocations, newCategories: map<Id, Category>,
                  id: Id, row: Transaction)
      requires m in months
      modifies this`months, this`allocations, this`categories, this`transactions
      ensures State() == SetWallet(old(State()).(allocations := newAllocations, categories := newCategories,
                                                 transactions := old(transactions)[id := row]), m, counted)
    {
      allocations := newAllocations;
      categories := newCategories;
      transactions := transactions[id := row];
      months := months[m := months[m].(wallet := counted)];
    }

    /** The wallet becomes the counted figure; a row in the hidden envelope explains the difference, so
        that the variance stays what it was. The ghost result names the step taken. */
    method CreateBalanceUpdate(key: string, counted: int, note: Option<string>, today: string, now: int,
                               newEnvelope: Id, id: Id)
      returns (r: Result<Ops.BalanceUpdate, Error>, ghost op: Op)
      requires Sound(State()) && newEnvelope !in allocations && id !in transactions
      modifies this`months, this`allocations, this`categories, this`transactions
      ensures op.OpBalanceUpdate? && op.key == key && op.counted == counted && op.note == note
      ensures Ready(old(State()), op)
      ensures Follows(Attempt(old(State()), op), old(State()), State(), if r.Success? then Pass else Fail(r.error))
      ensures Sound(State())
      ensures r.Success? ==> Records(old(State()), State(), key, counted, note, r.value)
    {
      op := OpBalanceUpdate(key, counted, note, today, now, None, None, newEnvelope, id);
      var found := Ops.FindOpenMonth(State(), key);
      if found.Failure? {
        RefusedUpdateIs(State(), op);
        return Failure(found.error), op;
      }
      var m := found.value;
      var previous := months[m].wallet;
      var expected := ExpectedBalance(State(), m);
      var done;
      done, op := ReconcileUnlessEqual(key, m, counted, note, today, now, newEnvelope, id);
      r := if done.Fail? then Failure(done.error)
           else Success(Ops.BalanceUpdate(m, previous, counted, expected, counted - expected, OptionalText(note)));
    }

    method ReconcileUnlessEqual(key: string, m: MonthKey, counted: int, note: Option<string>, today: string, now: int,
                                newEnvelope: Id, id: Id)
      returns (r: Outcome<Error>, ghost op: Op)
      requires Sound(State()) && newEnvelope !in allocations && id !in transactions
      requires Ops.FindOpenMonth(State(), key) == Success(m)
      modifies this`months, this`allocations, this`categories, this`transactions
      ensures op.OpBalanceUpdate? && op.key == key && op.counted == counted && op.note == note
      ensures Ready(old(State()), op) && Follows(Attempt(old(State()), op), old(State()), State(), r)
      ensures Sound(State())
      ensures r.Pass? ==> m in months && months[m].wallet == counted
    {
      ghost var s := State();
      op := OpBalanceUpdate(key, counted, note, today, now, None, None, newEnvelope, id);
      r := Pass;
      if counted != months[m].wallet {
        ghost var envelope, category;
        r, envelope, category := Reconcile(m, counted, note, today, now, newEnvelope, id);
        op := op.(envelope := envelope, category := category);
      }
      BalanceUpdateIs(s, op, m, State(), r);
    }
  }

  /** The loop over the split query's rows. */
  method SplitRowsOf(rows: Transactions, links: Links, id: Id, ghost amountOf: Id -> int)
    returns (childIDs: set<Id>, total: int)
    requires forall c | c in links :: c in rows && amountOf(c) == rows[c].amount
    ensures childIDs == Children(links, id)
    ensures total == SumOver(childIDs, amountOf)
  {
    childIDs, total := {}, 0;
    var todo: set<Id> := links.Keys;
    while todo != {}
      invariant todo <= links.Keys
      invariant childIDs == set c | c in links && c !in todo && links[c] == id
      invariant total == SumOver(childIDs, amountOf)
      decreases |todo|
    {
      var c := Pick(todo);
      todo := todo - {c};
      if links[c] == id {
        SumOneMore(childIDs, c, amountOf);
        childIDs := childIDs + {c};
        total := total + rows[c].amount;
      }
    }
  }

  // ----- Lemmas the loops need -----

  /** One identifier per row, none of them in use. */
  ghost predicate NewIds(newId: nat -> Id, used: set<Id>) {
    && (forall i: nat :: newId(i) !in used)
    && (forall i: nat, j: nat | i < j :: newId(i) != newId(j))
  }

  function Drawn(newId: nat -> Id, n: nat): seq<Id> {
    seq(n, i requires 0 <= i < n => newId(i))
  }

  lemma DrawnAreNew<T>(newId: nat -> Id, used: set<Id>, n: nat, table: map<Id, T>)
    requires NewIds(newId, used) && table.Keys <= used
    ensures AllNew(Drawn(newId, n), table)
  {
  }

  /** The record of a balance update holds the figures of before; the wallet ends at the counted one. */
  ghost predicate Records(s: Ledger, s': Ledger, key: string, counted: int, note: Option<string>,
                          x: Ops.BalanceUpdate) {
    && Ops.FindOpenMonth(s, key) == Success(x.month) && x.note == OptionalText(note)
    && x.month in s.months && x.month in s'.months
    && x.previous == s.months[x.month].wallet
    && x.new_ == counted == s'.months[x.month].wallet
    && x.expected == Expected(s, x.month)
    && x.difference == counted - x.expected
  }

  lemma CreatedTransactionIs(s: Ledger, key: string, input: Ops.TransactionInput, today: string, id: Id,
                             m: MonthKey, row: Transaction)
    requires Sound(s) && id !in s.transactions
    requires Ops.FindOpenMonth(s, key) == Success(m) && Ops.CheckTransaction(s, m, input, today) == Success(row)
    ensures var s' := AddWallet(s.(transactions := s.transactions[id := row]), m, -row.amount);
      Ops.CreateTransaction(s, key, input, today, id) == Success(s') && Sound(s')
  {
    CreateTransactionKeeps(s, key, input, today, id);
  }

  lemma RefusedUpdateIs(s: Ledger, op: Op)
    requires Sound(s) && op.OpBalanceUpdate? && Ops.FindOpenMonth(s, op.key).Failure?
    requires op.newEnvelope !in s.allocations && op.id !in s.transactions
    requires op.envelope.None? && op.category.None?
    ensures Ready(s, op) && Attempt(s, op) == Failure(Ops.FindOpenMonth(s, op.key).error)
  {
  }

  /** A balance update is a reconciliation unless the wallet already holds the counted figure. */
  lemma BalanceUpdateIs(s: Ledger, op: Op, m: MonthKey, s': Ledger, r: Outcome<Error>)
    requires Sound(s) && op.OpBalanceUpdate? && Ops.FindOpenMonth(s, op.key) == Success(m)
    requires op.newEnvelope !in s.allocations && op.id !in s.transactions
    requires op.counted == s.months[m].wallet ==> op.envelope.None? && op.category.None? && s' == s && r == Pass
    requires op.counted != s.months[m].wallet ==>
      && Ops.PicksEnvelope(s, m, op.envelope) && Ops.PicksCategory(s, op.category)
      && Follows(Ops.Reconcile(s, m, op.counted, op.note, op.today, op.now, op.envelope,
                               op.category, op.newEnvelope, op.id),
                 s, s', r)
    ensures Ready(s, op) && Follows(Attempt(s, op), s, s', r) && Sound(s')
    ensures r.Pass? ==> m in s'.months && s'.months[m].wallet == op.counted
  {
    StepKeepsSound(s, op);
  }

  /** ORDER BY active ASC, created_at ASC. */
  predicate Before(a: Allocation, b: Allocation) {
    (!a.active && b.active) || (a.active == b.active && a.created < b.created)
  }

  predicate HasSystemKey(c: Category) {
    c.systemKey == Some(RECONCILIATION_SYSTEM_KEY)
  }

  predicate HasName(c: Category) {
    c.name == RECONCILIATION_CATEGORY_NAME
  }

  lemma RemovingNothing(s: Ledger)
    ensures RemoveTransactions(s, {}) == s
  {
    var a := RemoveTransactions(s, {});
    forall t | t in s.transactions
      ensures t in a.transactions && a.transactions[t] == s.transactions[t]
    {
    }
    assert a.transactions == s.transactions;
    assert a.links == s.links;
  }

  lemma SomeElement<K>(rows: set<K>) returns (row: K)
    requires rows != {}
    ensures row in rows
  {
    row :| row in rows;
  }

  /** Deleting rows one after the other is deleting them together. */
  lemma RemovingTwice(s: Ledger, first: set<Id>, second: set<Id>)
    ensures RemoveTransactions(RemoveTransactions(s, first), second) == RemoveTransactions(s, first + second)
  {
    var a := RemoveTransactions(RemoveTransactions(s, first), second);
    var b := RemoveTransactions(s, first + second);
    assert a.transactions.Keys == b.transactions.Keys;
    forall t | t in a.transactions
      ensures a.transactions[t] == b.transactions[t]
    {
      assert Orphaned(Orphaned(s.transactions[t], first), second) == Orphaned(s.transactions[t], first + second);
    }
    assert a.transactions == b.transactions;
    assert a.links == b.links;
  }

  lemma ChildrenIffAny(links: Links, id: Id)
    ensures Children(links, id) == {} <==> !HasChildren(links, id)
  {
    assert forall c | c in links && links[c] == id :: c in Children(links, id);
    if Children(links, id) != {} {
      var c := SomeElement(Children(links, id));
    }
  }

  lemma KeyedOneMore<T>(ids: seq<Id>, rows: seq<T>, i: nat)
    requires |ids| == |rows| && i < |ids|
    ensures Keyed(ids[..i + 1], rows[..i + 1]) == Keyed(ids[..i], rows[..i])[ids[i] := rows[i]]
  {
    assert ids[..i + 1][..i] == ids[..i] && rows[..i + 1][..i] == rows[..i];
  }

  /** The links of new split rows. */
  function LinksTo(p: Id, ids: seq<Id>): map<Id, Id> {
    map k | k in ids :: p
  }

  lemma LinksOneMore(p: Id, ids: seq<Id>, i: nat)
    requires i < |ids|
    ensures LinksTo(p, ids[..i + 1]) == LinksTo(p, ids[..i])[ids[i] := p]
  {
    assert ids[..i + 1] == ids[..i] + [ids[i]];
  }

  lemma AddOneMore<T>(table: map<Id, T>, more: map<Id, T>, k: Id, row: T)
    ensures table + more[k := row] == (table + more)[k := row]
  {
  }

  /** The first bad row decides the error. */
  lemma OneMoreChild(s: Ledger, p: Id, rows: seq<Ops.TransactionInput>, i: nat, built: seq<Transaction>)
    requires p in s.transactions && i < |rows| && Ops.CheckSplitRows(s, p, rows[..i]) == Success(built)
    ensures var child := Ops.CheckSplitRow(s, p, rows[i]);
      if child.Failure? then Ops.CheckSplitRows(s, p, rows[..i + 1]) == Failure(child.error)
      else Ops.CheckSplitRows(s, p, rows[..i + 1]) == Success(built + [child.value])
           && Ops.Total(built + [child.value]) == Ops.Total(built) + child.value.amount
  {
    assert rows[..i + 1][..i] == rows[..i];
    if Ops.CheckSplitRow(s, p, rows[i]).Success? {
      assert (built + [Ops.CheckSplitRow(s, p, rows[i]).value])[..|built|] == built;
    }
  }

  lemma {:induction false} FirstBadRow(s: Ledger, p: Id, rows: seq<Ops.TransactionInput>, n: nat)
    requires p in s.transactions && 0 < n <= |rows|
    requires Ops.CheckSplitRows(s, p, rows[..n]).Failure?
    ensures Ops.CheckSplitRows(s, p, rows) == Ops.CheckSplitRows(s, p, rows[..n])
    decreases |rows| - n
  {
    if n < |rows| {
      assert rows[..n + 1][..n] == rows[..n];
      FirstBadRow(s, p, rows, n + 1);
    } else {
      assert rows[..n] == rows;
    }
  }
}
