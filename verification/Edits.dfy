/** What an edit accepts and what it leaves: each field is the one given or the one there was. */
module Edits {
  import opened Wrappers
  import opened Text
  import opened Calendar
  import opened Validation
  import opened Sums
  import opened Ledger
  import opened MonthRows
  import opened LedgerOps
  import opened Conservation

  // ----- Fields -----

  /** A note as stored: trimmed, and none at all when blank. */
  ghost predicate StoredNote(given: Option<string>, stored: Option<string>) {
    && (stored.Some? ==> given.Some? && stored.value == Trim(given.value) != "")
    && (stored.None? ==> given.Some? ==> Trim(given.value) == "")
  }

  /** A patched field that may be cleared. */
  ghost predicate NoteAfter(patch: Option<Option<string>>, before: Option<string>, after: Option<string>) {
    match patch
    case None => after == before
    case Some(given) => StoredNote(given, after)
  }

  ghost predicate FieldAfter<T>(patch: Option<T>, before: T, after: T) {
    after == if patch.Some? then patch.value else before
  }

  ghost predicate TextAfter(patch: Option<string>, before: string, after: string) {
    after == if patch.Some? then Trim(patch.value) else before
  }

  /** A received date as stored. */
  ghost predicate DateAfter(patch: Option<Option<string>>, before: Option<string>, after: Option<string>) {
    && NoteAfter(patch, before, after)
    && (patch.Some? && after.Some? ==> ValidDateKey(after.value))
  }

  /** A given date must be blank or name a day. */
  predicate DateOrBlank(given: Option<string>) {
    given.Some? ==> Trim(given.value) == "" || ValidDateKey(Trim(given.value))
  }

  /** Only the wallet of month m differs, by delta. */
  ghost predicate WalletMoved(s: Ledger, s': Ledger, m: MonthKey, delta: int) {
    && m in s.months && s'.months.Keys == s.months.Keys
    && (forall k | k in s.months && k != m :: s'.months[k] == s.months[k])
    && s'.months[m].wallet == s.months[m].wallet + delta
    && s'.months[m].opening == s.months[m].opening && s'.months[m].status == s.months[m].status
    && s'.months[m].closedWallet == s.months[m].closedWallet
  }

  predicate InOpenMonth(s: Ledger, m: MonthKey) {
    m in s.months && s.months[m].status == Open
  }

  predicate FiledIn(s: Ledger, a: Id, m: MonthKey) {
    a in s.allocations && s.allocations[a].month == m
  }

  predicate Usable(s: Ledger, c: Id) {
    c in s.categories && s.categories[c].active
  }

  lemma OptionalTextIs(given: Option<string>)
    ensures StoredNote(given, OptionalText(given))
  {
  }

  /** An optional date is refused exactly when it is neither blank nor a day. */
  lemma DateIsParsedIff(given: Option<string>)
    ensures ParseOptionalDate(given).Success? <==> DateOrBlank(given)
    ensures ParseOptionalDate(given).Failure? ==> ParseOptionalDate(given) == Failure(BadDate)
    ensures ParseOptionalDate(given).Success? ==>
      var date := ParseOptionalDate(given).value;
      StoredNote(given, date) && (date.Some? ==> ValidDateKey(date.value))
  {
    OptionalTextIs(given);
    if given.Some? {
      TrimFacts(given.value);
    }
  }

  // ----- Transactions -----

  /** The first thing wrong with an edit of a transaction, in the order of the checks. */
  lemma RefusedEditIs(s: Ledger, id: Id, patch: TransactionPatch)
    ensures var r := UpdateTransaction(s, id, patch);
      if id !in s.transactions then r == Failure(NotFound)
      else
        var x := s.transactions[id];
        if x.month !in s.months then r == Failure(NotFound)
        else if s.months[x.month].status == Closed then r == Failure(MonthClosed)
        else if x.parent.Some? && patch.amount.Some? then r == Failure(ChildAmountFrozen)
        else if patch.allocation == Some(None) then r == Failure(AllocationRequired)
        else if patch.allocation.Some? && !FiledIn(s, patch.allocation.value.value, x.month)
        then r == Failure(AllocationNotInMonth)
        else if patch.category == Some(None) then r == Failure(CategoryRequired)
        else if patch.category.Some? && !Usable(s, patch.category.value.value) then r == Failure(CategoryMissing)
        else if patch.date.Some? && !ValidDateKey(Trim(patch.date.value)) then r == Failure(BadDate)
        else if patch.amount.Some? && patch.amount.value <= 0 then r == Failure(AmountNotPositive)
        else r.Success?
  {
  }

  /** An edit is accepted exactly under these conditions. */
  lemma EditAcceptedIff(s: Ledger, id: Id, patch: TransactionPatch)
    ensures UpdateTransaction(s, id, patch).Success? <==>
      && id in s.transactions && InOpenMonth(s, s.transactions[id].month)
      && (patch.amount.Some? ==> patch.amount.value > 0 && s.transactions[id].parent.None?)
      && (patch.allocation.Some? ==>
            patch.allocation.value.Some? && FiledIn(s, patch.allocation.value.value, s.transactions[id].month))
      && (patch.category.Some? ==> patch.category.value.Some? && Usable(s, patch.category.value.value))
      && (patch.date.Some? ==> ValidDateKey(Trim(patch.date.value)))
  {
    RefusedEditIs(s, id, patch);
  }

  /** The row an edit leaves. */
  ghost predicate EditedRow(x: Transaction, patch: TransactionPatch, y: Transaction) {
    && (patch.allocation.Some? ==> patch.allocation.value == Some(y.allocation))
    && (patch.allocation.None? ==> y.allocation == x.allocation)
    && (patch.category.Some? ==> patch.category.value == Some(y.category))
    && (patch.category.None? ==> y.category == x.category)
    && TextAfter(patch.date, x.date, y.date)
    && FieldAfter(patch.amount, x.amount, y.amount)
    && NoteAfter(patch.note, x.note, y.note)
    && FieldAfter(patch.rounded, x.rounded, y.rounded)
    && y.month == x.month && y.kind == x.kind && y.source == x.source && y.parent == x.parent
  }

  /** Every field of the row is the one given or the one there was; no other row and no other table differs,
      but for the month's wallet. */
  lemma EditIs(s: Ledger, id: Id, patch: TransactionPatch)
    requires UpdateTransaction(s, id, patch).Success?
    ensures var s' := UpdateTransaction(s, id, patch).value;
      && id in s.transactions && s'.transactions.Keys == s.transactions.Keys
      && EditedRow(s.transactions[id], patch, s'.transactions[id])
      && (forall t | t in s.transactions && t != id :: s'.transactions[t] == s.transactions[t])
      && s' == s.(transactions := s'.transactions, months := s'.months)
  {
    if patch.note.Some? {
      OptionalTextIs(patch.note.value);
    }
  }

  /** An accepted edit moves a visible spend from the figure of its old envelope to that of its new one, at the
      old and the new amount, and leaves the figures of all others. */
  lemma EditedSpend(s: Ledger, id: Id, patch: TransactionPatch, b: Id)
    requires UpdateTransaction(s, id, patch).Success? && VisibleSpend(s.transactions, s.links, id)
    ensures var s' := UpdateTransaction(s, id, patch).value;
      var x, y := s.transactions[id], s'.transactions[id];
      Spent(s'.transactions, s'.links, b) == Spent(s.transactions, s.links, b)
        - (if x.allocation == b then x.amount else 0) + (if y.allocation == b then y.amount else 0)
  {
    EditIs(s, id, patch);
    var s' := UpdateTransaction(s, id, patch).value;
    var f, f' := EnvelopeSpendOf(s.transactions, s.links, b), EnvelopeSpendOf(s'.transactions, s'.links, b);
    forall t | t in s.transactions.Keys - {id}
      ensures f(t) == f'(t)
    {
    }
    SumChange(s.transactions.Keys, s'.transactions.Keys, f, f', {id});
    assert s.transactions.Keys * {id} == {id};
    SumSingleton(id, f);
    SumSingleton(id, f');
  }

  /** Filing a visible spend in another envelope of its month. */
  lemma MovedSpend(s: Ledger, id: Id, y: Id, b: Id)
    requires VisibleSpend(s.transactions, s.links, id) && InOpenMonth(s, s.transactions[id].month)
    requires FiledIn(s, y, s.transactions[id].month) && y != s.transactions[id].allocation
    ensures var r := UpdateTransaction(s, id, TransactionPatch(Some(Some(y)), None, None, None, None, None));
      var x, amount := s.transactions[id].allocation, s.transactions[id].amount;
      && r.Success? && id in r.value.transactions && r.value.transactions[id].allocation == y
      && Spent(r.value.transactions, r.value.links, x) == Spent(s.transactions, s.links, x) - amount
      && Spent(r.value.transactions, r.value.links, y) == Spent(s.transactions, s.links, y) + amount
      && (b != x && b != y ==>
            Spent(r.value.transactions, r.value.links, b) == Spent(s.transactions, s.links, b))
  {
    var patch := TransactionPatch(Some(Some(y)), None, None, None, None, None);
    EditAcceptedIff(s, id, patch);
    EditIs(s, id, patch);
    EditedSpend(s, id, patch, s.transactions[id].allocation);
    EditedSpend(s, id, patch, y);
    EditedSpend(s, id, patch, b);
  }

  /** The wallet follows an edit of a row outside any split: down by what a spend grew, up by what an income
      grew; for rows of a split and other kinds it stays. */
  lemma WalletAfterEdit(s: Ledger, id: Id, patch: TransactionPatch)
    requires UpdateTransaction(s, id, patch).Success?
    ensures var s' := UpdateTransaction(s, id, patch).value;
      var x, grown := s.transactions[id], s'.transactions[id].amount - s.transactions[id].amount;
      WalletMoved(s, s', x.month, if x.parent.Some? || HasChildren(s.links, id) then 0
                                  else if x.kind == Spend then -grown else if x.kind == Income then grown else 0)
  {
  }

  // ----- Income items -----

  lemma RefusedIncomeEditIs(s: Ledger, id: Id, patch: IncomePatch)
    ensures var r := UpdateIncome(s, id, patch);
      if id !in s.incomes || s.incomes[id].month !in s.months then r == Failure(NotFound)
      else if s.months[s.incomes[id].month].status == Closed then r == Failure(MonthClosed)
      else if patch.name.Some? && Trim(patch.name.value) == "" then r == Failure(NameRequired)
      else if patch.amount.Some? && patch.amount.value < 0 then r == Failure(AmountNegative)
      else if patch.received.Some? && !DateOrBlank(patch.received.value) then r == Failure(BadDate)
      else if patch.appliesTo.Some? && !ValidMonthKey(Trim(patch.appliesTo.value)) then r == Failure(BadMonth)
      else r.Success?
  {
    if patch.received.Some? {
      DateIsParsedIff(patch.received.value);
    }
  }

  ghost predicate EditedItem(x: IncomeItem, patch: IncomePatch, y: IncomeItem) {
    && TextAfter(patch.name, x.name, y.name)
    && FieldAfter(patch.amount, x.amount, y.amount)
    && DateAfter(patch.received, x.received, y.received)
    && TextAfter(patch.appliesTo, x.appliesTo, y.appliesTo)
    && NoteAfter(patch.notes, x.notes, y.notes)
    && y.month == x.month
  }

  lemma PatchedItemIs(x: IncomeItem, patch: IncomePatch)
    requires PatchIncome(x, patch).Success?
    ensures EditedItem(x, patch, PatchIncome(x, patch).value)
  {
    if patch.received.Some? {
      DateIsParsedIff(patch.received.value);
    }
    if patch.notes.Some? {
      OptionalTextIs(patch.notes.value);
    }
  }

  /** The same for income items: field by field, and the wallet follows the amount. */
  lemma IncomeEditIs(s: Ledger, id: Id, patch: IncomePatch)
    requires UpdateIncome(s, id, patch).Success?
    ensures var s' := UpdateIncome(s, id, patch).value;
      && id in s.incomes && s'.incomes.Keys == s.incomes.Keys
      && EditedItem(s.incomes[id], patch, s'.incomes[id])
      && (forall i | i in s.incomes && i != id :: s'.incomes[i] == s.incomes[i])
      && WalletMoved(s, s', s.incomes[id].month, s'.incomes[id].amount - s.incomes[id].amount)
      && s' == s.(incomes := s'.incomes, months := s'.months)
  {
    PatchedItemIs(s.incomes[id], patch);
  }

  // ----- Envelopes -----

  lemma RefusedEnvelopeEditIs(s: Ledger, id: Id, patch: AllocationPatch)
    ensures var r := UpdateAllocation(s, id, patch);
      if id !in s.allocations || s.allocations[id].month !in s.months then r == Failure(NotFound)
      else if s.months[s.allocations[id].month].status == Closed then r == Failure(MonthClosed)
      else if patch.name.Some? && Trim(patch.name.value) == "" then r == Failure(NameRequired)
      else if patch.budget.Some? && patch.budget.value < 0 then r == Failure(AmountNegative)
      else r.Success?
  {
  }

  ghost predicate EditedEnvelope(a: Allocation, patch: AllocationPatch, b: Allocation) {
    && TextAfter(patch.name, a.name, b.name)
    && FieldAfter(patch.budget, a.budget, b.budget)
    && b.kind == (if patch.kind.Some? then NormalizeAllocationType(patch.kind.value) else a.kind)
    && FieldAfter(patch.carryForward, a.carryForward, b.carryForward)
    && FieldAfter(patch.sortOrder, a.sortOrder, b.sortOrder)
    && FieldAfter(patch.active, a.active, b.active)
    && b.month == a.month && b.template == a.template && b.defaults == a.defaults && b.created == a.created
  }

  /** And for envelopes, which touch no wallet. */
  lemma EnvelopeEditIs(s: Ledger, id: Id, patch: AllocationPatch)
    requires UpdateAllocation(s, id, patch).Success?
    ensures var s' := UpdateAllocation(s, id, patch).value;
      && id in s.allocations && s'.allocations.Keys == s.allocations.Keys
      && EditedEnvelope(s.allocations[id], patch, s'.allocations[id])
      && (forall a | a in s.allocations && a != id :: s'.allocations[a] == s.allocations[a])
      && s' == s.(allocations := s'.allocations)
  {
  }

  // ----- Deletions -----

  /** Deleting an income item takes it and its amount away. */
  lemma IncomeDeletionIs(s: Ledger, id: Id)
    ensures var r := DeleteIncome(s, id);
      if id !in s.incomes || s.incomes[id].month !in s.months then r == Failure(NotFound)
      else if s.months[s.incomes[id].month].status == Closed then r == Failure(MonthClosed)
      else
        && r.Success? && r.value == s.(incomes := r.value.incomes, months := r.value.months)
        && WalletMoved(s, r.value, s.incomes[id].month, -s.incomes[id].amount)
        && r.value.incomes.Keys == s.incomes.Keys - {id}
        && forall i | i in r.value.incomes :: r.value.incomes[i] == s.incomes[i]
  {
  }

  /** Deleting a transaction: a child goes only with its parent, and a parent with all its children. */
  lemma DeletionIs(s: Ledger, id: Id)
    requires Forest(s.transactions, s.links)
    ensures var r := DeleteTransaction(s, id);
      if id !in s.transactions || s.transactions[id].month !in s.months then r == Failure(NotFound)
      else if s.months[s.transactions[id].month].status == Closed then r == Failure(MonthClosed)
      else if s.transactions[id].parent.Some? then r == Failure(ChildNotDeletable)
      else
        && r.Success?
        && r.value == s.(transactions := r.value.transactions, links := r.value.links, months := r.value.months)
        && (forall t :: t in r.value.transactions <==>
              t in s.transactions && t != id && s.transactions[t].parent != Some(id))
        && (forall t | t in r.value.transactions :: r.value.transactions[t] == s.transactions[t])
  {
    if DeleteTransaction(s, id).Success? {
      FamilyRemovalIs(s, id);
    }
  }

  lemma FamilyRemovalIs(s: Ledger, id: Id)
    requires Forest(s.transactions, s.links) && id in s.transactions && s.transactions[id].parent.None?
    ensures var s' := RemoveTransactions(s, Children(s.links, id) + {id});
      && (forall t :: t in s'.transactions <==>
            t in s.transactions && t != id && s.transactions[t].parent != Some(id))
      && (forall t | t in s'.transactions :: s'.transactions[t] == s.transactions[t])
  {
    forall t | t in s.transactions
      ensures t in Children(s.links, id) <==> s.transactions[t].parent == Some(id)
      ensures s.transactions[t].parent.Some? ==> s.transactions[t].parent.value !in s.links
    {
      assert IsChild(s.transactions, t) ==> t in s.links && s.links[t] == s.transactions[t].parent.value;
      assert t in s.links ==> Linked(s.transactions[t], s.links[t], s.transactions[s.links[t]]);
    }
  }

  /** Deleting an envelope takes the rows filed in it away; the children of such rows are orphaned. */
  lemma EnvelopeDeletionIs(s: Ledger, a: Id)
    ensures var r := DeleteAllocation(s, a);
      if a !in s.allocations || s.allocations[a].month !in s.months then r == Failure(NotFound)
      else if s.months[s.allocations[a].month].status == Closed then r == Failure(MonthClosed)
      else
        && r.Success? && r.value.allocations.Keys == s.allocations.Keys - {a}
        && (forall b | b in r.value.allocations :: r.value.allocations[b] == s.allocations[b])
        && (forall t :: t in r.value.transactions <==> t in s.transactions && s.transactions[t].allocation != a)
        && (forall t | t in r.value.transactions ::
              var x, y := s.transactions[t], r.value.transactions[t];
              && y.(parent := x.parent) == x
              && y.parent == if x.parent.Some? && x.parent.value in s.transactions
                                && s.transactions[x.parent.value].allocation == a then None else x.parent)
        && r.value == s.(allocations := r.value.allocations, transactions := r.value.transactions,
                         links := r.value.links)
  {
  }

  /** Deleting a month takes exactly its own rows away. */
  lemma MonthDeletionIs(s: Ledger, key: string, m: MonthKey)
    requires Valid(s) && Trim(key) == m && ValidMonthKey(m) && m in s.months
    ensures var r := DeleteMonth(s, key);
      && r.Success? && r.value.months.Keys == s.months.Keys - {m}
      && (forall k | k in r.value.months :: r.value.months[k] == s.months[k])
      && (forall i :: i in r.value.incomes <==> i in s.incomes && s.incomes[i].month != m)
      && (forall i | i in r.value.incomes :: r.value.incomes[i] == s.incomes[i])
      && (forall a :: a in r.value.allocations <==> a in s.allocations && s.allocations[a].month != m)
      && (forall a | a in r.value.allocations :: r.value.allocations[a] == s.allocations[a])
      && (forall t :: t in r.value.transactions <==> t in s.transactions && s.transactions[t].month != m)
      && (forall t | t in r.value.transactions :: r.value.transactions[t] == s.transactions[t])
      && r.value.categories == s.categories && r.value.templates == s.templates
      && r.value.incomeTemplates == s.incomeTemplates
  {
    forall t | t in s.transactions
      ensures InMonth(s, m, t) <==> s.transactions[t].month == m
      ensures s.transactions[t].parent.Some? ==>
        && s.transactions[t].parent.value in s.transactions
        && s.transactions[s.transactions[t].parent.value].month == s.transactions[t].month
    {
      assert Filed(s, s.transactions[t]);
      assert IsChild(s.transactions, t) ==> t in s.links && s.links[t] == s.transactions[t].parent.value;
      assert t in s.links ==> Linked(s.transactions[t], s.links[t], s.transactions[s.links[t]]);
    }
  }

  // ----- Settings -----

  /** Categories change as one: refused when a transaction's category would go, otherwise only default lists
      shrink, to what is left of them. */
  lemma CategoryChangeIs(s: Ledger, categories: map<Id, Category>)
    ensures var r := ChangeCategories(s, categories);
      if exists t | t in s.transactions :: s.transactions[t].category !in categories
      then r == Failure(CategoryMissing)
      else
        && r.Success? && r.value.categories == categories
        && r.value.allocations.Keys == s.allocations.Keys && r.value.templates.Keys == s.templates.Keys
        && (forall a | a in s.allocations ::
              var x, y := s.allocations[a], r.value.allocations[a];
              y.(defaults := x.defaults) == x && y.defaults == Kept(x.defaults, categories.Keys))
        && (forall t | t in s.templates ::
              var x, y := s.templates[t], r.value.templates[t];
              y.(defaults := x.defaults) == x && y.defaults == Kept(x.defaults, categories.Keys))
        && r.value == s.(categories := categories, allocations := r.value.allocations, templates := r.value.templates)
  {
  }

  /** A default list keeps the categories that are left, in their order. */
  lemma {:induction false} KeptInOrder(ids: seq<Id>, more: seq<Id>, alive: set<Id>)
    ensures Kept(ids + more, alive) == Kept(ids, alive) + Kept(more, alive)
    ensures |ids| == 1 ==> Kept(ids, alive) == if ids[0] in alive then ids else []
  {
    if |ids| == 1 {
      assert ids[..0] == [] && ids == [ids[0]];
    }
    if more == [] {
      assert ids + more == ids;
    } else {
      var n := |more| - 1;
      assert (ids + more)[..|ids| + n] == ids + more[..n];
      KeptInOrder(ids, more[..n], alive);
    }
  }

  /** Templates change as one: nothing is refused, and only links to deleted templates go. */
  lemma TemplateChangeIs(s: Ledger, templates: map<Id, AllocationTemplate>, incomes: map<Id, IncomeTemplate>)
    ensures var r := ChangeTemplates(s, templates, incomes);
      && r.Success? && r.value.templates == templates && r.value.incomeTemplates == incomes
      && r.value.allocations.Keys == s.allocations.Keys
      && (forall a | a in s.allocations ::
            var x, y := s.allocations[a], r.value.allocations[a];
            && y.(template := x.template) == x
            && y.template == if x.template.Some? && x.template.value !in templates then None else x.template)
      && r.value == s.(templates := templates, incomeTemplates := incomes, allocations := r.value.allocations)
  {
  }
}
