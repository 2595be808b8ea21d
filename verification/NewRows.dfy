/** What a request for a new row must fulfil, in the order of the checks, and what the new row holds. */
module NewRows {
  import opened Wrappers
  import opened Text
  import opened Calendar
  import opened Validation
  import opened Ledger
  import opened MonthRows
  import opened LedgerOps
  import opened LedgerRuns
  import opened Edits

  // ----- Months looked up by key -----

  /** What a key leads to when the month must be open. */
  ghost predicate KeyRefused(s: Ledger, key: string, e: Error) {
    var m := Trim(key);
    if !ValidMonthKey(m) then e == BadMonth
    else if m !in s.months then e == NotFound
    else s.months[m].status == Closed && e == MonthClosed
  }

  predicate KeyOpen(s: Ledger, key: string) {
    ValidMonthKey(Trim(key)) && InOpenMonth(s, Trim(key))
  }

  // ----- Income items -----

  ghost predicate ItemFrom(m: MonthKey, input: IncomeInput, x: IncomeItem) {
    && x.month == m && x.name == Trim(input.name) && x.amount == input.amount
    && StoredNote(input.received, x.received) && (x.received.Some? ==> ValidDateKey(x.received.value))
    && x.appliesTo == (if Trim(input.appliesTo) == "" then m else Trim(input.appliesTo))
    && StoredNote(input.notes, x.notes)
  }

  lemma CheckedIncomeIs(m: MonthKey, input: IncomeInput)
    requires ValidMonthKey(m)
    ensures var r := CheckIncome(m, input);
      if Trim(input.name) == "" then r == Failure(NameRequired)
      else if input.amount < 0 then r == Failure(AmountNegative)
      else if !DateOrBlank(input.received) then r == Failure(BadDate)
      else if Trim(input.appliesTo) != "" && !ValidMonthKey(Trim(input.appliesTo)) then r == Failure(BadMonth)
      else r.Success? && ItemFrom(m, input, r.value)
  {
    DateIsParsedIff(input.received);
    OptionalTextIs(input.notes);
    ValidKeysAreTrimmed(m);
  }

  /** A new income item: field by field, under its new identifier, with its amount on the wallet. */
  lemma IncomeCreationIs(s: Ledger, key: string, input: IncomeInput, id: Id)
    requires id !in s.incomes
    ensures var r, m := CreateIncome(s, key, input, id), Trim(key);
      if !KeyOpen(s, key) then r.Failure? && KeyRefused(s, key, r.error)
      else if CheckIncome(m, input).Failure? then r == Failure(CheckIncome(m, input).error)
      else
        && r.Success? && r.value.incomes.Keys == s.incomes.Keys + {id}
        && ItemFrom(m, input, r.value.incomes[id])
        && (forall i | i in s.incomes :: r.value.incomes[i] == s.incomes[i])
        && WalletMoved(s, r.value, m, input.amount)
        && r.value == s.(incomes := r.value.incomes, months := r.value.months)
  {
    if KeyOpen(s, key) {
      CheckedIncomeIs(Trim(key), input);
    }
  }

  // ----- Envelopes -----

  /** Default categories: each of those given once, in the order of their first mention. */
  ghost predicate DefaultsFrom(given: seq<Id>, kept: seq<Id>) {
    && Distinct(kept)
    && (forall c :: c in kept <==> c in given)
    && forall i, j | 0 <= i < j < |kept| :: MentionedBefore(given, kept[i], kept[j])
  }

  ghost predicate MentionedBefore(given: seq<Id>, c: Id, d: Id) {
    exists k | 0 <= k < |given| :: given[k] == c && d !in given[..k]
  }

  /** What the loop keeps, from the point where some are kept already. */
  lemma {:induction false} DefaultsChecked(s: Ledger, done: seq<Id>, rest: seq<Id>, kept: seq<Id>)
    requires DefaultsFrom(done, kept)
    ensures var r := CheckDefaults(s, rest, kept);
      && (r.Success? ==> DefaultsFrom(done + rest, r.value))
      && (r.Success? <==> forall c | c in rest :: c in kept || OfferedCategory(s, c))
      && (r.Failure? ==> r == Failure(DefaultCategoryMissing))
    decreases |rest|
  {
    if rest == [] {
      assert done + rest == done;
    } else {
      var c := rest[0];
      assert rest == [c] + rest[1..];
      assert done + rest == (done + [c]) + rest[1..];
      if c in kept {
        KeptAgain(done, kept, c);
        DefaultsChecked(s, done + [c], rest[1..], kept);
      } else if OfferedCategory(s, c) {
        KeptFirst(done, kept, c);
        DefaultsChecked(s, done + [c], rest[1..], kept + [c]);
      }
    }
  }

  lemma MentionStays(given: seq<Id>, x: Id, c: Id, d: Id)
    requires MentionedBefore(given, c, d)
    ensures MentionedBefore(given + [x], c, d)
  {
    var k :| 0 <= k < |given| && given[k] == c && d !in given[..k];
    assert (given + [x])[..k] == given[..k] && (given + [x])[k] == c;
  }

  lemma KeptAgain(given: seq<Id>, kept: seq<Id>, c: Id)
    requires DefaultsFrom(given, kept) && c in kept
    ensures DefaultsFrom(given + [c], kept)
  {
    forall i, j | 0 <= i < j < |kept|
      ensures MentionedBefore(given + [c], kept[i], kept[j])
    {
      MentionStays(given, c, kept[i], kept[j]);
    }
  }

  lemma NewMention(given: seq<Id>, b: Id, c: Id)
    requires b in given && c !in given
    ensures MentionedBefore(given + [c], b, c)
  {
    var more := given + [c];
    var k :| 0 <= k < |given| && given[k] == b;
    assert more[k] == b && more[..k] == given[..k];
  }

  lemma KeptFirst(given: seq<Id>, kept: seq<Id>, c: Id)
    requires DefaultsFrom(given, kept) && c !in kept
    ensures DefaultsFrom(given + [c], kept + [c])
  {
    var more := kept + [c];
    assert c !in given;
    forall i, j | 0 <= i < j < |more|
      ensures MentionedBefore(given + [c], more[i], more[j])
    {
      if j < |kept| {
        MentionStays(given, c, kept[i], kept[j]);
      } else {
        assert kept[i] in kept;
        NewMention(given, kept[i], c);
      }
    }
  }

  ghost predicate EnvelopeFrom(m: MonthKey, now: int, input: AllocationInput, a: Allocation) {
    && a.month == m && a.template == input.template && a.name == Trim(input.name) && a.budget == input.budget
    && a.kind == NormalizeAllocationType(input.kind) && a.carryForward == input.carryForward
    && a.sortOrder == input.sortOrder && a.active == (input.active != Some(false))
    && DefaultsFrom(input.defaults, a.defaults) && a.created == now
  }

  lemma CheckedEnvelopeIs(s: Ledger, m: MonthKey, now: int, input: AllocationInput)
    ensures var r := CheckAllocation(s, m, now, input);
      if Trim(input.name) == "" then r == Failure(NameRequired)
      else if input.budget < 0 then r == Failure(AmountNegative)
      else if input.template.Some? && input.template.value !in s.templates then r == Failure(TemplateMissing)
      else if exists c | c in input.defaults :: !OfferedCategory(s, c) then r == Failure(DefaultCategoryMissing)
      else r.Success? && EnvelopeFrom(m, now, input, r.value)
  {
    DefaultsChecked(s, [], input.defaults, []);
    assert [] + input.defaults == input.defaults;
  }

  /** A new envelope: field by field, under its new identifier; no wallet moves. */
  lemma EnvelopeCreationIs(s: Ledger, key: string, input: AllocationInput, now: int, id: Id)
    requires id !in s.allocations
    ensures var r, m := CreateAllocation(s, key, input, now, id), Trim(key);
      if !KeyOpen(s, key) then r.Failure? && KeyRefused(s, key, r.error)
      else if CheckAllocation(s, m, now, input).Failure? then r == Failure(CheckAllocation(s, m, now, input).error)
      else
        && r.Success? && r.value.allocations.Keys == s.allocations.Keys + {id}
        && EnvelopeFrom(m, now, input, r.value.allocations[id])
        && (forall a | a in s.allocations :: r.value.allocations[a] == s.allocations[a])
        && r.value == s.(allocations := r.value.allocations)
  {
    if KeyOpen(s, key) {
      CheckedEnvelopeIs(s, Trim(key), now, input);
    }
  }

  // ----- Transactions -----

  /** The category of a new row when none is given. */
  function CategoryGiven(given: Option<Id>, otherwise: Id): Id {
    if given.Some? then given.value else otherwise
  }

  function DateGiven(given: string, otherwise: string): string {
    if Trim(given) == "" then Trim(otherwise) else Trim(given)
  }

  ghost predicate SpendFrom(m: MonthKey, input: TransactionInput, today: string, x: Transaction) {
    && x.month == m && Some(x.allocation) == input.allocation && x.category == CategoryGiven(input.category, 0)
    && x.date == DateGiven(input.date, today) && x.amount == input.amount
    && StoredNote(input.note, x.note) && x.rounded == input.rounded
    && x.kind == Spend && x.source == Manual && x.parent == None
  }

  lemma CheckedSpendIs(s: Ledger, m: MonthKey, input: TransactionInput, today: string)
    ensures var r := CheckTransaction(s, m, input, today);
      if input.allocation.None? then r == Failure(AllocationRequired)
      else if !FiledIn(s, input.allocation.value, m) then r == Failure(AllocationNotInMonth)
      else if !Usable(s, CategoryGiven(input.category, 0)) then r == Failure(CategoryMissing)
      else if input.amount <= 0 then r == Failure(AmountNotPositive)
      else if !ValidDateKey(DateGiven(input.date, today)) then r == Failure(BadDate)
      else r.Success? && SpendFrom(m, input, today, r.value)
  {
    OptionalTextIs(input.note);
  }

  /** A new spend: field by field, under its new identifier, its amount taken from the wallet. */
  lemma SpendCreationIs(s: Ledger, key: string, input: TransactionInput, today: string, id: Id)
    requires id !in s.transactions
    ensures var r, m := CreateTransaction(s, key, input, today, id), Trim(key);
      if !KeyOpen(s, key) then r.Failure? && KeyRefused(s, key, r.error)
      else if CheckTransaction(s, m, input, today).Failure?
      then r == Failure(CheckTransaction(s, m, input, today).error)
      else
        && r.Success? && r.value.transactions.Keys == s.transactions.Keys + {id}
        && SpendFrom(m, input, today, r.value.transactions[id])
        && (forall t | t in s.transactions :: r.value.transactions[t] == s.transactions[t])
        && WalletMoved(s, r.value, m, -input.amount)
        && r.value == s.(transactions := r.value.transactions, months := r.value.months)
  {
    if KeyOpen(s, key) {
      CheckedSpendIs(s, Trim(key), input, today);
    }
  }

  // ----- Split rows -----

  ghost predicate ChildFrom(p: Id, parent: Transaction, row: TransactionInput, x: Transaction) {
    && x.month == parent.month && x.allocation == CategoryGiven(row.allocation, parent.allocation)
    && x.category == CategoryGiven(row.category, parent.category)
    && x.date == DateGiven(row.date, parent.date) && x.amount == row.amount
    && StoredNote(row.note, x.note) && x.rounded == row.rounded
    && x.kind == Spend && x.source == Split && x.parent == Some(p)
  }

  /** A row of a split: what is left out is taken from the parent. */
  lemma CheckedChildIs(s: Ledger, p: Id, row: TransactionInput)
    requires p in s.transactions
    ensures var r, parent := CheckSplitRow(s, p, row), s.transactions[p];
      if !FiledIn(s, CategoryGiven(row.allocation, parent.allocation), parent.month)
      then r == Failure(AllocationNotInMonth)
      else if !Usable(s, CategoryGiven(row.category, parent.category)) then r == Failure(CategoryMissing)
      else if row.amount <= 0 then r == Failure(AmountNotPositive)
      else if !ValidDateKey(DateGiven(row.date, parent.date)) then r == Failure(BadDate)
      else r.Success? && ChildFrom(p, parent, row, r.value)
  {
    OptionalTextIs(row.note);
  }

  /** Of several bad rows the first decides. */
  lemma {:induction false} FirstBadRowDecides(s: Ledger, p: Id, rows: seq<TransactionInput>) returns (i: nat)
    requires p in s.transactions && CheckSplitRows(s, p, rows).Failure?
    ensures i < |rows| && CheckSplitRow(s, p, rows[i]) == Failure(CheckSplitRows(s, p, rows).error)
    ensures forall j | 0 <= j < i :: CheckSplitRow(s, p, rows[j]).Success?
  {
    var n := |rows| - 1;
    if CheckSplitRows(s, p, rows[..n]).Failure? {
      i := FirstBadRowDecides(s, p, rows[..n]);
      assert forall j | 0 <= j <= i :: rows[..n][j] == rows[j];
    } else {
      i := n;
      assert forall j | 0 <= j < n :: CheckSplitRow(s, p, rows[..n][j]).Success? && rows[..n][j] == rows[j];
    }
  }

  /** Why a split is refused, before its rows are looked at. */
  lemma RefusedSplitIs(s: Ledger, id: Id, rows: seq<TransactionInput>, ids: seq<Id>)
    requires |ids| == |rows|
    ensures var r := SplitTransaction(s, id, rows, ids);
      if id !in s.transactions || s.transactions[id].month !in s.months then r == Failure(NotFound)
      else if s.months[s.transactions[id].month].status == Closed then r == Failure(MonthClosed)
      else if s.transactions[id].parent.Some? then r == Failure(ChildNotSplittable)
      else if s.transactions[id].kind != Spend then r == Failure(OnlySpendsSplit)
      else if s.transactions[id].source == Reconciliation then r == Failure(ReconciliationNotSplittable)
      else if HasChildren(s.links, id) then r == Failure(AlreadySplit)
      else if |rows| < 2 then r == Failure(TooFewRows)
      else if |rows| > 20 then r == Failure(TooManyRows)
      else if CheckSplitRows(s, id, rows).Failure? then r == Failure(CheckSplitRows(s, id, rows).error)
      else if Total(CheckSplitRows(s, id, rows).value) != s.transactions[id].amount then r == Failure(SumMismatch)
      else r.Success?
  {
  }

  /** An accepted split leaves one child per row, as given, linked to its parent, and every other row alone. */
  lemma SplitLeaves(s: Ledger, id: Id, rows: seq<TransactionInput>, ids: seq<Id>)
    requires Forest(s.transactions, s.links) && |ids| == |rows| && AllNew(ids, s.transactions)
    requires SplitTransaction(s, id, rows, ids).Success?
    ensures var s' := SplitTransaction(s, id, rows, ids).value;
      && id in s.transactions
      && (forall t :: t in s'.transactions <==> t in s.transactions || t in ids)
      && (forall t | t in s.transactions :: s'.transactions[t] == s.transactions[t])
      && (forall i | 0 <= i < |ids| :: ChildFrom(id, s.transactions[id], rows[i], s'.transactions[ids[i]]))
      && (forall c :: c in s'.links <==> c in s.links || c in ids)
      && (forall c | c in s'.links :: s'.links[c] == if c in ids then id else s.links[c])
      && s' == s.(transactions := s'.transactions, links := s'.links)
  {
    var children := CheckSplitRows(s, id, rows).value;
    var s' := SplitTransaction(s, id, rows, ids).value;
    assert s' == WithChildren(s, id, ids, children);
    forall i | 0 <= i < |ids|
      ensures ids[i] in s'.transactions && ChildFrom(id, s.transactions[id], rows[i], s'.transactions[ids[i]])
    {
      KeyedRow(ids, children, i);
      assert CheckSplitRow(s, id, rows[i]) == Success(children[i]);
      CheckedChildIs(s, id, rows[i]);
    }
  }

  // ----- Reconciliation -----

  /** The row that accounts for a difference: an income when more was counted, a spend when less. */
  lemma ReconcilingRowIs(m: MonthKey, a: Id, c: Id, delta: int, note: Option<string>, today: string)
    ensures var x := ReconciliationRow(m, a, c, delta, note, today);
      && x.month == m && x.allocation == a && x.category == c
      && x.source == Reconciliation && x.parent == None && !x.rounded
      && (delta >= 0 ==> x.kind == Income && x.amount == delta)
      && (delta < 0 ==> x.kind == Spend && x.amount == -delta)
      && x.note.Some? && x.note.value == (if note.Some? && Trim(note.value) != "" then Trim(note.value)
                                          else "Reconcile balance")
      && x.date == if m + "-" <= today then today else m + "-01"
  {
  }

  /** The envelope it goes to: hidden, worth nothing, last and inactive, whether found or made. */
  lemma ReconcilingEnvelopeIs(s: Ledger, m: MonthKey, pick: Option<Id>, now: int, newId: Id)
    requires pick.Some? ==> ReconciliationEnvelope(s, m, pick.value)
    requires newId !in s.allocations
    ensures var (allocations, a) := ClaimEnvelope(s, m, pick, now, newId);
      && a == (if pick.Some? then pick.value else newId)
      && allocations.Keys == s.allocations.Keys + {a}
      && (forall b | b in s.allocations && b != a :: allocations[b] == s.allocations[b])
      && allocations[a].month == m && allocations[a].name == "Reconcillation Adjustment"
      && allocations[a].budget == 0 && allocations[a].kind == "flexible" && !allocations[a].carryForward
      && allocations[a].sortOrder == 1_000_000 && !allocations[a].active
      && (pick.None? ==> allocations[a].template == None && allocations[a].defaults == []
                         && allocations[a].created == now)
  {
  }

  /** Its category: named, keyed and active, or a refusal when another row holds the name or the key. */
  lemma ReconcilingCategoryIs(s: Ledger, pick: Option<Id>)
    requires pick.Some? ==> pick.value in s.categories
    ensures var r, c := ClaimCategory(s, pick), if pick.Some? then pick.value else 1;
      if pick.Some? && exists d | d in s.categories && d != c ::
           s.categories[d].name == "Adjustment" || s.categories[d].systemKey == Some("reconciliation_adjustment")
      then r == Failure(NameTaken)
      else
        && r.Success? && r.value.1 == c && r.value.0.Keys == s.categories.Keys + {c}
        && r.value.0[c] == Category("Adjustment", Some("reconciliation_adjustment"), true)
        && forall d | d in s.categories && d != c :: r.value.0[d] == s.categories[d]
  {
  }

  /** What a reconciliation writes. */
  lemma ReconciliationLeaves(s: Ledger, m: MonthKey, counted: int, note: Option<string>, today: string, now: int,
                             envelope: Option<Id>, category: Option<Id>, newEnvelope: Id, id: Id)
    requires m in s.months && id !in s.transactions
    requires envelope.Some? ==> envelope.value in s.allocations
    requires category.Some? ==> category.value in s.categories
    ensures var r := Reconcile(s, m, counted, note, today, now, envelope, category, newEnvelope, id);
      var claim := ClaimCategory(s, category);
      var (allocations, a) := ClaimEnvelope(s, m, envelope, now, newEnvelope);
      if claim.Failure? then r == Failure(claim.error)
      else
        var x := ReconciliationRow(m, a, claim.value.1, counted - s.months[m].wallet, note, today);
        && r.Success? && WalletMoved(s, r.value, m, counted - s.months[m].wallet)
        && r.value.transactions.Keys == s.transactions.Keys + {id} && r.value.transactions[id] == x
        && (forall t | t in s.transactions :: r.value.transactions[t] == s.transactions[t])
        && r.value == s.(months := r.value.months, transactions := r.value.transactions, allocations := allocations,
                         categories := claim.value.0)
  {
  }

  /** A balance update: refused for a month that is not open, idle when the wallet already holds the figure, and
      otherwise a reconciliation. */
  lemma BalanceUpdateLeaves(s: Ledger, key: string, counted: int, note: Option<string>, today: string, now: int,
                            envelope: Option<Id>, category: Option<Id>, newEnvelope: Id, id: Id)
    requires envelope.Some? ==> envelope.value in s.allocations
    requires category.Some? ==> category.value in s.categories
    ensures var r := CreateBalanceUpdate(s, key, counted, note, today, now, envelope, category, newEnvelope, id);
      var m := Trim(key);
      if !KeyOpen(s, key) then r.Failure? && KeyRefused(s, key, r.error)
      else if counted == s.months[m].wallet then r == Success(s)
      else r == Reconcile(s, m, counted, note, today, now, envelope, category, newEnvelope, id)
  {
  }
}
