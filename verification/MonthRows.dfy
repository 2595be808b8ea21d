/** The rows a new month starts with: copied from templates with carry-forward, or as reviewed by
    the user after a preview. */
module MonthRows {
  import opened Wrappers
  import opened Text
  import opened Calendar
  import opened Validation
  import opened Sums
  import opened Ledger

  datatype IncomeInput = IncomeInput(
    name: string, amount: int, received: Option<string>, appliesTo: string, notes: Option<string>)

  /** Default category ids arrive trimmed and non-blank. */
  datatype AllocationInput = AllocationInput(
    template: Option<Id>, name: string, budget: int, kind: string, carryForward: bool, sortOrder: int,
    active: Option<bool>, defaults: seq<Id>)

  datatype MonthRequest = MonthRequest(
    month: string, opening: int, wallet: Option<int>, useTemplates: bool, carryForward: bool,
    incomes: seq<IncomeInput>, allocations: seq<AllocationInput>)

  datatype Rows = Rows(incomes: seq<IncomeItem>, allocations: seq<Allocation>)

  /** What the template queries answer: the active templates in listing order, the previous month,
      and for each template the envelope found there (no entry: none found). */
  datatype Answers = Answers(
    templates: seq<Id>, incomeTemplates: seq<Id>, previous: Option<MonthKey>, matches: map<Id, Id>)

  // ----- Query answers -----

  ghost predicate IsListing(s: Ledger, ids: seq<Id>) {
    && Distinct(ids)
    && (forall t :: t in ids <==> t in s.templates && s.templates[t].active)
    && (forall i, j | 0 <= i < j < |ids| ::
          && s.templates[ids[i]].sortOrder <= s.templates[ids[j]].sortOrder
          && (s.templates[ids[i]].sortOrder == s.templates[ids[j]].sortOrder ==>
                !Less(s.templates[ids[j]].name, s.templates[ids[i]].name)))
  }

  ghost predicate IsIncomeListing(s: Ledger, ids: seq<Id>) {
    && Distinct(ids)
    && (forall t :: t in ids <==> t in s.incomeTemplates && s.incomeTemplates[t].active)
    && (forall i, j | 0 <= i < j < |ids| ::
          && s.incomeTemplates[ids[i]].sortOrder <= s.incomeTemplates[ids[j]].sortOrder
          && (s.incomeTemplates[ids[i]].sortOrder == s.incomeTemplates[ids[j]].sortOrder ==>
                !Less(s.incomeTemplates[ids[j]].name, s.incomeTemplates[ids[i]].name)))
  }

  /** previousWalletMonthID: the greatest month key, as text, below the given one. */
  ghost predicate IsPrevious(s: Ledger, key: MonthKey, previous: Option<MonthKey>) {
    match previous
    case None => forall m | m in s.months :: !Less(m, key)
    case Some(p) => p in s.months && Less(p, key) && forall m | m in s.months && Less(m, key) :: !Less(p, m)
  }

  /** The envelopes of a month that previousAllocationRemaining considers for a template. */
  predicate Matches(s: Ledger, m: MonthKey, t: Id, a: Id)
    requires t in s.templates
  {
    && a in s.allocations && s.allocations[a].month == m
    && (s.allocations[a].template == Some(t)
        || (s.allocations[a].template == None && Lower(s.allocations[a].name) == Lower(s.templates[t].name)))
  }

  /** Its choice: one linked to the template if there is one, otherwise one of the same name.
      Which one among equals is not specified by the query. */
  ghost predicate IsMatch(s: Ledger, m: MonthKey, t: Id, pick: Option<Id>)
    requires t in s.templates
  {
    match pick
    case None => forall a | a in s.allocations :: !Matches(s, m, t, a)
    case Some(a) =>
      && Matches(s, m, t, a)
      && (s.allocations[a].template != Some(t) ==>
            forall b | b in s.allocations && Matches(s, m, t, b) :: s.allocations[b].template != Some(t))
  }

  ghost predicate AreAnswers(s: Ledger, key: MonthKey, q: Answers) {
    && IsListing(s, q.templates)
    && IsIncomeListing(s, q.incomeTemplates)
    && IsPrevious(s, key, q.previous)
    && (q.previous.Some? ==> forall t | t in q.templates && t in s.templates ::
          IsMatch(s, q.previous.value, t, if t in q.matches then Some(q.matches[t]) else None))
  }

  /** The queries are only asked when the request brings no rows of its own. */
  predicate UsesTemplates(req: MonthRequest) {
    req.useTemplates && req.incomes == [] && req.allocations == []
  }

  // ----- Carry-forward -----

  function AnySpendOf(rows: Transactions, a: Id): Id -> int {
    t => if t in rows && rows[t].kind == Spend && rows[t].allocation == a then rows[t].amount else 0
  }

  /** Every spend filed in the envelope, split parents included. */
  ghost function AnySpent(rows: Transactions, a: Id): int {
    SumOver(rows.Keys, AnySpendOf(rows, a))
  }

  function NonNegative(n: int): (r: nat)
    ensures r == if n < 0 then 0 else n
  {
    if n < 0 then 0 else n
  }

  /** previousAllocationRemaining for the chosen envelope. */
  ghost function CarriedOver(s: Ledger, pick: Option<Id>): nat {
    if pick.Some? && pick.value in s.allocations
    then NonNegative(s.allocations[pick.value].budget - AnySpent(s.transactions, pick.value))
    else 0
  }

  ghost function TemplateBudget(s: Ledger, q: Answers, carryForward: bool, t: Id): int
    requires t in s.templates
  {
    s.templates[t].amount +
    if carryForward && s.templates[t].carryForward && q.previous.Some?
    then CarriedOver(s, if t in q.matches then Some(q.matches[t]) else None)
    else 0
  }

  // ----- Rows from templates -----

  ghost function TemplateAllocation(s: Ledger, m: MonthKey, now: int, q: Answers, carryForward: bool, t: Id): Allocation
    requires t in s.templates
  {
    var x := s.templates[t];
    Allocation(m, Some(t), x.name, TemplateBudget(s, q, carryForward, t), x.kind, x.carryForward, x.sortOrder,
               true, x.defaults, now)
  }

  /** templateReceivedDate: the default day, moved back to the month's last day when it is later. */
  function ReceivedDate(m: MonthKey, day: Option<int>): (r: Option<string>)
    requires ValidMonthKey(m)
    requires day.Some? ==> 1 <= day.value <= 31
    ensures r.Some? <==> day.Some?
    ensures r.Some? ==> ValidDateKey(r.value) && r.value[..7] == m
    ensures r.Some? ==>
      Number(r.value[8..]) == if day.value <= DaysIn(YearOf(m), MonthOf(m)) then day.value
                              else DaysIn(YearOf(m), MonthOf(m))
  {
    if day.None? then None
    else
      var last := DaysIn(YearOf(m), MonthOf(m));
      Some(DateOf(m, if day.value > last then last else day.value))
  }

  function DateOf(m: MonthKey, day: nat): (r: string)
    requires ValidMonthKey(m) && 1 <= day <= DaysIn(YearOf(m), MonthOf(m))
    ensures ValidDateKey(r) && r[..7] == m && Number(r[8..]) == day
  {
    TwoDigits();
    var text := Padded(day, 2);
    DateIsValid(m, text);
    m + "-" + text
  }

  lemma DateIsValid(m: MonthKey, text: string)
    requires ValidMonthKey(m) && |text| == 2 && AllDigits(text)
    requires 1 <= Number(text) <= DaysIn(YearOf(m), MonthOf(m))
    ensures ValidDateKey(m + "-" + text) && (m + "-" + text)[..7] == m && (m + "-" + text)[8..] == text
  {
    var date := m + "-" + text;
    assert date[..7] == m && date[8..] == text;
  }

  function TemplateIncome(s: Ledger, m: MonthKey, t: Id): IncomeItem
    requires ValidMonthKey(m) && t in s.incomeTemplates
    requires s.incomeTemplates[t].day.Some? ==> 1 <= s.incomeTemplates[t].day.value <= 31
  {
    var x := s.incomeTemplates[t];
    IncomeItem(m, x.name, x.amount, ReceivedDate(m, x.day), m, None)
  }

  /** What template sanitising and the schema guarantee of the stored templates. */
  ghost predicate GoodTables(templates: map<Id, AllocationTemplate>, incomes: map<Id, IncomeTemplate>) {
    && (forall t | t in templates ::
          && templates[t].name != [] && Trimmed(templates[t].name)
          && templates[t].amount >= 0
          && templates[t].kind in ALLOCATION_TYPES
          && Distinct(templates[t].defaults))
    && (forall t | t in incomes ::
          && incomes[t].name != [] && Trimmed(incomes[t].name)
          && incomes[t].amount >= 0
          && (incomes[t].day.Some? ==> 1 <= incomes[t].day.value <= 31))
  }

  ghost predicate GoodTemplates(s: Ledger) {
    GoodTables(s.templates, s.incomeTemplates)
  }

  ghost function TemplateRows(s: Ledger, m: MonthKey, now: int, q: Answers, carryForward: bool): Rows
    requires ValidMonthKey(m) && GoodTemplates(s)
    requires forall t | t in q.templates :: t in s.templates
    requires forall t | t in q.incomeTemplates :: t in s.incomeTemplates
  {
    Rows(seq(|q.incomeTemplates|, i requires 0 <= i < |q.incomeTemplates| =>
           TemplateIncome(s, m, q.incomeTemplates[i])),
         seq(|q.templates|, i requires 0 <= i < |q.templates| =>
           TemplateAllocation(s, m, now, q, carryForward, q.templates[i])))
  }

  // ----- Rows as reviewed -----

  /** sanitizePreviewIncome; CreateIncome makes the same checks in the same order. */
  function CheckIncome(m: MonthKey, input: IncomeInput): (r: Result<IncomeItem, Error>)
    ensures r.Success? ==> r.value.month == m && r.value.amount == input.amount >= 0
  {
    var name :- RequireName(input.name);
    :- Need(input.amount >= 0, AmountNegative);
    var received :- ParseOptionalDate(input.received);
    var appliesTo :- ParseMonth(if Trim(input.appliesTo) == [] then m else input.appliesTo);
    Success(IncomeItem(m, name, input.amount, received, appliesTo, OptionalText(input.notes)))
  }

  predicate OfferedCategory(s: Ledger, c: Id) {
    c in s.categories && s.categories[c].active && s.categories[c].systemKey != Some(RECONCILIATION_SYSTEM_KEY)
  }

  /** sanitizeDefaultCategoryIDs: repeats are dropped, an unknown category is an error. */
  function CheckDefaults(s: Ledger, ids: seq<Id>, kept: seq<Id>): Result<seq<Id>, Error>
    decreases |ids|
  {
    if ids == [] then Success(kept)
    else if ids[0] in kept then CheckDefaults(s, ids[1..], kept)
    else if !OfferedCategory(s, ids[0]) then Failure(DefaultCategoryMissing)
    else CheckDefaults(s, ids[1..], kept + [ids[0]])
  }

  /** sanitizePreviewAllocation; CreateAllocation makes the same checks in the same order. */
  function CheckAllocation(s: Ledger, m: MonthKey, now: int, input: AllocationInput): (r: Result<Allocation, Error>)
    ensures r.Success? ==> r.value.month == m && r.value.budget == input.budget >= 0
  {
    var name :- RequireName(input.name);
    :- Need(input.budget >= 0, AmountNegative);
    :- Need(input.template.None? || input.template.value in s.templates, TemplateMissing);
    var defaults :- CheckDefaults(s, input.defaults, []);
    Success(Allocation(m, input.template, name, input.budget, NormalizeAllocationType(input.kind),
                       input.carryForward, input.sortOrder, input.active.GetOr(true), defaults, now))
  }

  function CheckIncomes(m: MonthKey, inputs: seq<IncomeInput>): (r: Result<seq<IncomeItem>, Error>)
    ensures r.Success? ==> |r.value| == |inputs|
    ensures r.Success? ==> forall i | 0 <= i < |inputs| :: CheckIncome(m, inputs[i]) == Success(r.value[i])
    ensures r.Success? ==> forall i | 0 <= i < |inputs| :: r.value[i].month == m && r.value[i].amount >= 0
  {
    if inputs == [] then Success([])
    else
      var init :- CheckIncomes(m, inputs[..|inputs| - 1]);
      var last :- CheckIncome(m, inputs[|inputs| - 1]);
      Success(init + [last])
  }

  function CheckAllocations(s: Ledger, m: MonthKey, now: int, inputs: seq<AllocationInput>):
    (r: Result<seq<Allocation>, Error>)
    ensures r.Success? ==> |r.value| == |inputs|
    ensures r.Success? ==>
      forall i | 0 <= i < |inputs| :: CheckAllocation(s, m, now, inputs[i]) == Success(r.value[i])
    ensures r.Success? ==> forall i | 0 <= i < |inputs| :: r.value[i].month == m && r.value[i].budget >= 0
  {
    if inputs == [] then Success([])
    else
      var init :- CheckAllocations(s, m, now, inputs[..|inputs| - 1]);
      var last :- CheckAllocation(s, m, now, inputs[|inputs| - 1]);
      Success(init + [last])
  }

  /** preparedMonthRows. */
  ghost function PreparedRows(s: Ledger, m: MonthKey, now: int, req: MonthRequest, q: Answers): Result<Rows, Error>
    requires ValidMonthKey(m) && GoodTemplates(s)
    requires forall t | t in q.templates :: t in s.templates
    requires forall t | t in q.incomeTemplates :: t in s.incomeTemplates
  {
    if req.incomes != [] || req.allocations != [] then
      var incomes :- CheckIncomes(m, req.incomes);
      var allocations :- CheckAllocations(s, m, now, req.allocations);
      Success(Rows(incomes, allocations))
    else if req.useTemplates then Success(TemplateRows(s, m, now, q, req.carryForward))
    else Success(Rows([], []))
  }

  function RowTotal(items: seq<IncomeItem>): int {
    if items == [] then 0 else RowTotal(items[..|items| - 1]) + items[|items| - 1].amount
  }

  /** applyInitialWalletBalance. */
  function InitialWallet(req: MonthRequest, items: seq<IncomeItem>): int {
    match req.wallet
    case Some(w) => w
    case None => req.opening + RowTotal(items)
  }

  datatype Preview = Preview(key: MonthKey, month: Month, rows: Rows)

  /** PreviewMonth: the month and rows that would be created; nothing is written. */
  ghost function PreviewMonth(s: Ledger, now: int, req: MonthRequest, q: Answers): Result<Preview, Error>
    requires GoodTemplates(s)
    requires forall t | t in q.templates :: t in s.templates
    requires forall t | t in q.incomeTemplates :: t in s.incomeTemplates
  {
    var key :- ParseMonth(req.month);
    :- Need(key !in s.months, MonthExists);
    var rows :- PreparedRows(s, key, now, req, q);
    Success(Preview(key, Month(req.opening, InitialWallet(req, rows.incomes), Open, None), rows))
  }
}
