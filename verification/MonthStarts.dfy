/** What a new month starts with: its record, and every field of the rows copied or reviewed. */
module MonthStarts {
  import opened Wrappers
  import opened Text
  import opened Calendar
  import opened Validation
  import opened Ledger
  import opened MonthRows
  import opened LedgerOps
  import opened LedgerRuns
  import opened NewRows

  /** Which envelope carries over: one linked to the template; else, when none of the month is, an unlinked one
      of the template's name, whatever its case. */
  lemma MatchIs(s: Ledger, m: MonthKey, t: Id, a: Id)
    requires t in s.templates
    ensures IsMatch(s, m, t, Some(a)) <==>
      && a in s.allocations && s.allocations[a].month == m
      && (s.allocations[a].template == Some(t)
          || (s.allocations[a].template == None
              && Lower(s.allocations[a].name) == Lower(s.templates[t].name)
              && forall b | b in s.allocations && s.allocations[b].month == m :: s.allocations[b].template != Some(t)))
  {
  }

  /** An envelope copied from a template: everything is the template's, and the budget is its amount, plus what is
      carried over when the request, the template and a match in the previous month all call for it. */
  lemma CopiedEnvelopeIs(s: Ledger, m: MonthKey, now: int, q: Answers, carryForward: bool, t: Id)
    requires t in s.templates
    ensures var a, x := TemplateAllocation(s, m, now, q, carryForward, t), s.templates[t];
      && a.month == m && a.template == Some(t) && a.name == x.name && a.kind == x.kind
      && a.carryForward == x.carryForward && a.sortOrder == x.sortOrder && a.active
      && a.defaults == x.defaults && a.created == now
      && a.budget - x.amount == if carryForward && x.carryForward && q.previous.Some? && t in q.matches
                                then CarriedOver(s, Some(q.matches[t])) else 0
  {
  }

  /** An income item copied from a template. */
  lemma CopiedItemIs(s: Ledger, m: MonthKey, t: Id)
    requires ValidMonthKey(m) && t in s.incomeTemplates
    requires s.incomeTemplates[t].day.Some? ==> 1 <= s.incomeTemplates[t].day.value <= 31
    ensures var i, x := TemplateIncome(s, m, t), s.incomeTemplates[t];
      && i.month == m && i.name == x.name && i.amount == x.amount && i.appliesTo == m && i.notes == None
      && i.received == ReceivedDate(m, x.day)
  {
  }

  /** Rows as reviewed: one for each given, field by field. */
  ghost predicate ReviewedRows(m: MonthKey, now: int, req: MonthRequest, rows: Rows) {
    && |rows.incomes| == |req.incomes| && |rows.allocations| == |req.allocations|
    && (forall i | 0 <= i < |req.incomes| :: ItemFrom(m, req.incomes[i], rows.incomes[i]))
    && (forall i | 0 <= i < |req.allocations| :: EnvelopeFrom(m, now, req.allocations[i], rows.allocations[i]))
  }

  /** Rows as copied: one for each template listed. */
  ghost predicate CopiedRows(s: Ledger, m: MonthKey, now: int, q: Answers, carryForward: bool, rows: Rows)
    requires ValidMonthKey(m) && GoodTemplates(s)
    requires forall t | t in q.templates :: t in s.templates
    requires forall t | t in q.incomeTemplates :: t in s.incomeTemplates
  {
    && |rows.incomes| == |q.incomeTemplates| && |rows.allocations| == |q.templates|
    && (forall i | 0 <= i < |q.incomeTemplates| :: rows.incomes[i] == TemplateIncome(s, m, q.incomeTemplates[i]))
    && (forall i | 0 <= i < |q.templates| ::
          rows.allocations[i] == TemplateAllocation(s, m, now, q, carryForward, q.templates[i]))
  }

  lemma PreparedRowsAre(s: Ledger, m: MonthKey, now: int, req: MonthRequest, q: Answers)
    requires ValidMonthKey(m) && GoodTemplates(s)
    requires forall t | t in q.templates :: t in s.templates
    requires forall t | t in q.incomeTemplates :: t in s.incomeTemplates
    requires PreparedRows(s, m, now, req, q).Success?
    ensures var rows := PreparedRows(s, m, now, req, q).value;
      if req.incomes != [] || req.allocations != [] then ReviewedRows(m, now, req, rows)
      else if req.useTemplates then CopiedRows(s, m, now, q, req.carryForward, rows)
      else rows.incomes == [] && rows.allocations == []
  {
    if req.incomes != [] || req.allocations != [] {
      ReviewedRowsAre(s, m, now, req, PreparedRows(s, m, now, req, q).value);
    }
  }

  lemma ReviewedRowsAre(s: Ledger, m: MonthKey, now: int, req: MonthRequest, rows: Rows)
    requires ValidMonthKey(m)
    requires CheckIncomes(m, req.incomes) == Success(rows.incomes)
    requires CheckAllocations(s, m, now, req.allocations) == Success(rows.allocations)
    ensures ReviewedRows(m, now, req, rows)
  {
    forall i | 0 <= i < |req.incomes|
      ensures ItemFrom(m, req.incomes[i], rows.incomes[i])
    {
      assert CheckIncome(m, req.incomes[i]) == Success(rows.incomes[i]);
      CheckedIncomeIs(m, req.incomes[i]);
    }
    forall i | 0 <= i < |req.allocations|
      ensures EnvelopeFrom(m, now, req.allocations[i], rows.allocations[i])
    {
      assert CheckAllocation(s, m, now, req.allocations[i]) == Success(rows.allocations[i]);
      CheckedEnvelopeIs(s, m, now, req.allocations[i]);
    }
  }

  /** The first thing wrong with a request for a month, and what is previewed when nothing is. */
  lemma PreviewedMonthIs(s: Ledger, now: int, req: MonthRequest, q: Answers)
    requires GoodTemplates(s)
    requires forall t | t in q.templates :: t in s.templates
    requires forall t | t in q.incomeTemplates :: t in s.incomeTemplates
    ensures var r, m := PreviewMonth(s, now, req, q), Trim(req.month);
      if !ValidMonthKey(m) then r == Failure(BadMonth)
      else if m in s.months then r == Failure(MonthExists)
      else if PreparedRows(s, m, now, req, q).Failure? then r == Failure(PreparedRows(s, m, now, req, q).error)
      else
        && r.Success? && r.value.key == m && PreparedRows(s, m, now, req, q) == Success(r.value.rows)
        && r.value.month.opening == req.opening
        && r.value.month.wallet == (if req.wallet.Some? then req.wallet.value
                                    else req.opening + RowTotal(r.value.rows.incomes))
        && r.value.month.status == Open && r.value.month.closedWallet == None
  {
  }

  /** Creating a month writes what its preview shows, under new identifiers, and nothing else. */
  lemma CreatedMonthIs(s: Ledger, req: MonthRequest, q: Answers, now: int, incomeIds: seq<Id>, allocationIds: seq<Id>)
    requires GoodTemplates(s)
    requires forall t | t in q.templates :: t in s.templates
    requires forall t | t in q.incomeTemplates :: t in s.incomeTemplates
    requires IdsFit(PreviewMonth(s, now, req, q), incomeIds, allocationIds)
    requires AllNew(incomeIds, s.incomes) && AllNew(allocationIds, s.allocations)
    ensures var r, preview := CreateMonth(s, req, q, now, incomeIds, allocationIds), PreviewMonth(s, now, req, q);
      if preview.Failure? then r == Failure(preview.error)
      else r.Success? && Written(s, preview.value, incomeIds, allocationIds, r.value)
  {
    var preview := PreviewMonth(s, now, req, q);
    if preview.Success? {
      RowsAreWritten(s, preview.value, incomeIds, allocationIds);
    }
  }

  /** New rows under new identifiers, old rows as they were. */
  ghost predicate Inserted<T>(table: map<Id, T>, ids: seq<Id>, rows: seq<T>, table': map<Id, T>)
    requires |ids| == |rows|
  {
    && (forall k :: k in table' <==> k in table || k in ids)
    && (forall k | k in table :: table'[k] == table[k])
    && (forall i | 0 <= i < |ids| :: table'[ids[i]] == rows[i])
  }

  lemma InsertionIs<T>(table: map<Id, T>, ids: seq<Id>, rows: seq<T>)
    requires |ids| == |rows| && AllNew(ids, table)
    ensures Inserted(table, ids, rows, table + Keyed(ids, rows))
  {
    forall i | 0 <= i < |ids|
      ensures ids[i] in Keyed(ids, rows) && Keyed(ids, rows)[ids[i]] == rows[i]
    {
      KeyedRow(ids, rows, i);
    }
  }

  ghost predicate Written(s: Ledger, p: Preview, incomeIds: seq<Id>, allocationIds: seq<Id>, s': Ledger)
    requires |incomeIds| == |p.rows.incomes| && |allocationIds| == |p.rows.allocations|
  {
    && s'.months.Keys == s.months.Keys + {p.key} && s'.months[p.key] == p.month
    && (forall k | k in s.months && k != p.key :: s'.months[k] == s.months[k])
    && Inserted(s.incomes, incomeIds, p.rows.incomes, s'.incomes)
    && Inserted(s.allocations, allocationIds, p.rows.allocations, s'.allocations)
    && s' == s.(months := s'.months, incomes := s'.incomes, allocations := s'.allocations)
  }

  lemma RowsAreWritten(s: Ledger, p: Preview, incomeIds: seq<Id>, allocationIds: seq<Id>)
    requires |incomeIds| == |p.rows.incomes| && |allocationIds| == |p.rows.allocations|
    requires AllNew(incomeIds, s.incomes) && AllNew(allocationIds, s.allocations)
    ensures Written(s, p, incomeIds, allocationIds,
                    s.(months := s.months[p.key := p.month],
                       incomes := s.incomes + Keyed(incomeIds, p.rows.incomes),
                       allocations := s.allocations + Keyed(allocationIds, p.rows.allocations)))
  {
    InsertionIs(s.incomes, incomeIds, p.rows.incomes);
    InsertionIs(s.allocations, allocationIds, p.rows.allocations);
  }
}
