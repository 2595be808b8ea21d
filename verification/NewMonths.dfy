/** Starting a month: what carry-forward carries, and that a reviewed preview creates the month the
    templates would have created. */
module NewMonths {
  import opened Wrappers
  import opened Text
  import opened Calendar
  import opened Validation
  import opened Sums
  import opened Ledger
  import opened MonthRows
  import opened LedgerOps

  // ----- Carry-forward -----

  /** The query's text comparison finds the chronologically latest earlier month. */
  lemma PreviousIsLatestEarlier(s: Ledger, key: MonthKey, p: MonthKey)
    requires MonthKeys(s.months) && ValidMonthKey(key)
    ensures IsPrevious(s, key, Some(p)) <==>
      && p in s.months && ValidMonthKey(p) && MonthIndex(p) < MonthIndex(key)
      && forall m | m in s.months ::
           ValidMonthKey(m) && (MonthIndex(m) < MonthIndex(key) ==> MonthIndex(m) <= MonthIndex(p))
  {
    if p in s.months {
      assert ValidMonthKey(p);
      MonthOrder(p, key);
      forall m | m in s.months
        ensures ValidMonthKey(m)
        ensures Less(m, key) <==> MonthIndex(m) < MonthIndex(key)
        ensures Less(p, m) <==> MonthIndex(p) < MonthIndex(m)
      {
        assert ValidMonthKey(m);
        MonthOrder(m, key);
        MonthOrder(p, m);
      }
    }
  }

  lemma NoPreviousIffNoneEarlier(s: Ledger, key: MonthKey)
    requires MonthKeys(s.months) && ValidMonthKey(key)
    ensures IsPrevious(s, key, None) <==>
      forall m | m in s.months :: ValidMonthKey(m) && MonthIndex(m) >= MonthIndex(key)
  {
    forall m | m in s.months
      ensures ValidMonthKey(m)
      ensures Less(m, key) <==> MonthIndex(m) < MonthIndex(key)
    {
      assert ValidMonthKey(m);
      MonthOrder(m, key);
    }
  }

  /** Split parents filed in the envelope: hidden from the summary, counted by carry-forward. */
  ghost function HiddenSpendOf(rows: Transactions, links: Links, a: Id): Id -> int {
    t => if t in rows && rows[t].kind == Spend && rows[t].allocation == a && HasChildren(links, t)
         then rows[t].amount else 0
  }

  ghost function HiddenSpend(rows: Transactions, links: Links, a: Id): int {
    SumOver(rows.Keys, HiddenSpendOf(rows, links, a))
  }

  ghost predicate HoldsSplitParent(s: Ledger, a: Id) {
    exists t | t in s.transactions ::
      s.transactions[t].allocation == a && s.transactions[t].kind == Spend && HasChildren(s.links, t)
  }

  lemma AnySpentIs(rows: Transactions, links: Links, a: Id)
    ensures AnySpent(rows, a) == Spent(rows, links, a) + HiddenSpend(rows, links, a)
  {
    var f, g, h := AnySpendOf(rows, a), EnvelopeSpendOf(rows, links, a), HiddenSpendOf(rows, links, a);
    forall t | t in rows.Keys
      ensures f(t) == g(t) + h(t)
    {
    }
    SumCombine(rows.Keys, f, g, h);
  }

  lemma HiddenSpendSign(s: Ledger, a: Id)
    requires Referential(s)
    ensures HiddenSpend(s.transactions, s.links, a) >= 0
    ensures HiddenSpend(s.transactions, s.links, a) == 0 <==> !HoldsSplitParent(s, a)
  {
    var f := HiddenSpendOf(s.transactions, s.links, a);
    forall t | t in s.transactions.Keys
      ensures f(t) >= 0
      ensures f(t) == 0 <==> !(s.transactions[t].allocation == a && s.transactions[t].kind == Spend
                               && HasChildren(s.links, t))
    {
      assert Filed(s, s.transactions[t]);
    }
    SumNonNegative(s.transactions.Keys, f);
    if HoldsSplitParent(s, a) {
      var t :| t in s.transactions && s.transactions[t].allocation == a && s.transactions[t].kind == Spend
               && HasChildren(s.links, t);
      assert t in s.transactions.Keys && 0 < f(t) <= SumOver(s.transactions.Keys, f);
    } else {
      SumZero(s.transactions.Keys, f);
    }
  }

  /** What is carried over never exceeds what the summary shows as remaining, and equals it exactly when
      nothing remained anyway or the envelope holds no split parent. */
  lemma CarriedOverBounds(s: Ledger, a: Id)
    requires Referential(s) && a in s.allocations
    ensures 0 <= CarriedOver(s, Some(a)) <= NonNegative(Remaining(s, a))
    ensures CarriedOver(s, Some(a)) == NonNegative(Remaining(s, a))
       <==> Remaining(s, a) <= 0 || !HoldsSplitParent(s, a)
  {
    AnySpentIs(s.transactions, s.links, a);
    HiddenSpendSign(s, a);
  }

  /** The envelope a template starts with holds the default plus what was carried over. */
  lemma StartingBudget(s: Ledger, m: MonthKey, now: int, q: Answers, i: nat)
    requires Referential(s) && MonthKeys(s.months) && ValidMonthKey(m) && GoodTemplates(s)
    requires forall t | t in q.templates :: t in s.templates
    requires forall t | t in q.incomeTemplates :: t in s.incomeTemplates
    requires AreAnswers(s, m, q) && i < |q.templates|
    ensures var t := q.templates[i];
      var budget := TemplateRows(s, m, now, q, true).allocations[i].budget;
      var c := budget - s.templates[t].amount;
      && c >= 0
      && (c > 0 ==> s.templates[t].carryForward && q.previous.Some? && t in q.matches)
      && (s.templates[t].carryForward && q.previous.Some? && t in q.matches ==>
            Matches(s, q.previous.value, t, q.matches[t])
            && c == CarriedOver(s, Some(q.matches[t])) <= NonNegative(Remaining(s, q.matches[t])))
  {
    var t := q.templates[i];
    assert t in q.templates;
    if q.previous.Some? && t in q.matches {
      assert IsMatch(s, q.previous.value, t, Some(q.matches[t]));
      CarriedOverBounds(s, q.matches[t]);
    }
  }

  // ----- Preview, then create -----

  function IncomeInputOf(x: IncomeItem): IncomeInput {
    IncomeInput(x.name, x.amount, x.received, x.appliesTo, x.notes)
  }

  function AllocationInputOf(a: Allocation): AllocationInput {
    AllocationInput(a.template, a.name, a.budget, a.kind, a.carryForward, a.sortOrder, Some(a.active), a.defaults)
  }

  /** The request that confirms a preview unchanged. */
  function Confirm(p: Preview): MonthRequest {
    MonthRequest(p.key, p.month.opening, Some(p.month.wallet), false, false,
                 seq(|p.rows.incomes|, i requires 0 <= i < |p.rows.incomes| => IncomeInputOf(p.rows.incomes[i])),
                 seq(|p.rows.allocations|, i requires 0 <= i < |p.rows.allocations| =>
                   AllocationInputOf(p.rows.allocations[i])))
  }

  predicate AllOffered(s: Ledger, ids: seq<Id>) {
    forall c | c in ids :: OfferedCategory(s, c)
  }

  /** Distinct default categories pass the check exactly when each is still offered. */
  lemma {:induction false} DefaultsPassIff(s: Ledger, ids: seq<Id>, kept: seq<Id>)
    requires Distinct(kept + ids)
    ensures CheckDefaults(s, ids, kept)
         == if AllOffered(s, ids) then Success(kept + ids) else Failure(DefaultCategoryMissing)
    decreases |ids|
  {
    if ids == [] {
      assert kept + ids == kept;
    } else {
      var x := ids[0];
      assert x !in kept by {
        assert (kept + ids)[|kept|] == x;
        assert forall i | 0 <= i < |kept| :: kept[i] == (kept + ids)[i];
      }
      assert kept + [x] + ids[1..] == kept + ids;
      assert ids == [x] + ids[1..];
      if OfferedCategory(s, x) {
        DefaultsPassIff(s, ids[1..], kept + [x]);
      }
    }
  }

  lemma TemplateIncomePasses(s: Ledger, m: MonthKey, t: Id)
    requires ValidMonthKey(m) && GoodTemplates(s) && t in s.incomeTemplates
    ensures CheckIncome(m, IncomeInputOf(TemplateIncome(s, m, t))) == Success(TemplateIncome(s, m, t))
  {
    var x := TemplateIncome(s, m, t);
    TrimFacts(x.name);
    ValidKeysAreTrimmed(m);
    if x.received.Some? {
      ValidKeysAreTrimmed(x.received.value);
    }
  }

  lemma TemplateAllocationPassesIff(s: Ledger, m: MonthKey, now: int, q: Answers, carryForward: bool, t: Id)
    requires GoodTemplates(s) && t in s.templates
    ensures var a := TemplateAllocation(s, m, now, q, carryForward, t);
      CheckAllocation(s, m, now, AllocationInputOf(a))
      == if AllOffered(s, a.defaults) then Success(a) else Failure(DefaultCategoryMissing)
  {
    var a := TemplateAllocation(s, m, now, q, carryForward, t);
    TrimFacts(a.name);
    NormalizedTypeIsStable(a.kind);
    assert [] + a.defaults == a.defaults;
    DefaultsPassIff(s, a.defaults, []);
  }

  lemma OneMoreIncome(m: MonthKey, inputs: seq<IncomeInput>, items: seq<IncomeItem>, item: IncomeItem)
    requires inputs != [] && CheckIncomes(m, inputs[..|inputs| - 1]) == Success(items)
    requires CheckIncome(m, inputs[|inputs| - 1]) == Success(item)
    ensures CheckIncomes(m, inputs) == Success(items + [item])
  {
  }

  lemma {:induction false} IncomesPass(m: MonthKey, items: seq<IncomeItem>, inputs: seq<IncomeInput>)
    requires |inputs| == |items|
    requires forall i | 0 <= i < |items| :: CheckIncome(m, inputs[i]) == Success(items[i])
    ensures CheckIncomes(m, inputs) == Success(items)
  {
    if items != [] {
      var n := |items| - 1;
      IncomesPass(m, items[..n], inputs[..n]);
      OneMoreIncome(m, inputs, items[..n], items[n]);
      assert items == items[..n] + [items[n]];
    }
  }

  lemma {:induction false} AllocationsPass(s: Ledger, m: MonthKey, now: int, items: seq<Allocation>,
                                           inputs: seq<AllocationInput>)
    requires |inputs| == |items|
    requires forall i | 0 <= i < |items| :: CheckAllocation(s, m, now, inputs[i]) == Success(items[i])
    ensures CheckAllocations(s, m, now, inputs) == Success(items)
  {
    if items != [] {
      var n := |items| - 1;
      var before, given := items[..n], inputs[..n];
      assert forall i | 0 <= i < n :: before[i] == items[i] && given[i] == inputs[i];
      AllocationsPass(s, m, now, before, given);
      assert items == before + [items[n]];
    }
  }

  lemma {:induction false} AllocationsFail(s: Ledger, m: MonthKey, now: int, inputs: seq<AllocationInput>,
                                           k: nat, e: Error)
    requires k < |inputs| && CheckAllocation(s, m, now, inputs[k]).Failure?
    requires forall i | 0 <= i < |inputs| && CheckAllocation(s, m, now, inputs[i]).Failure? ::
      CheckAllocation(s, m, now, inputs[i]).error == e
    ensures CheckAllocations(s, m, now, inputs) == Failure(e)
  {
    var n := |inputs| - 1;
    var init := inputs[..n];
    if k < n {
      assert init[k] == inputs[k];
      AllocationsFail(s, m, now, init, k, e);
    } else if CheckAllocations(s, m, now, init).Failure? {
      FirstFailure(s, m, now, init, e);
    }
  }

  lemma {:induction false} FirstFailure(s: Ledger, m: MonthKey, now: int, inputs: seq<AllocationInput>, e: Error)
    requires CheckAllocations(s, m, now, inputs).Failure?
    requires forall i | 0 <= i < |inputs| && CheckAllocation(s, m, now, inputs[i]).Failure? ::
      CheckAllocation(s, m, now, inputs[i]).error == e
    ensures CheckAllocations(s, m, now, inputs) == Failure(e)
  {
    var n := |inputs| - 1;
    if CheckAllocations(s, m, now, inputs[..n]).Failure? {
      FirstFailure(s, m, now, inputs[..n], e);
    }
  }

  /** Whether every active template's default categories are still active and visible. */
  ghost predicate DefaultsOffered(s: Ledger, q: Answers) {
    forall i | 0 <= i < |q.templates| ::
      q.templates[i] in s.templates && AllOffered(s, s.templates[q.templates[i]].defaults)
  }

  lemma IncomeRowsPass(s: Ledger, m: MonthKey, now: int, q: Answers, carryForward: bool, inputs: seq<IncomeInput>)
    requires ValidMonthKey(m) && GoodTemplates(s)
    requires forall t | t in q.templates :: t in s.templates
    requires forall t | t in q.incomeTemplates :: t in s.incomeTemplates
    requires var items := TemplateRows(s, m, now, q, carryForward).incomes;
      |inputs| == |items| && forall i | 0 <= i < |items| :: inputs[i] == IncomeInputOf(items[i])
    ensures CheckIncomes(m, inputs) == Success(TemplateRows(s, m, now, q, carryForward).incomes)
  {
    var items := TemplateRows(s, m, now, q, carryForward).incomes;
    forall i | 0 <= i < |items|
      ensures CheckIncome(m, inputs[i]) == Success(items[i])
    {
      assert q.incomeTemplates[i] in q.incomeTemplates;
      TemplateIncomePasses(s, m, q.incomeTemplates[i]);
    }
    IncomesPass(m, items, inputs);
  }

  lemma AllocationRowsPassIff(s: Ledger, m: MonthKey, now: int, q: Answers, carryForward: bool,
                              inputs: seq<AllocationInput>)
    requires ValidMonthKey(m) && GoodTemplates(s)
    requires forall t | t in q.templates :: t in s.templates
    requires forall t | t in q.incomeTemplates :: t in s.incomeTemplates
    requires var items := TemplateRows(s, m, now, q, carryForward).allocations;
      |inputs| == |items| && forall i | 0 <= i < |items| :: inputs[i] == AllocationInputOf(items[i])
    ensures CheckAllocations(s, m, now, inputs)
         == if DefaultsOffered(s, q) then Success(TemplateRows(s, m, now, q, carryForward).allocations)
            else Failure(DefaultCategoryMissing)
  {
    var items := TemplateRows(s, m, now, q, carryForward).allocations;
    forall i | 0 <= i < |items|
      ensures q.templates[i] in s.templates
      ensures AllOffered(s, s.templates[q.templates[i]].defaults) ==>
        CheckAllocation(s, m, now, inputs[i]) == Success(items[i])
      ensures !AllOffered(s, s.templates[q.templates[i]].defaults) ==>
        CheckAllocation(s, m, now, inputs[i]) == Failure(DefaultCategoryMissing)
    {
      assert q.templates[i] in q.templates;
      TemplateAllocationPassesIff(s, m, now, q, carryForward, q.templates[i]);
    }
    if DefaultsOffered(s, q) {
      AllocationsPass(s, m, now, items, inputs);
    } else {
      var k :| 0 <= k < |q.templates| && !AllOffered(s, s.templates[q.templates[k]].defaults);
      AllocationsFail(s, m, now, inputs, k, DefaultCategoryMissing);
    }
  }

  /** Confirming a preview of the templates is accepted exactly when their default categories are still
      offered, and then prepares the same month and the same rows. */
  lemma ConfirmedPreviewIs(s: Ledger, now: int, req: MonthRequest, q: Answers)
    requires MonthKeys(s.months) && GoodTemplates(s)
    requires forall t | t in q.templates :: t in s.templates
    requires forall t | t in q.incomeTemplates :: t in s.incomeTemplates
    requires req.useTemplates && req.incomes == [] && req.allocations == []
    requires PreviewMonth(s, now, req, q).Success?
    ensures var p := PreviewMonth(s, now, req, q).value;
      PreviewMonth(s, now, Confirm(p), q)
      == if DefaultsOffered(s, q) then Success(p) else Failure(DefaultCategoryMissing)
  {
    var p := PreviewMonth(s, now, req, q).value;
    ValidKeysAreTrimmed(p.key);
    ConfirmedRowsAre(s, now, req.carryForward, q, p);
  }

  lemma ConfirmedRowsAre(s: Ledger, now: int, carryForward: bool, q: Answers, p: Preview)
    requires ValidMonthKey(p.key) && GoodTemplates(s)
    requires forall t | t in q.templates :: t in s.templates
    requires forall t | t in q.incomeTemplates :: t in s.incomeTemplates
    requires p.rows == TemplateRows(s, p.key, now, q, carryForward)
    ensures PreparedRows(s, p.key, now, Confirm(p), q)
         == if DefaultsOffered(s, q) then Success(p.rows) else Failure(DefaultCategoryMissing)
  {
    IncomeRowsPass(s, p.key, now, q, carryForward, Confirm(p).incomes);
    AllocationRowsPassIff(s, p.key, now, q, carryForward, Confirm(p).allocations);
    if |p.rows.incomes| == 0 && |p.rows.allocations| == 0 {
      assert Confirm(p).incomes == [] && Confirm(p).allocations == [];
      assert DefaultsOffered(s, q);
    }
  }

  /** Previewing and then confirming creates exactly the month that creating from templates creates. */
  lemma PreviewThenCreate(s: Ledger, now: int, req: MonthRequest, q: Answers,
                          incomeIds: seq<Id>, allocationIds: seq<Id>)
    requires MonthKeys(s.months) && GoodTemplates(s) && DefaultsOffered(s, q)
    requires forall t | t in q.templates :: t in s.templates
    requires forall t | t in q.incomeTemplates :: t in s.incomeTemplates
    requires req.useTemplates && req.incomes == [] && req.allocations == []
    requires PreviewMonth(s, now, req, q).Success?
    requires IdsFit(PreviewMonth(s, now, req, q), incomeIds, allocationIds)
    ensures var p := PreviewMonth(s, now, req, q).value;
      && IdsFit(PreviewMonth(s, now, Confirm(p), q), incomeIds, allocationIds)
      && CreateMonth(s, Confirm(p), q, now, incomeIds, allocationIds)
         == CreateMonth(s, req, q, now, incomeIds, allocationIds)
  {
    ConfirmedPreviewIs(s, now, req, q);
  }
}
