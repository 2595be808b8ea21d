/** Preparing a month's rows: the loops behind the preview and the creation of a month. */
module Preparation {
  import opened Wrappers
  import opened Text
  import opened Calendar
  import opened Validation
  import opened Ledger
  import opened MonthRows
  import opened Summary

  // ----- Queries -----

  /** previousWalletMonthID. */
  method PreviousMonth(s: Ledger, key: MonthKey) returns (previous: Option<MonthKey>)
    ensures IsPrevious(s, key, previous)
  {
    previous := None;
    var todo := s.months.Keys;
    while todo != {}
      invariant todo <= s.months.Keys
      invariant previous.Some? ==> previous.value in s.months && Less(previous.value, key)
      invariant forall x | x in s.months && x !in todo && Less(x, key) ::
        previous.Some? && !Less(previous.value, x)
      decreases |todo|
    {
      var m := Pick(todo);
      todo := todo - {m};
      if Less(m, key) && (previous.None? || Less(previous.value, m)) {
        if previous.Some? {
          NothingBetween(s, key, todo, previous.value, m);
        }
        LessIrreflexive(m);
        previous := Some(m);
      }
    }
  }

  lemma NothingBetween(s: Ledger, key: MonthKey, todo: set<MonthKey>, p: MonthKey, m: MonthKey)
    requires forall x | x in s.months && x !in todo && x != m && Less(x, key) :: !Less(p, x)
    requires Less(p, m)
    ensures forall x | x in s.months && x !in todo && x != m && Less(x, key) :: !Less(m, x)
  {
    forall x | x in s.months && x !in todo && x != m && Less(x, key)
      ensures !Less(m, x)
    {
      if Less(m, x) {
        LessTransitive(p, m, x);
      }
    }
  }

  /** The envelope of the previous month that stands for a template. */
  method FindMatch(s: Ledger, m: MonthKey, t: Id) returns (pick: Option<Id>)
    requires t in s.templates
    ensures IsMatch(s, m, t, pick)
  {
    pick := None;
    var todo := s.allocations.Keys;
    while todo != {}
      invariant todo <= s.allocations.Keys
      invariant pick.Some? ==> Matches(s, m, t, pick.value)
      invariant pick.None? ==> forall a | a in s.allocations && a !in todo :: !Matches(s, m, t, a)
      invariant pick.Some? && s.allocations[pick.value].template != Some(t) ==>
        forall b | b in s.allocations && b !in todo && Matches(s, m, t, b) :: s.allocations[b].template != Some(t)
      decreases |todo|
    {
      var a := Pick(todo);
      todo := todo - {a};
      if Matches(s, m, t, a) && (pick.None? || s.allocations[a].template == Some(t)) {
        pick := Some(a);
      }
    }
  }

  /** previousAllocationRemaining. */
  method PreviousRemaining(s: Ledger, m: MonthKey, t: Id) returns (remaining: nat, ghost pick: Option<Id>)
    requires t in s.templates
    ensures IsMatch(s, m, t, pick) && remaining == CarriedOver(s, pick)
  {
    var found := FindMatch(s, m, t);
    pick := found;
    if found.None? { return 0, pick; }
    var spent := Sum(s.transactions.Keys, AnySpendOf(s.transactions, found.value));
    var left := s.allocations[found.value].budget - spent;
    if left < 0 { return 0, pick; }
    remaining := left;
  }

  lemma SomeMatch(s: Ledger, m: MonthKey, t: Id) returns (pick: Option<Id>)
    requires t in s.templates
    ensures IsMatch(s, m, t, pick)
  {
    if a :| a in s.allocations && Matches(s, m, t, a) && s.allocations[a].template == Some(t) {
      return Some(a);
    }
    if a :| a in s.allocations && Matches(s, m, t, a) {
      return Some(a);
    }
    return None;
  }

  // ----- Rows from templates -----

  ghost function Answered(matches: map<Id, Id>, t: Id, pick: Option<Id>): map<Id, Id> {
    if pick.Some? then matches[t := pick.value] else matches
  }

  /** The amount a template starts with, and the envelope the carry-forward query picked. */
  method StartingAmount(s: Ledger, t: Id, carryForward: bool, previous: Option<MonthKey>, ghost q: Answers)
    returns (amount: int, ghost pick: Option<Id>)
    requires t in s.templates && t !in q.matches && q.previous == previous
    ensures previous.Some? ==> IsMatch(s, previous.value, t, pick)
    ensures amount == TemplateBudget(s, q.(matches := Answered(q.matches, t, pick)), carryForward, t)
  {
    pick := None;
    amount := s.templates[t].amount;
    if carryForward && s.templates[t].carryForward && previous.Some? {
      var remaining;
      remaining, pick := PreviousRemaining(s, previous.value, t);
      if remaining > 0 {
        amount := amount + remaining;
      }
    } else if previous.Some? {
      pick := SomeMatch(s, previous.value, t);
    }
  }

  /** The envelope rows for some of the templates, given what the queries answered. */
  ghost predicate AllocationsFrom(s: Ledger, m: MonthKey, now: int, q: Answers, carryForward: bool,
                                  rows: seq<Allocation>) {
    && |rows| <= |q.templates|
    && forall j | 0 <= j < |rows| ::
         q.templates[j] in s.templates && rows[j] == TemplateAllocation(s, m, now, q, carryForward, q.templates[j])
  }

  /** The answers for one template do not depend on those for another. */
  lemma OtherAnswers(s: Ledger, m: MonthKey, now: int, q: Answers, carryForward: bool, rows: seq<Allocation>,
                     t: Id, pick: Option<Id>)
    requires AllocationsFrom(s, m, now, q, carryForward, rows) && t !in q.templates[..|rows|]
    ensures AllocationsFrom(s, m, now, q.(matches := Answered(q.matches, t, pick)), carryForward, rows)
  {
    assert forall j | 0 <= j < |rows| :: q.templates[j] in q.templates[..|rows|];
  }

  ghost predicate Matched(s: Ledger, q: Answers, n: nat) {
    && n <= |q.templates|
    && (forall t | t in q.matches :: t in q.templates[..n])
    && (q.previous.Some? ==> forall t | t in q.templates[..n] && t in s.templates ::
          IsMatch(s, q.previous.value, t, if t in q.matches then Some(q.matches[t]) else None))
  }

  lemma MatchedOneMore(s: Ledger, q: Answers, n: nat, pick: Option<Id>)
    requires Matched(s, q, n) && n < |q.templates| && q.templates[n] !in q.templates[..n]
    requires q.templates[n] in s.templates
    requires q.previous.Some? ==> IsMatch(s, q.previous.value, q.templates[n], pick)
    ensures Matched(s, q.(matches := Answered(q.matches, q.templates[n], pick)), n + 1)
  {
    assert q.templates[..n + 1] == q.templates[..n] + [q.templates[n]];
  }

  /** templatePreviewRows, the envelopes. */
  method TemplateAllocations(s: Ledger, m: MonthKey, now: int, carryForward: bool, templates: seq<Id>,
                             ghost incomeTemplates: seq<Id>)
    returns (rows: seq<Allocation>, ghost q: Answers)
    requires IsListing(s, templates)
    ensures q.templates == templates && q.incomeTemplates == incomeTemplates
    ensures IsPrevious(s, m, q.previous) && Matched(s, q, |templates|)
    ensures |rows| == |templates| && AllocationsFrom(s, m, now, q, carryForward, rows)
  {
    var previous := PreviousMonth(s, m);
    rows := [];
    q := Answers(templates, incomeTemplates, previous, map[]);
    for i := 0 to |templates|
      invariant q.templates == templates && q.incomeTemplates == incomeTemplates && q.previous == previous
      invariant |rows| == i && AllocationsFrom(s, m, now, q, carryForward, rows)
      invariant Matched(s, q, i)
    {
      var t := templates[i];
      assert t in templates;
      assert t !in templates[..i];
      ghost var pick;
      var amount;
      amount, pick := StartingAmount(s, t, carryForward, previous, q);
      OtherAnswers(s, m, now, q, carryForward, rows, t, pick);
      MatchedOneMore(s, q, i, pick);
      q := q.(matches := Answered(q.matches, t, pick));
      var x := s.templates[t];
      rows := rows + [Allocation(m, Some(t), x.name, amount, x.kind, x.carryForward,
                         x.sortOrder, true, x.defaults, now)];
    }
  }

  /** templatePreviewRows, the incomes. */
  method TemplateIncomes(s: Ledger, m: MonthKey, incomeTemplates: seq<Id>) returns (rows: seq<IncomeItem>)
    requires ValidMonthKey(m) && GoodTemplates(s)
    requires forall t | t in incomeTemplates :: t in s.incomeTemplates
    ensures |rows| == |incomeTemplates|
    ensures forall j | 0 <= j < |rows| ::
      incomeTemplates[j] in s.incomeTemplates && rows[j] == TemplateIncome(s, m, incomeTemplates[j])
  {
    rows := [];
    for i := 0 to |incomeTemplates|
      invariant |rows| == i
      invariant forall j | 0 <= j < i ::
        incomeTemplates[j] in s.incomeTemplates && rows[j] == TemplateIncome(s, m, incomeTemplates[j])
    {
      assert incomeTemplates[i] in incomeTemplates;
      rows := rows + [TemplateIncome(s, m, incomeTemplates[i])];
    }
  }

  // ----- Rows as reviewed -----

  /** sanitizeDefaultCategoryIDs. */
  method SanitizeDefaults(s: Ledger, ids: seq<Id>) returns (r: Result<seq<Id>, Error>)
    ensures r == CheckDefaults(s, ids, [])
  {
    var seen: set<Id> := {};
    var out: seq<Id> := [];
    assert ids[0..] == ids;
    for i := 0 to |ids|
      invariant forall c :: c in seen <==> c in out
      invariant CheckDefaults(s, ids, []) == CheckDefaults(s, ids[i..], out)
    {
      assert ids[i..][1..] == ids[i + 1..];
      if ids[i] in seen { continue; }
      if !OfferedCategory(s, ids[i]) { return Failure(DefaultCategoryMissing); }
      seen := seen + {ids[i]};
      out := out + [ids[i]];
    }
    r := Success(out);
  }

  method SanitizeAllocation(s: Ledger, m: MonthKey, now: int, input: AllocationInput)
    returns (r: Result<Allocation, Error>)
    ensures r == CheckAllocation(s, m, now, input)
  {
    var name :- RequireName(input.name);
    if input.budget < 0 { return Failure(AmountNegative); }
    if input.template.Some? && input.template.value !in s.templates { return Failure(TemplateMissing); }
    var defaults :- SanitizeDefaults(s, input.defaults);
    var active := true;
    if input.active.Some? { active := input.active.value; }
    r := Success(Allocation(m, input.template, name, input.budget, NormalizeAllocationType(input.kind),
                            input.carryForward, input.sortOrder, active, defaults, now));
  }

  /** reviewedPreviewRows, the incomes. */
  method ReviewedIncomes(m: MonthKey, inputs: seq<IncomeInput>) returns (r: Result<seq<IncomeItem>, Error>)
    ensures r == CheckIncomes(m, inputs)
  {
    var items: seq<IncomeItem> := [];
    for i := 0 to |inputs|
      invariant CheckIncomes(m, inputs[..i]) == Success(items)
    {
      assert inputs[..i + 1][..i] == inputs[..i];
      var item := CheckIncome(m, inputs[i]);
      if item.Failure? {
        FirstBadIncome(m, inputs, i + 1);
        return Failure(item.error);
      }
      items := items + [item.value];
    }
    assert inputs[..|inputs|] == inputs;
    r := Success(items);
  }

  lemma {:induction false} FirstBadIncome(m: MonthKey, inputs: seq<IncomeInput>, n: nat)
    requires 0 < n <= |inputs| && CheckIncomes(m, inputs[..n]).Failure?
    ensures CheckIncomes(m, inputs) == CheckIncomes(m, inputs[..n])
    decreases |inputs| - n
  {
    if n < |inputs| {
      assert inputs[..n + 1][..n] == inputs[..n];
      FirstBadIncome(m, inputs, n + 1);
    } else {
      assert inputs[..n] == inputs;
    }
  }

  /** reviewedPreviewRows, the envelopes. */
  method ReviewedAllocations(s: Ledger, m: MonthKey, now: int, inputs: seq<AllocationInput>)
    returns (r: Result<seq<Allocation>, Error>)
    ensures r == CheckAllocations(s, m, now, inputs)
  {
    var items: seq<Allocation> := [];
    for i := 0 to |inputs|
      invariant CheckAllocations(s, m, now, inputs[..i]) == Success(items)
    {
      OneMoreAllocation(s, m, now, inputs, i, items);
      var item := SanitizeAllocation(s, m, now, inputs[i]);
      if item.Failure? {
        FirstBadAllocation(s, m, now, inputs, i + 1);
        return Failure(item.error);
      }
      items := items + [item.value];
    }
    assert inputs[..|inputs|] == inputs;
    r := Success(items);
  }

  lemma OneMoreAllocation(s: Ledger, m: MonthKey, now: int, inputs: seq<AllocationInput>, i: nat,
                          items: seq<Allocation>)
    requires i < |inputs| && CheckAllocations(s, m, now, inputs[..i]) == Success(items)
    ensures var item := CheckAllocation(s, m, now, inputs[i]);
      CheckAllocations(s, m, now, inputs[..i + 1])
      == if item.Success? then Success(items + [item.value]) else Failure(item.error)
  {
    assert inputs[..i + 1][..i] == inputs[..i];
  }

  lemma {:induction false} FirstBadAllocation(s: Ledger, m: MonthKey, now: int, inputs: seq<AllocationInput>, n: nat)
    requires 0 < n <= |inputs| && CheckAllocations(s, m, now, inputs[..n]).Failure?
    ensures CheckAllocations(s, m, now, inputs) == CheckAllocations(s, m, now, inputs[..n])
    decreases |inputs| - n
  {
    if n < |inputs| {
      assert inputs[..n + 1][..n] == inputs[..n];
      FirstBadAllocation(s, m, now, inputs, n + 1);
    } else {
      assert inputs[..n] == inputs;
    }
  }

  // ----- The preview -----

  /** preparedMonthRows. */
  method Prepare(s: Ledger, m: MonthKey, now: int, req: MonthRequest, templates: seq<Id>, incomeTemplates: seq<Id>)
    returns (r: Result<Rows, Error>, ghost q: Answers)
    requires ValidMonthKey(m) && GoodTemplates(s)
    requires IsListing(s, templates) && IsIncomeListing(s, incomeTemplates)
    ensures q.templates == templates && q.incomeTemplates == incomeTemplates
    ensures UsesTemplates(req) ==> AreAnswers(s, m, q)
    ensures r == PreparedRows(s, m, now, req, q)
  {
    q := Answers(templates, incomeTemplates, None, map[]);
    if |req.incomes| > 0 || |req.allocations| > 0 {
      var incomes := ReviewedIncomes(m, req.incomes);
      if incomes.Failure? { return Failure(incomes.error), q; }
      var allocations := ReviewedAllocations(s, m, now, req.allocations);
      if allocations.Failure? { return Failure(allocations.error), q; }
      return Success(Rows(incomes.value, allocations.value)), q;
    }
    if req.useTemplates {
      var allocations, answers := TemplateAllocations(s, m, now, req.carryForward, templates, incomeTemplates);
      q := answers;
      assert templates[..|templates|] == templates;
      var incomes := TemplateIncomes(s, m, incomeTemplates);
      var rows := Rows(incomes, allocations);
      assert rows.incomes == TemplateRows(s, m, now, q, req.carryForward).incomes;
      assert rows.allocations == TemplateRows(s, m, now, q, req.carryForward).allocations;
      return Success(rows), q;
    }
    r := Success(Rows([], []));
  }

  /** applyInitialWalletBalance. */
  method ApplyInitialWallet(req: MonthRequest, items: seq<IncomeItem>) returns (wallet: int)
    ensures wallet == InitialWallet(req, items)
  {
    if req.wallet.Some? { return req.wallet.value; }
    var incomeTotal := 0;
    for i := 0 to |items|
      invariant incomeTotal == RowTotal(items[..i])
    {
      assert items[..i + 1][..i] == items[..i];
      incomeTotal := incomeTotal + items[i].amount;
    }
    assert items[..|items|] == items;
    wallet := req.opening + incomeTotal;
  }

  /** PreviewMonth. */
  method Preview(s: Ledger, now: int, req: MonthRequest, templates: seq<Id>, incomeTemplates: seq<Id>)
    returns (r: Result<Preview, Error>, ghost q: Answers)
    requires GoodTemplates(s) && IsListing(s, templates) && IsIncomeListing(s, incomeTemplates)
    ensures q.templates == templates && q.incomeTemplates == incomeTemplates
    ensures UsesTemplates(req) && r.Success? ==> AreAnswers(s, r.value.key, q)
    ensures r == PreviewMonth(s, now, req, q)
  {
    q := Answers(templates, incomeTemplates, None, map[]);
    var key := ParseMonth(req.month);
    if key.Failure? { return Failure(key.error), q; }
    if key.value in s.months { return Failure(MonthExists), q; }
    var rows, answers := Prepare(s, key.value, now, req, templates, incomeTemplates);
    q := answers;
    if rows.Failure? { return Failure(rows.error), q; }
    var wallet := ApplyInitialWallet(req, rows.value.incomes);
    r := Success(MonthRows.Preview(key.value, Month(req.opening, wallet, Open, None), rows.value));
  }
}
