/** Closing and reopening a month: what the operations write, and what a closed month refuses. */
module Closing {
  import opened Wrappers
  import opened Text
  import opened Calendar
  import opened Validation
  import opened Ledger
  import opened MonthRows
  import opened LedgerOps
  import opened LedgerRuns
  import opened ClosedMonths

  /** The month a request names: its key, trimmed, is the month's. */
  predicate Names(s: Ledger, key: string, m: MonthKey) {
    Trim(key) == m && ValidMonthKey(m) && m in s.months
  }

  /** Only the record of month m may differ. */
  ghost predicate OnlyMonth(s: Ledger, s': Ledger, m: MonthKey) {
    && s' == s.(months := s'.months)
    && s'.months.Keys == s.months.Keys
    && forall k | k in s.months && k != m :: s'.months[k] == s.months[k]
  }

  // ----- Looking months up -----

  lemma FindMonthIs(s: Ledger, key: string)
    ensures !ValidMonthKey(Trim(key)) ==> FindMonth(s, key) == Failure(BadMonth)
    ensures ValidMonthKey(Trim(key)) && Trim(key) !in s.months ==> FindMonth(s, key) == Failure(NotFound)
    ensures forall m | Names(s, key, m) :: FindMonth(s, key) == Success(m)
  {
  }

  lemma FindOpenMonthIs(s: Ledger, key: string)
    ensures FindMonth(s, key).Failure? ==> FindOpenMonth(s, key) == FindMonth(s, key)
    ensures forall m | Names(s, key, m) && s.months[m].status == Closed :: FindOpenMonth(s, key) == Failure(MonthClosed)
    ensures forall m | Names(s, key, m) && s.months[m].status == Open :: FindOpenMonth(s, key) == Success(m)
  {
  }

  // ----- What the operations write -----

  /** Closing succeeds exactly for a month that exists; the month is closed afterwards, with its wallet as
      snapshot if it was open, and nothing else differs. */
  lemma ClosingIs(s: Ledger, key: string, m: MonthKey)
    requires Names(s, key, m)
    ensures CloseMonth(s, key).Success?
    ensures var s' := CloseMonth(s, key).value;
      && OnlyMonth(s, s', m) && m in s'.months
      && s'.months[m].status == Closed
      && s'.months[m].closedWallet
         == (if s.months[m].status == Closed then s.months[m].closedWallet else Some(s.months[m].wallet))
      && s'.months[m].opening == s.months[m].opening && s'.months[m].wallet == s.months[m].wallet
  {
  }

  /** Reopening ends with an open month without a snapshot. */
  lemma ReopeningIs(s: Ledger, key: string, m: MonthKey)
    requires Names(s, key, m) && Snapshots(s.months)
    ensures ReopenMonth(s, key).Success?
    ensures var s' := ReopenMonth(s, key).value;
      && OnlyMonth(s, s', m) && m in s'.months
      && s'.months[m].status == Open && s'.months[m].closedWallet == None
      && s'.months[m].opening == s.months[m].opening && s'.months[m].wallet == s.months[m].wallet
  {
  }

  /** A month that does not exist can be neither closed nor reopened, nor found. */
  lemma UnknownMonthIsRefused(s: Ledger, key: string)
    requires forall m :: !Names(s, key, m)
    ensures var e := if ValidMonthKey(Trim(key)) then NotFound else BadMonth;
      && CloseMonth(s, key) == Failure(e) && ReopenMonth(s, key) == Failure(e) && DeleteMonth(s, key) == Failure(e)
      && forall opening, wallet :: UpdateMonth(s, key, opening, wallet) == Failure(e)
  {
    assert !Names(s, key, Trim(key));
    FindMonthIs(s, key);
  }

  /** A correction by hand writes the figures given and keeps the others. */
  lemma CorrectionIs(s: Ledger, key: string, opening: Option<int>, wallet: Option<int>, m: MonthKey)
    requires Names(s, key, m) && s.months[m].status == Open
    ensures UpdateMonth(s, key, opening, wallet).Success?
    ensures var s' := UpdateMonth(s, key, opening, wallet).value;
      && OnlyMonth(s, s', m) && m in s'.months
      && s'.months[m].opening == (if opening.Some? then opening.value else s.months[m].opening)
      && s'.months[m].wallet == (if wallet.Some? then wallet.value else s.months[m].wallet)
      && s'.months[m].status == Open && s'.months[m].closedWallet == s.months[m].closedWallet
  {
  }

  // ----- What a closed month refuses -----

  /** An operation on what belongs to the month, other than closing, reopening, deleting or creating it. */
  ghost predicate WorksOn(s: Ledger, op: Op, m: MonthKey) {
    match op
    case OpUpdateMonth(key, _, _) => Trim(key) == m
    case OpCreateIncome(key, _, _) => Trim(key) == m
    case OpUpdateIncome(id, _) => id in s.incomes && s.incomes[id].month == m
    case OpDeleteIncome(id) => id in s.incomes && s.incomes[id].month == m
    case OpCreateAllocation(key, _, _, _) => Trim(key) == m
    case OpUpdateAllocation(id, _) => id in s.allocations && s.allocations[id].month == m
    case OpDeleteAllocation(id) => id in s.allocations && s.allocations[id].month == m
    case OpCreateTransaction(key, _, _, _) => Trim(key) == m
    case OpUpdateTransaction(id, _) => id in s.transactions && s.transactions[id].month == m
    case OpDeleteTransaction(id) => id in s.transactions && s.transactions[id].month == m
    case OpSplitTransaction(id, _, _) => id in s.transactions && s.transactions[id].month == m
    case OpBalanceUpdate(key, _, _, _, _, _, _, _, _) => Trim(key) == m
    case _ => false
  }

  predicate ByKey(op: Op) {
    op.OpUpdateMonth? || op.OpCreateIncome? || op.OpCreateAllocation? || op.OpCreateTransaction? || op.OpBalanceUpdate?
  }

  lemma ClosedKeyIsRefused(s: Ledger, op: Op, m: MonthKey)
    requires Sound(s) && Ready(s, op) && ClosedIn(s, m) && WorksOn(s, op, m) && ByKey(op)
    ensures Attempt(s, op) == Failure(MonthClosed)
  {
    assert ValidMonthKey(m);
    FindOpenMonthIs(s, op.key);
    assert Names(s, op.key, m);
  }

  /** A closed month refuses them all, and says so. */
  lemma ClosedMonthRefuses(s: Ledger, op: Op, m: MonthKey)
    requires Sound(s) && Ready(s, op) && ClosedIn(s, m) && WorksOn(s, op, m)
    ensures Attempt(s, op) == Failure(MonthClosed)
  {
    if ByKey(op) {
      ClosedKeyIsRefused(s, op, m);
    }
  }

  /** From closing on, until the month is reopened or deleted: it is closed, its snapshot is the wallet it had,
      and every operation on what belongs to it is refused. */
  lemma ClosedUntilReopened(s: Ledger, key: string, m: MonthKey, ops: seq<Op>, s': Ledger, op: Op)
    requires Sound(s) && Names(s, key, m) && Run(Next(s, OpCloseMonth(key)), ops, s')
    requires forall o | o in ops :: !Deletes(o, m) && !Reopens(o, m)
    requires GoodTemplates(s') ==> Ready(s', op)
    ensures Sound(s') && ClosedIn(s', m)
    ensures s'.months[m].wallet == s.months[m].wallet && s'.months[m].closedWallet == Some(s.months[m].wallet)
    ensures WorksOn(s', op, m) ==> Attempt(s', op) == Failure(MonthClosed)
  {
    var s1 := Next(s, OpCloseMonth(key));
    ClosingIs(s, key, m);
    StepKeepsSound(s, OpCloseMonth(key));
    ClosedMonthIsFrozen(s1, ops, s', m);
    RunKeepsSound(s1, ops, s');
    if WorksOn(s', op, m) {
      ClosedMonthRefuses(s', op, m);
    }
  }

  /** Reopening the month ends the refusals: a correction of it is accepted again. */
  lemma ReopenedMonthAccepts(s: Ledger, key: string, m: MonthKey, again: string)
    requires Sound(s) && Names(s, key, m) && Trim(again) == m
    ensures var s' := Next(s, OpReopenMonth(key));
      Sound(s') && UpdateMonth(s', again, None, None) == Success(s')
  {
    ReopeningIs(s, key, m);
    StepKeepsSound(s, OpReopenMonth(key));
    var s' := Next(s, OpReopenMonth(key));
    CorrectionIs(s', again, None, None, m);
    assert UpdateMonth(s', again, None, None).value.months == s'.months;
  }
}
