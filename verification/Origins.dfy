/** Where split parents come from: manual spends, as long as no envelope deletion leaves the child of a
    deleted parent behind. */
module Origins {
  import opened Ledger
  import opened LedgerOps
  import opened LedgerRuns
  import opened Conservation
  import opened Splits

  /** No row is the system's own, and every split row still has its parent. */
  ghost predicate Sourced(s: Ledger) {
    forall t | t in s.transactions :: WellSourced(s.transactions[t])
  }

  predicate WellSourced(x: Transaction) {
    x.source != System && (x.source == Split ==> x.parent.Some?)
  }

  /** A child filed outside the envelope whose parent is filed in it. */
  ghost predicate LeavesStray(s: Ledger, a: Id) {
    exists c | c in s.links && c in s.transactions && s.links[c] in s.transactions ::
      s.transactions[c].allocation != a && s.transactions[s.links[c]].allocation == a
  }

  /** The step deletes an envelope from under such a child. */
  ghost predicate Strays(s: Ledger, op: Op) {
    op.OpDeleteAllocation? && DeleteAllocation(s, op.id).Success? && LeavesStray(s, op.id)
  }

  lemma ParentsAreManual(s: Ledger)
    requires Valid(s) && Sourced(s)
    ensures forall c | c in s.links :: s.links[c] in s.transactions && s.transactions[s.links[c]].source == Manual
  {
    forall c | c in s.links
      ensures s.links[c] in s.transactions && s.transactions[s.links[c]].source == Manual
    {
      assert Linked(s.transactions[c], s.links[c], s.transactions[s.links[c]]);
      assert WellSourced(s.transactions[s.links[c]]);
    }
  }

  // ----- Removals -----

  /** Removing rows leaves a stray exactly when it parts a child from its parent. */
  lemma RemovalIsSourcedIff(s: Ledger, gone: set<Id>)
    requires Forest(s.transactions, s.links) && Sourced(s)
    ensures Sourced(RemoveTransactions(s, gone)) <==> forall c | c in s.links && c !in gone :: s.links[c] !in gone
  {
    var s' := RemoveTransactions(s, gone);
    if c :| c in s.links && c !in gone && s.links[c] in gone {
      assert Linked(s.transactions[c], s.links[c], s.transactions[s.links[c]]);
      assert !WellSourced(s'.transactions[c]);
    } else {
      forall t | t in s'.transactions
        ensures WellSourced(s'.transactions[t])
      {
        assert IsChild(s.transactions, t) ==> t in s.links && s.links[t] == s.transactions[t].parent.value;
        assert WellSourced(s.transactions[t]);
      }
    }
  }

  lemma DeleteAllocationIsSourcedIff(s: Ledger, a: Id)
    requires Valid(s) && Sourced(s) && DeleteAllocation(s, a).Success?
    ensures Sourced(DeleteAllocation(s, a).value) <==> !LeavesStray(s, a)
  {
    var gone := set t | t in s.transactions && s.transactions[t].allocation == a;
    assert forall c | c in s.links :: c in s.transactions && s.links[c] in s.transactions;
    RemovalIsSourcedIff(s, gone);
  }

  lemma DeleteMonthIsSourced(s: Ledger, key: string)
    requires Valid(s) && Sourced(s) && DeleteMonth(s, key).Success?
    ensures Sourced(DeleteMonth(s, key).value)
  {
    var m := FindMonth(s, key).value;
    var gone := RowsOfMonth(s, m);
    forall c | c in s.links && c !in gone
      ensures s.links[c] !in gone
    {
      assert Linked(s.transactions[c], s.links[c], s.transactions[s.links[c]]);
      assert Filed(s, s.transactions[c]) && Filed(s, s.transactions[s.links[c]]);
    }
    RemovalIsSourcedIff(s, gone);
  }

  lemma DeleteTransactionIsSourced(s: Ledger, id: Id)
    requires Valid(s) && Sourced(s) && DeleteTransaction(s, id).Success?
    ensures Sourced(DeleteTransaction(s, id).value)
  {
    var gone := Family(s.links, id);
    forall c | c in s.links && c !in gone
      ensures s.links[c] !in gone
    {
      assert Linked(s.transactions[c], s.links[c], s.transactions[s.links[c]]);
      assert s.links[c] !in s.links;
    }
    RemovalIsSourcedIff(s, gone);
  }

  // ----- Writes -----

  lemma WriteIsSourced(s: Ledger, op: Op)
    requires Sound(s) && Sourced(s) && Ready(s, op) && (op.OpCreateTransaction? || op.OpUpdateTransaction?)
    ensures Sourced(Next(s, op))
  {
    if op.OpUpdateTransaction? && op.id in s.transactions {
      assert WellSourced(s.transactions[op.id]);
    }
  }

  lemma BalanceUpdateIsSourced(s: Ledger, op: Op)
    requires Sound(s) && Sourced(s) && Ready(s, op) && op.OpBalanceUpdate?
    ensures Sourced(Next(s, op))
  {
  }

  lemma SplitIsSourced(s: Ledger, id: Id, rows: seq<TransactionInput>, ids: seq<Id>)
    requires Valid(s) && Sourced(s) && |ids| == |rows| && AllNew(ids, s.transactions)
    requires SplitTransaction(s, id, rows, ids).Success?
    ensures Sourced(SplitTransaction(s, id, rows, ids).value)
  {
    var children := CheckSplitRows(s, id, rows).value;
    SplitParts(s, id, rows, ids);
    var s' := WithChildren(s, id, ids, children);
    forall t | t in s'.transactions
      ensures WellSourced(s'.transactions[t])
    {
      if t in ids {
        InsertedChild(s, id, ids, children, t);
        assert GoodChild(s, id, s'.transactions[t]);
      } else {
        assert WellSourced(s.transactions[t]);
      }
    }
  }

  lemma RowStepIsSourced(s: Ledger, op: Op)
    requires Sound(s) && Sourced(s) && Ready(s, op) && ChangesRows(op)
    ensures Sourced(Next(s, op))
  {
    if op.OpBalanceUpdate? {
      BalanceUpdateIsSourced(s, op);
    } else if op.OpCreateTransaction? || op.OpUpdateTransaction? {
      WriteIsSourced(s, op);
    } else if Attempt(s, op).Success? {
      if op.OpSplitTransaction? {
        SplitIsSourced(s, op.id, op.rows, op.ids);
      } else {
        DeleteTransactionIsSourced(s, op.id);
      }
    }
  }

  // ----- Steps and runs -----

  /** A step leaves a split row without its parent exactly when it deletes the envelope of a parent and not
      that of all its children. */
  lemma StepIsSourcedIff(s: Ledger, op: Op)
    requires Sound(s) && Sourced(s) && Ready(s, op)
    ensures Sourced(Next(s, op)) <==> !Strays(s, op)
  {
    if ChangesRows(op) {
      RowStepIsSourced(s, op);
    } else if op.OpDeleteMonth? {
      if Attempt(s, op).Success? { DeleteMonthIsSourced(s, op.key); }
    } else if op.OpDeleteAllocation? {
      if Attempt(s, op).Success? { DeleteAllocationIsSourcedIff(s, op.id); }
    } else {
      OtherStepsLeaveRows(s, op);
    }
  }

  /** Along a run without such a step every split row has its parent, and every parent is a manual spend. */
  lemma {:induction false} ReachableParentsAreManual(s: Ledger, ops: seq<Op>, s': Ledger)
    requires Sound(s) && Sourced(s) && Run(s, ops, s') && Never(Strays, s, ops)
    ensures Sourced(s')
    ensures forall c | c in s'.links ::
      && s'.links[c] in s'.transactions
      && s'.transactions[s'.links[c]].source == Manual && s'.transactions[s'.links[c]].kind == Spend
    decreases |ops|
  {
    if ops == [] {
      ParentsAreManual(s);
      assert forall c | c in s.links :: Linked(s.transactions[c], s.links[c], s.transactions[s.links[c]]);
    } else {
      StepIsSourcedIff(s, ops[0]);
      StepKeepsSound(s, ops[0]);
      ReachableParentsAreManual(Next(s, ops[0]), ops[1..], s');
    }
  }

  lemma ParentsAreManualWithoutEnvelopeDeletions(s: Ledger, ops: seq<Op>, s': Ledger)
    requires Sound(s) && Sourced(s) && Run(s, ops, s')
    requires forall op | op in ops :: !op.OpDeleteAllocation?
    ensures forall c | c in s'.links :: s'.links[c] in s'.transactions && s'.transactions[s'.links[c]].source == Manual
  {
    NeverWithoutEnvelopeDeletions(Strays, s, ops);
    ReachableParentsAreManual(s, ops, s');
  }

  // ----- Splitting a stray -----

  /** A split row without parent passes every check on the row, whatever it was split from. */
  lemma StraySplitsAgainIff(s: Ledger, t: Id, rows: seq<TransactionInput>)
    requires Sound(s) && t in s.transactions && s.transactions[t].source == Split && s.transactions[t].parent.None?
    ensures SplitGuard(s, t, rows).Pass? <==>
      && s.transactions[t].kind == Spend
      && s.transactions[t].month in s.months && s.months[s.transactions[t].month].status == Open
      && !HasChildren(s.links, t) && 2 <= |rows| <= 20
  {
  }
}
