/** Splitting a transaction: what it preserves, what deleting it undoes, and what stays frozen. */
module Splits {
  import opened Wrappers
  import opened Sums
  import opened Ledger
  import opened MonthRows
  import opened LedgerOps
  import opened LedgerRuns
  import opened Conservation

  // ----- A split changes no figure -----

  lemma SplitParts(s: Ledger, id: Id, rows: seq<TransactionInput>, ids: seq<Id>)
    requires Valid(s) && |ids| == |rows| && AllNew(ids, s.transactions)
    requires SplitTransaction(s, id, rows, ids).Success?
    ensures var children := CheckSplitRows(s, id, rows).value;
      var s' := SplitTransaction(s, id, rows, ids).value;
      && s' == WithChildren(s, id, ids, children) && |children| > 0
      && (forall x | x in children :: GoodChild(s, id, x))
      && Children(s'.links, id) == (set c | c in ids) && HasChildren(s'.links, id)
      && ChildrenTotal(s'.transactions, s'.links, id) == s.transactions[id].amount
  {
    var children := CheckSplitRows(s, id, rows).value;
    SplitIs(s, id, rows, ids);
    CheckedRowsAreGood(s, id, rows);
    NewChildren(s, id, ids, children);
    SplitTotal(s, id, ids, children);
  }

  /** The shape of an accepted split. */
  lemma SplitIs(s: Ledger, id: Id, rows: seq<TransactionInput>, ids: seq<Id>)
    requires |ids| == |rows| && SplitTransaction(s, id, rows, ids).Success?
    ensures id in s.transactions && !HasChildren(s.links, id) && CheckSplitRows(s, id, rows).Success?
    ensures 2 <= |CheckSplitRows(s, id, rows).value| == |ids| <= 20
    ensures SplitTransaction(s, id, rows, ids).value == WithChildren(s, id, ids, CheckSplitRows(s, id, rows).value)
  {
    AcceptedSplitIs(s, id, rows, ids);
    GuardIs(s, id, rows);
  }

  lemma AcceptedSplitIs(s: Ledger, id: Id, rows: seq<TransactionInput>, ids: seq<Id>)
    requires |ids| == |rows| && SplitTransaction(s, id, rows, ids).Success?
    ensures SplitGuard(s, id, rows).Pass? && CheckSplitRows(s, id, rows).Success?
    ensures SplitTransaction(s, id, rows, ids).value == WithChildren(s, id, ids, CheckSplitRows(s, id, rows).value)
  {
  }

  lemma GuardIs(s: Ledger, id: Id, rows: seq<TransactionInput>)
    requires SplitGuard(s, id, rows).Pass?
    ensures id in s.transactions && !HasChildren(s.links, id) && 2 <= |rows| <= 20
  {
  }

  lemma IncomeAroundSplit(s: Ledger, p: Id, ids: seq<Id>, children: seq<Transaction>, m: MonthKey)
    requires Forest(s.transactions, s.links) && p in s.transactions && s.transactions[p].kind == Spend
    requires |ids| == |children| && AllNew(ids, s.transactions)
    requires forall x | x in children :: GoodChild(s, p, x)
    ensures var s' := WithChildren(s, p, ids, children);
      IncomeTransactionTotal(s'.transactions, s'.links, m) == IncomeTransactionTotal(s.transactions, s.links, m)
  {
    var s' := WithChildren(s, p, ids, children);
    var f, f' := IncomeOf(s.transactions, s.links, m), IncomeOf(s'.transactions, s'.links, m);
    forall t | t in s'.transactions
      ensures f(t) == f'(t) && (t !in s.transactions ==> f'(t) == 0)
    {
      IncomeRowAroundSplit(s, p, ids, children, m, t);
    }
    SumIgnoresZeros(s.transactions.Keys, s'.transactions.Keys, f, f');
  }

  lemma IncomeRowAroundSplit(s: Ledger, p: Id, ids: seq<Id>, children: seq<Transaction>, m: MonthKey, t: Id)
    requires Forest(s.transactions, s.links) && p in s.transactions && s.transactions[p].kind == Spend
    requires |ids| == |children| && AllNew(ids, s.transactions)
    requires forall x | x in children :: GoodChild(s, p, x)
    requires t in WithChildren(s, p, ids, children).transactions
    ensures var s' := WithChildren(s, p, ids, children);
      var f, f' := IncomeOf(s.transactions, s.links, m), IncomeOf(s'.transactions, s'.links, m);
      f(t) == f'(t) && (t !in s.transactions ==> f'(t) == 0)
  {
    if t in ids {
      InsertedChild(s, p, ids, children, t);
    } else {
      assert forall c | c in s.links :: c !in ids;
      assert forall c | c in s.links :: WithChildren(s, p, ids, children).links[c] == s.links[c];
    }
  }

  lemma FiguresAroundSplit(s: Ledger, p: Id, ids: seq<Id>, children: seq<Transaction>, m: MonthKey)
    requires Valid(s) && p in s.transactions && s.transactions[p].parent.None? && !HasChildren(s.links, p)
    requires s.transactions[p].kind == Spend && m in s.months
    requires |ids| == |children| > 0 && AllNew(ids, s.transactions)
    requires forall x | x in children :: GoodChild(s, p, x)
    requires var s' := WithChildren(s, p, ids, children);
      ChildrenTotal(s'.transactions, s'.links, p) == s.transactions[p].amount
    ensures var s' := WithChildren(s, p, ids, children);
      && MonthSpend(s'.transactions, s'.links, m) == MonthSpend(s.transactions, s.links, m)
      && IncomeTransactionTotal(s'.transactions, s'.links, m) == IncomeTransactionTotal(s.transactions, s.links, m)
  {
    var s' := WithChildren(s, p, ids, children);
    NetOfSplit(s, p, ids, children, m);
    IncomeAroundSplit(s, p, ids, children, m);
    NetIs(s.transactions, s.links, m);
    NetIs(s'.transactions, s'.links, m);
  }

  /** Splitting moves no wallet, no month's spending and no expected balance. */
  lemma SplitPreservesFigures(s: Ledger, id: Id, rows: seq<TransactionInput>, ids: seq<Id>, m: MonthKey)
    requires Valid(s) && |ids| == |rows| && AllNew(ids, s.transactions) && m in s.months
    requires SplitTransaction(s, id, rows, ids).Success?
    ensures var s' := SplitTransaction(s, id, rows, ids).value;
      && s'.months == s.months
      && MonthSpend(s'.transactions, s'.links, m) == MonthSpend(s.transactions, s.links, m)
      && IncomeTransactionTotal(s'.transactions, s'.links, m) == IncomeTransactionTotal(s.transactions, s.links, m)
      && Expected(s', m) == Expected(s, m)
  {
    SplitParts(s, id, rows, ids);
    FiguresAroundSplit(s, id, ids, CheckSplitRows(s, id, rows).value, m);
  }

  // ----- Deleting undoes splitting -----

  /** Nothing points at a row that is no parent. */
  lemma NoOrphans(s: Ledger, gone: set<Id>, t: Id)
    requires Forest(s.transactions, s.links) && t in s.transactions
    requires forall c | c in s.links :: s.links[c] !in gone
    ensures Orphaned(s.transactions[t], gone) == s.transactions[t]
  {
    assert IsChild(s.transactions, t) ==> s.links[t] == s.transactions[t].parent.value;
  }

  lemma RemovalOfChildless(s: Ledger, p: Id)
    requires Forest(s.transactions, s.links) && p in s.transactions && s.transactions[p].parent.None?
    requires !HasChildren(s.links, p)
    ensures RemoveTransactions(s, Family(s.links, p)) == s.(transactions := Drop(s.transactions, {p}))
  {
    assert forall c :: c !in Children(s.links, p);
    assert Family(s.links, p) == {p};
    assert forall c | c in s.links :: s.transactions[c].parent == Some(s.links[c]);
    assert forall c | c in s.links :: c != p && s.links[c] != p;
    var s' := RemoveTransactions(s, {p});
    assert s'.links == s.links;
    forall t | t in s.transactions && t != p
      ensures s'.transactions[t] == s.transactions[t]
    {
      NoOrphans(s, {p}, t);
    }
    assert s'.transactions == Drop(s.transactions, {p});
  }

  lemma RemovalAfterSplit(s: Ledger, p: Id, ids: seq<Id>, children: seq<Transaction>)
    requires Forest(s.transactions, s.links) && p in s.transactions && s.transactions[p].parent.None?
    requires !HasChildren(s.links, p) && |ids| == |children| > 0 && AllNew(ids, s.transactions)
    ensures var s' := WithChildren(s, p, ids, children);
      RemoveTransactions(s', Family(s'.links, p)) == s.(transactions := Drop(s.transactions, {p}))
  {
    var s' := WithChildren(s, p, ids, children);
    NewChildren(s, p, ids, children);
    var gone := Family(s'.links, p);
    assert forall c | c in s.links :: s.transactions[c].parent == Some(s.links[c]) && s.links[c] in s.transactions;
    RemovedLinks(s, p, ids, children, gone);
    RemovedRows(s, p, ids, children, gone);
  }

  lemma RemovedLinks(s: Ledger, p: Id, ids: seq<Id>, children: seq<Transaction>, gone: set<Id>)
    requires |ids| == |children| && AllNew(ids, s.transactions) && gone == (set c | c in ids) + {p}
    requires p !in s.links && forall c | c in s.links :: c in s.transactions && s.links[c] in s.transactions
    requires forall c | c in s.links :: s.links[c] != p
    ensures RemoveTransactions(WithChildren(s, p, ids, children), gone).links == s.links
  {
    assert forall c | c in s.links :: c !in ids && s.links[c] !in ids;
    WithoutNewLinks(s.links, WithChildren(s, p, ids, children).links, gone);
  }

  lemma WithoutNewLinks(links: Links, links': Links, gone: set<Id>)
    requires forall c | c in links :: c in links' && links'[c] == links[c] && c !in gone && links[c] !in gone
    requires forall c | c in links' && c !in links :: c in gone
    ensures Unlinked(links', gone) == links
  {
    var kept := Unlinked(links', gone);
    forall c | c in links
      ensures c in kept && kept[c] == links[c]
    {
    }
    assert forall c | c in kept :: c in links;
  }

  lemma RemovedRows(s: Ledger, p: Id, ids: seq<Id>, children: seq<Transaction>, gone: set<Id>)
    requires |ids| == |children| && AllNew(ids, s.transactions) && gone == (set c | c in ids) + {p}
    requires Forest(s.transactions, s.links) && forall c | c in s.links :: s.links[c] !in gone
    ensures RemoveTransactions(WithChildren(s, p, ids, children), gone).transactions == Drop(s.transactions, {p})
  {
    var r := RemoveTransactions(WithChildren(s, p, ids, children), gone);
    assert r.transactions.Keys == s.transactions.Keys - {p};
    forall t | t in s.transactions && t != p
      ensures r.transactions[t] == s.transactions[t]
    {
      NoOrphans(s, gone, t);
    }
  }

  /** DeleteTransaction in terms of the family of the row. */
  lemma DeletionIs(s: Ledger, id: Id, rest: Ledger, refund: int)
    requires id in s.transactions && s.transactions[id].parent.None? && s.transactions[id].month in s.months
    requires s.months[s.transactions[id].month].status == Open
    requires RemoveTransactions(s, Family(s.links, id)) == rest && rest.months == s.months
    requires refund == if HasChildren(s.links, id) then ChildrenTotal(s.transactions, s.links, id)
                       else DeleteDelta(s.transactions[id].kind, s.transactions[id].amount)
    ensures DeleteTransaction(s, id) == Success(AddWallet(rest, s.transactions[id].month, refund))
  {
  }

  /** Splitting a transaction and then deleting it leaves exactly the ledger that deleting the unsplit
      transaction leaves. */
  lemma DeletingUndoesSplitting(s: Ledger, id: Id, rows: seq<TransactionInput>, ids: seq<Id>)
    requires Valid(s) && |ids| == |rows| && AllNew(ids, s.transactions)
    requires SplitTransaction(s, id, rows, ids).Success?
    ensures DeleteTransaction(s, id).Success?
    ensures DeleteTransaction(SplitTransaction(s, id, rows, ids).value, id) == DeleteTransaction(s, id)
  {
    var rest := s.(transactions := Drop(s.transactions, {id}));
    DeletionAfterSplitIs(s, id, rows, ids, rest);
    RemovalOfChildless(s, id);
    DeletionIs(s, id, rest, s.transactions[id].amount);
  }

  lemma DeletionAfterSplitIs(s: Ledger, id: Id, rows: seq<TransactionInput>, ids: seq<Id>, rest: Ledger)
    requires Valid(s) && |ids| == |rows| && AllNew(ids, s.transactions)
    requires SplitTransaction(s, id, rows, ids).Success? && rest == s.(transactions := Drop(s.transactions, {id}))
    ensures id in s.transactions && s.transactions[id].month in s.months
    ensures DeleteTransaction(SplitTransaction(s, id, rows, ids).value, id)
         == Success(AddWallet(rest, s.transactions[id].month, s.transactions[id].amount))
  {
    var s1 := SplitTransaction(s, id, rows, ids).value;
    SplitParts(s, id, rows, ids);
    RemovalAfterSplit(s, id, ids, CheckSplitRows(s, id, rows).value);
    assert s1.months == s.months && s1.transactions[id] == s.transactions[id];
    DeletionIs(s1, id, rest, s.transactions[id].amount);
  }

  // ----- The forest -----

  /** In every reachable ledger the link table and the parent column describe one forest of depth one: the
      same pairs, no child a parent, children and parents spends of one month. */
  lemma ReachableForest(s: Ledger, ops: seq<Op>, s': Ledger)
    requires Sound(s) && Run(s, ops, s')
    ensures forall c, p ::
      (c in s'.links && s'.links[c] == p) <==> (c in s'.transactions && s'.transactions[c].parent == Some(p))
    ensures forall c | c in s'.links :: !HasChildren(s'.links, c)
    ensures forall c | c in s'.links ::
      && c in s'.transactions && s'.links[c] in s'.transactions
      && s'.transactions[c].month == s'.transactions[s'.links[c]].month
      && s'.transactions[c].kind == Spend && s'.transactions[s'.links[c]].kind == Spend
      && s'.transactions[s'.links[c]].source != Reconciliation
  {
    RunKeepsSound(s, ops, s');
    forall c, p
      ensures (c in s'.links && s'.links[c] == p) <==> (c in s'.transactions && s'.transactions[c].parent == Some(p))
    {
      assert IsChild(s'.transactions, c) ==> c in s'.links;
    }
    forall c | c in s'.links
      ensures !HasChildren(s'.links, c)
    {
      ChildHasNoChildren(s'.transactions, s'.links, c);
    }
  }

  // ----- What stays frozen -----

  /** The children of a split: which rows they are and what they are worth. */
  ghost predicate SameFamily(s: Ledger, s': Ledger, p: Id) {
    && Children(s'.links, p) == Children(s.links, p)
    && forall c | c in Children(s.links, p) ::
         c in s.transactions && c in s'.transactions && s'.transactions[c].amount == s.transactions[c].amount
  }

  lemma SameFamilySameTotal(s: Ledger, s': Ledger, p: Id)
    requires SameFamily(s, s', p)
    ensures ChildrenTotal(s'.transactions, s'.links, p) == ChildrenTotal(s.transactions, s.links, p)
  {
    var f, f' := AmountOf(s.transactions), AmountOf(s'.transactions);
    forall c | c in Children(s.links, p)
      ensures f(c) == f'(c)
    {
    }
    SumAgree(Children(s.links, p), f, f');
  }

  lemma LinksStay(s: Ledger, s': Ledger, p: Id)
    requires Forest(s.transactions, s.links)
    requires s'.links == s.links && s.transactions.Keys <= s'.transactions.Keys
    requires forall t | t in s.links :: s'.transactions[t].amount == s.transactions[t].amount
    ensures SameFamily(s, s', p)
  {
  }

  /** Removing whole families, or whole months, leaves the other families whole. */
  lemma RemovalLeavesFamily(s: Ledger, gone: set<Id>, p: Id)
    requires Forest(s.transactions, s.links) && p !in gone
    requires forall c | c in s.links && s.links[c] == p :: c !in gone
    ensures SameFamily(s, RemoveTransactions(s, gone), p)
  {
    var s' := RemoveTransactions(s, gone);
    assert forall c :: c in s'.links && s'.links[c] == p <==> c in s.links && s.links[c] == p;
    assert forall c | c in s.links :: c in s.transactions;
  }

  lemma SplitLeavesFamily(s: Ledger, id: Id, ids: seq<Id>, children: seq<Transaction>, p: Id)
    requires Forest(s.transactions, s.links) && p != id && |ids| == |children| && AllNew(ids, s.transactions)
    ensures SameFamily(s, WithChildren(s, id, ids, children), p)
  {
    assert forall c | c in ids :: c !in s.links;
    NewLinksElsewhere(s.links, ids, id, p);
    assert forall c | c in s.links :: c !in ids;
  }

  lemma NewLinksElsewhere(links: Links, ids: seq<Id>, id: Id, p: Id)
    requires p != id && forall c | c in ids :: c !in links
    ensures Children(links + map c | c in ids :: id, p) == Children(links, p)
  {
    var links' := links + map c | c in ids :: id;
    forall c
      ensures c in Children(links', p) <==> c in Children(links, p)
    {
    }
  }

  lemma DeletionLeavesFamily(s: Ledger, op: Op, p: Id)
    requires Sound(s) && Ready(s, op) && HasChildren(s.links, p) && p in Next(s, op).transactions
    requires op.OpDeleteMonth? || op.OpDeleteTransaction?
    ensures SameFamily(s, Next(s, op), p)
  {
    if Attempt(s, op).Success? {
      if op.OpDeleteMonth? {
        DeleteMonthLeavesFamily(s, op.key, p);
      } else {
        DeleteTransactionLeavesFamily(s, op.id, p);
      }
    } else {
      LinksStay(s, s, p);
    }
  }

  lemma DeleteMonthLeavesFamily(s: Ledger, key: string, p: Id)
    requires Valid(s) && DeleteMonth(s, key).Success? && p in DeleteMonth(s, key).value.transactions
    ensures SameFamily(s, DeleteMonth(s, key).value, p)
  {
    var m := FindMonth(s, key).value;
    var gone := set t | t in s.transactions && InMonth(s, m, t);
    forall c | c in s.links && s.links[c] == p
      ensures c !in gone
    {
      assert Linked(s.transactions[c], p, s.transactions[p]);
      assert Filed(s, s.transactions[c]) && Filed(s, s.transactions[p]);
    }
    RemovalLeavesFamily(s, gone, p);
  }

  lemma DeleteTransactionLeavesFamily(s: Ledger, id: Id, p: Id)
    requires Valid(s) && DeleteTransaction(s, id).Success? && p in DeleteTransaction(s, id).value.transactions
    ensures SameFamily(s, DeleteTransaction(s, id).value, p)
  {
    var gone := Family(s.links, id);
    assert forall c | c in s.links :: s.transactions[c].parent == Some(s.links[c]);
    assert forall c | c in s.links && s.links[c] == p :: c !in gone;
    RemovalLeavesFamily(s, gone, p);
  }

  lemma UpdateLeavesFamily(s: Ledger, id: Id, patch: TransactionPatch, p: Id)
    requires Valid(s) && UpdateTransaction(s, id, patch).Success?
    ensures SameFamily(s, UpdateTransaction(s, id, patch).value, p)
  {
    var s' := UpdateTransaction(s, id, patch).value;
    assert forall c | c in s.links :: s.transactions[c].parent == Some(s.links[c]);
    LinksStay(s, s', p);
  }

  lemma SplitTransactionLeavesFamily(s: Ledger, id: Id, rows: seq<TransactionInput>, ids: seq<Id>, p: Id)
    requires Valid(s) && |ids| == |rows| && AllNew(ids, s.transactions) && HasChildren(s.links, p)
    requires SplitTransaction(s, id, rows, ids).Success?
    ensures SameFamily(s, SplitTransaction(s, id, rows, ids).value, p)
  {
    SplitIs(s, id, rows, ids);
    SplitLeavesFamily(s, id, ids, CheckSplitRows(s, id, rows).value, p);
  }

  lemma ReconcileLeavesFamily(s: Ledger, op: Op, p: Id)
    requires Sound(s) && Ready(s, op) && op.OpBalanceUpdate?
    ensures SameFamily(s, Next(s, op), p)
  {
    LinksStay(s, Next(s, op), p);
  }

  lemma WriteStepLeavesFamily(s: Ledger, op: Op, p: Id)
    requires Sound(s) && Ready(s, op) && (op.OpCreateTransaction? || op.OpUpdateTransaction?)
    ensures SameFamily(s, Next(s, op), p)
  {
    if op.OpUpdateTransaction? && Attempt(s, op).Success? {
      UpdateLeavesFamily(s, op.id, op.transactionPatch, p);
    } else {
      LinksStay(s, Next(s, op), p);
    }
  }

  lemma SplitStepLeavesFamily(s: Ledger, op: Op, p: Id)
    requires Sound(s) && Ready(s, op) && HasChildren(s.links, p) && op.OpSplitTransaction?
    ensures SameFamily(s, Next(s, op), p)
  {
    if Attempt(s, op).Success? {
      SplitTransactionLeavesFamily(s, op.id, op.rows, op.ids, p);
    } else {
      LinksStay(s, s, p);
    }
  }

  /** The steps that touch neither transactions nor links. */
  lemma OtherStepsLeaveRows(s: Ledger, op: Op)
    requires GoodTemplates(s) && Ready(s, op) && !ChangesRows(op) && !op.OpDeleteMonth? && !op.OpDeleteAllocation?
    ensures Next(s, op).transactions == s.transactions && Next(s, op).links == s.links
  {
  }

  /** The step deletes an envelope that holds a child of p. */
  ghost function Parts(p: Id): StepKind {
    (s: Ledger, op: Op) =>
      op.OpDeleteAllocation? && DeleteAllocation(s, op.id).Success?
      && exists c | c in s.links && s.links[c] == p :: c in s.transactions && s.transactions[c].allocation == op.id
  }

  lemma DeleteAllocationLeavesFamilyIff(s: Ledger, a: Id, p: Id)
    requires Valid(s) && DeleteAllocation(s, a).Success? && p in DeleteAllocation(s, a).value.transactions
    ensures SameFamily(s, DeleteAllocation(s, a).value, p)
       <==> forall c | c in s.links && s.links[c] == p :: s.transactions[c].allocation != a
  {
    var s', gone := DeleteAllocation(s, a).value, set t | t in s.transactions && s.transactions[t].allocation == a;
    if c :| c in s.links && s.links[c] == p && s.transactions[c].allocation == a {
      assert c in Children(s.links, p) && c !in s'.transactions;
    } else {
      RemovalLeavesFamily(s, gone, p);
    }
  }

  /** A step changes the children of a surviving split or their amounts exactly when it deletes an envelope
      that holds one of them. */
  lemma StepLeavesFamily(s: Ledger, op: Op, p: Id)
    requires Sound(s) && Ready(s, op) && HasChildren(s.links, p) && p in Next(s, op).transactions
    ensures SameFamily(s, Next(s, op), p) <==> !Parts(p)(s, op)
  {
    if op.OpDeleteMonth? || op.OpDeleteTransaction? {
      DeletionLeavesFamily(s, op, p);
    } else if op.OpDeleteAllocation? {
      EnvelopeStepLeavesFamily(s, op, p);
    } else if op.OpBalanceUpdate? {
      ReconcileLeavesFamily(s, op, p);
    } else if op.OpSplitTransaction? {
      SplitStepLeavesFamily(s, op, p);
    } else if ChangesRows(op) {
      WriteStepLeavesFamily(s, op, p);
    } else {
      OtherStepsLeaveRows(s, op);
      LinksStay(s, Next(s, op), p);
    }
  }

  lemma EnvelopeStepLeavesFamily(s: Ledger, op: Op, p: Id)
    requires Sound(s) && Ready(s, op) && op.OpDeleteAllocation? && p in Next(s, op).transactions
    ensures SameFamily(s, Next(s, op), p) <==> !Parts(p)(s, op)
  {
    if DeleteAllocation(s, op.id).Success? {
      DeleteAllocationLeavesFamilyIff(s, op.id, p);
    } else {
      LinksStay(s, s, p);
    }
  }

  /** The row stays in the table through the whole run. */
  ghost predicate Survives(s: Ledger, ops: seq<Op>, t: Id)
    decreases |ops|
  {
    t in s.transactions
    && (ops != [] && GoodTemplates(s) && Ready(s, ops[0]) ==> Survives(Next(s, ops[0]), ops[1..], t))
  }

  lemma {:induction false} RunLeavesFamily(s: Ledger, ops: seq<Op>, s': Ledger, p: Id)
    requires Sound(s) && Run(s, ops, s') && HasChildren(s.links, p) && Survives(s, ops, p)
    requires Never(Parts(p), s, ops)
    ensures HasChildren(s'.links, p) && SameFamily(s, s', p)
    decreases |ops|
  {
    if ops == [] {
      LinksStay(s, s, p);
    } else {
      var s1 := Next(s, ops[0]);
      StepLeavesFamily(s, ops[0], p);
      assert HasChildren(s1.links, p) by {
        var c :| c in s.links && s.links[c] == p;
        assert c in Children(s.links, p) && c in Children(s1.links, p);
      }
      StepKeepsSound(s, ops[0]);
      RunLeavesFamily(s1, ops[1..], s', p);
    }
  }

  /** From the moment of splitting on, the children add up to what the parent was worth then, whatever
      happens to the parent's own amount, as long as no envelope is deleted from under one of them. */
  lemma ChildrenKeepTheOriginalAmount(s: Ledger, id: Id, rows: seq<TransactionInput>, ids: seq<Id>,
                                      ops: seq<Op>, s': Ledger)
    requires Sound(s) && |ids| == |rows| && AllNew(ids, s.transactions)
    requires SplitTransaction(s, id, rows, ids).Success?
    requires var s1 := SplitTransaction(s, id, rows, ids).value;
      Run(s1, ops, s') && Survives(s1, ops, id) && Never(Parts(id), s1, ops)
    ensures Children(s'.links, id) == (set c | c in ids)
    ensures ChildrenTotal(s'.transactions, s'.links, id) == s.transactions[id].amount
  {
    var s1 := SplitTransaction(s, id, rows, ids).value;
    SplitParts(s, id, rows, ids);
    SplitTransactionKeeps(s, id, rows, ids);
    RunLeavesFamily(s1, ops, s', id);
    SameFamilySameTotal(s1, s', id);
  }

  /** Editing the amount of a split parent is accepted and changes neither wallet nor spending. */
  lemma ParentEditIsInert(s: Ledger, p: Id, amount: int, m: MonthKey)
    requires Valid(s) && p in s.transactions && HasChildren(s.links, p) && amount > 0 && m in s.months
    requires s.transactions[p].month in s.months && s.months[s.transactions[p].month].status == Open
    ensures var r := UpdateTransaction(s, p, TransactionPatch(None, None, None, Some(amount), None, None));
      && r.Success? && r.value.transactions[p].amount == amount
      && r.value.months == s.months
      && MonthSpend(r.value.transactions, r.value.links, m) == MonthSpend(s.transactions, s.links, m)
  {
    var patch := TransactionPatch(None, None, None, Some(amount), None, None);
    var c :| c in s.links && s.links[c] == p;
    assert Linked(s.transactions[c], p, s.transactions[p]);
    var s' := UpdateTransaction(s, p, patch).value;
    assert s'.months == s.months;
    assert s'.transactions.Keys == s.transactions.Keys;
    var f, f' := SpendOf(s.transactions, s.links, m), SpendOf(s'.transactions, s.links, m);
    forall t | t in s.transactions.Keys
      ensures f(t) == f'(t)
    {
    }
    SumAgree(s.transactions.Keys, f, f');
  }

  // ----- The number of children -----

  ghost predicate AtMostTwenty(s: Ledger) {
    forall p | p in s.transactions && HasChildren(s.links, p) :: |Children(s.links, p)| <= 20
  }

  ghost predicate AtLeastTwo(s: Ledger) {
    forall p | p in s.transactions && HasChildren(s.links, p) :: 2 <= |Children(s.links, p)|
  }

  lemma {:induction false} SizeOfDistinct(ids: seq<Id>)
    requires Distinct(ids)
    ensures |set c | c in ids| == |ids|
  {
    if ids == [] {
      assert (set c | c in ids) == {};
    } else {
      var n := |ids| - 1;
      SizeOfDistinct(ids[..n]);
      assert ids == ids[..n] + [ids[n]];
      assert (set c | c in ids) == (set c | c in ids[..n]) + {ids[n]};
    }
  }

  /** The children an envelope deletion leaves to a parent. */
  ghost function KeptChildren(s: Ledger, a: Id, p: Id): set<Id> {
    set c | c in Children(s.links, p) && c in s.transactions && s.transactions[c].allocation != a
  }

  /** The step deletes the envelopes of all but one of the children of a parent filed elsewhere. */
  ghost predicate LeavesOne(s: Ledger, op: Op) {
    && op.OpDeleteAllocation? && DeleteAllocation(s, op.id).Success?
    && exists p | p in s.transactions && s.transactions[p].allocation != op.id :: |KeptChildren(s, op.id, p)| == 1
  }

  /** Deleting an envelope takes exactly its own rows out of every surviving split. */
  lemma DeleteAllocationPrunesSplits(s: Ledger, a: Id, p: Id)
    requires Valid(s) && DeleteAllocation(s, a).Success? && p in DeleteAllocation(s, a).value.transactions
    ensures Children(DeleteAllocation(s, a).value.links, p)
         == (set c | c in Children(s.links, p) && s.transactions[c].allocation != a)
  {
    var gone := set t | t in s.transactions && s.transactions[t].allocation == a;
    assert forall c | c in s.links :: c in s.transactions;
  }

  lemma KeptChildrenAre(s: Ledger, a: Id, p: Id)
    requires Valid(s) && DeleteAllocation(s, a).Success? && p in DeleteAllocation(s, a).value.transactions
    ensures Children(DeleteAllocation(s, a).value.links, p) == KeptChildren(s, a, p) <= Children(s.links, p)
    ensures HasChildren(DeleteAllocation(s, a).value.links, p) <==> KeptChildren(s, a, p) != {}
  {
    DeleteAllocationPrunesSplits(s, a, p);
    assert forall c | c in s.links :: c in s.transactions;
    ParentsHaveChildren(DeleteAllocation(s, a).value.links, p);
  }

  lemma ParentsHaveChildren(links: Links, p: Id)
    ensures HasChildren(links, p) <==> Children(links, p) != {}
  {
    if HasChildren(links, p) {
      var c :| c in links && links[c] == p;
      assert c in Children(links, p);
    } else {
      assert forall c :: c !in Children(links, p);
    }
  }

  lemma SmallerSets(part: set<Id>, whole: set<Id>)
    requires part <= whole
    ensures |part| <= |whole|
  {
    assert whole == part + (whole - part);
  }

  lemma DeleteAllocationSizes(s: Ledger, a: Id)
    requires Valid(s) && DeleteAllocation(s, a).Success?
    ensures AtMostTwenty(s) ==> AtMostTwenty(DeleteAllocation(s, a).value)
    ensures AtLeastTwo(s) ==> (AtLeastTwo(DeleteAllocation(s, a).value) <==>
      forall p | p in s.transactions && s.transactions[p].allocation != a :: |KeptChildren(s, a, p)| != 1)
  {
    var s' := DeleteAllocation(s, a).value;
    forall p | p in s'.transactions
      ensures Children(s'.links, p) == KeptChildren(s, a, p)
      ensures HasChildren(s'.links, p) <==> |KeptChildren(s, a, p)| > 0
      ensures HasChildren(s'.links, p) ==> HasChildren(s.links, p)
      ensures |Children(s'.links, p)| <= |Children(s.links, p)|
    {
      KeptChildrenAre(s, a, p);
      ParentsHaveChildren(s.links, p);
      SmallerSets(KeptChildren(s, a, p), Children(s.links, p));
    }
    assert forall p :: p in s'.transactions <==> p in s.transactions && s.transactions[p].allocation != a;
  }

  /** A parent of the new state was a parent before, unless this step split it. */
  lemma NewParents(s: Ledger, op: Op, p: Id)
    requires Sound(s) && Ready(s, op) && !op.OpSplitTransaction? && !op.OpDeleteAllocation?
    requires HasChildren(Next(s, op).links, p)
    ensures HasChildren(s.links, p) && p in s.transactions
  {
    var s' := Next(s, op);
    var c :| c in s'.links && s'.links[c] == p;
    assert c in s.links && s.links[c] == p;
  }

  lemma NewSplitSizes(s: Ledger, id: Id, ids: seq<Id>, children: seq<Transaction>)
    requires Forest(s.transactions, s.links) && id in s.transactions && !HasChildren(s.links, id)
    requires 2 <= |ids| == |children| <= 20 && AllNew(ids, s.transactions)
    ensures var s' := WithChildren(s, id, ids, children);
      (AtMostTwenty(s) ==> AtMostTwenty(s')) && (AtLeastTwo(s) ==> AtLeastTwo(s'))
  {
    var s' := WithChildren(s, id, ids, children);
    NewChildren(s, id, ids, children);
    SizeOfDistinct(ids);
    forall p | p in s'.transactions && HasChildren(s'.links, p) && p != id
      ensures p in s.transactions && HasChildren(s.links, p) && Children(s'.links, p) == Children(s.links, p)
    {
      SplitLeavesFamily(s, id, ids, children, p);
      SplitAddsOneParent(s, id, ids, children, p);
    }
  }

  lemma SplitKeepsSizes(s: Ledger, id: Id, rows: seq<TransactionInput>, ids: seq<Id>)
    requires Valid(s) && |ids| == |rows| && AllNew(ids, s.transactions)
    requires SplitTransaction(s, id, rows, ids).Success?
    ensures var s' := SplitTransaction(s, id, rows, ids).value;
      (AtMostTwenty(s) ==> AtMostTwenty(s')) && (AtLeastTwo(s) ==> AtLeastTwo(s'))
  {
    SplitIs(s, id, rows, ids);
    NewSplitSizes(s, id, ids, CheckSplitRows(s, id, rows).value);
  }

  lemma SplitAddsOneParent(s: Ledger, id: Id, ids: seq<Id>, children: seq<Transaction>, p: Id)
    requires Forest(s.transactions, s.links) && |ids| == |children| && AllNew(ids, s.transactions)
    requires HasChildren(WithChildren(s, id, ids, children).links, p) && p != id
    ensures HasChildren(s.links, p) && p in s.transactions
  {
    var s' := WithChildren(s, id, ids, children);
    var c :| c in s'.links && s'.links[c] == p;
    assert c in s.links && s.links[c] == p;
  }

  lemma OtherStepsKeepSizes(s: Ledger, op: Op)
    requires Sound(s) && Ready(s, op) && !op.OpSplitTransaction? && !op.OpDeleteAllocation?
    ensures (AtMostTwenty(s) ==> AtMostTwenty(Next(s, op))) && (AtLeastTwo(s) ==> AtLeastTwo(Next(s, op)))
  {
    var s' := Next(s, op);
    forall p | p in s'.transactions && HasChildren(s'.links, p)
      ensures p in s.transactions && HasChildren(s.links, p) && Children(s'.links, p) == Children(s.links, p)
    {
      NewParents(s, op, p);
      StepLeavesFamily(s, op, p);
    }
  }

  /** No step gives a parent more than twenty children, and one leaves a parent with a single child exactly
      when it deletes the envelopes of the others. */
  lemma StepKeepsSizes(s: Ledger, op: Op)
    requires Sound(s) && Ready(s, op)
    ensures AtMostTwenty(s) ==> AtMostTwenty(Next(s, op))
    ensures AtLeastTwo(s) ==> (AtLeastTwo(Next(s, op)) <==> !LeavesOne(s, op))
  {
    if op.OpSplitTransaction? {
      if Attempt(s, op).Success? {
        SplitKeepsSizes(s, op.id, op.rows, op.ids);
      }
    } else if op.OpDeleteAllocation? {
      if Attempt(s, op).Success? {
        DeleteAllocationSizes(s, op.id);
      }
    } else {
      OtherStepsKeepSizes(s, op);
    }
  }

  /** Every reachable split has at most twenty children, and two or more as long as no envelope deletion
      leaves a parent with one. */
  lemma {:induction false} RunKeepsSizes(s: Ledger, ops: seq<Op>, s': Ledger)
    requires Sound(s) && Run(s, ops, s')
    ensures AtMostTwenty(s) ==> AtMostTwenty(s')
    ensures AtLeastTwo(s) && Never(LeavesOne, s, ops) ==> AtLeastTwo(s')
    decreases |ops|
  {
    if ops != [] {
      StepKeepsSizes(s, ops[0]);
      StepKeepsSound(s, ops[0]);
      RunKeepsSizes(Next(s, ops[0]), ops[1..], s');
    }
  }
}
