/** Patches of rows: what a field-by-field update means. */
module Patches {
  import opened Wrappers
  import opened Ledger
  import opened LedgerOps

  /** The later of two optional fields. */
  function Later<T>(first: Option<T>, second: Option<T>): Option<T> {
    if second.Some? then second else first
  }

  function LaterIncome(p: IncomePatch, q: IncomePatch): IncomePatch {
    IncomePatch(Later(p.name, q.name), Later(p.amount, q.amount), Later(p.received, q.received),
                Later(p.appliesTo, q.appliesTo), Later(p.notes, q.notes))
  }

  function LaterAllocation(p: AllocationPatch, q: AllocationPatch): AllocationPatch {
    AllocationPatch(Later(p.name, q.name), Later(p.budget, q.budget), Later(p.kind, q.kind),
                    Later(p.carryForward, q.carryForward), Later(p.sortOrder, q.sortOrder), Later(p.active, q.active))
  }

  function LaterTransaction(p: TransactionPatch, q: TransactionPatch): TransactionPatch {
    TransactionPatch(Later(p.allocation, q.allocation), Later(p.category, q.category), Later(p.date, q.date),
                     Later(p.amount, q.amount), Later(p.note, q.note), Later(p.rounded, q.rounded))
  }

  /** Two accepted patches one after the other are one patch, in which the later value of a field wins, and a
      field that neither names stays what it was. */
  lemma IncomePatchesCompose(x: IncomeItem, p: IncomePatch, q: IncomePatch)
    requires PatchIncome(x, p).Success? && PatchIncome(PatchIncome(x, p).value, q).Success?
    ensures PatchIncome(PatchIncome(x, p).value, q) == PatchIncome(x, LaterIncome(p, q))
    ensures PatchIncome(x, IncomePatch(None, None, None, None, None)) == Success(x)
  {
    var y, z := PatchIncome(x, p).value, PatchIncome(x, LaterIncome(p, q));
    assert z.Success?;
    assert z.value.name == PatchIncome(y, q).value.name;
    assert z.value.received == PatchIncome(y, q).value.received;
  }

  lemma AllocationPatchesCompose(a: Allocation, p: AllocationPatch, q: AllocationPatch)
    requires PatchAllocation(a, p).Success? && PatchAllocation(PatchAllocation(a, p).value, q).Success?
    ensures PatchAllocation(PatchAllocation(a, p).value, q) == PatchAllocation(a, LaterAllocation(p, q))
    ensures PatchAllocation(a, AllocationPatch(None, None, None, None, None, None)) == Success(a)
  {
    var b, c := PatchAllocation(a, p).value, PatchAllocation(a, LaterAllocation(p, q));
    assert c.Success?;
    assert c.value.name == PatchAllocation(b, q).value.name;
  }

  lemma TransactionPatchesCompose(s: Ledger, x: Transaction, p: TransactionPatch, q: TransactionPatch)
    requires PatchTransaction(s, x, p).Success? && PatchTransaction(s, PatchTransaction(s, x, p).value, q).Success?
    ensures PatchTransaction(s, PatchTransaction(s, x, p).value, q) == PatchTransaction(s, x, LaterTransaction(p, q))
    ensures PatchTransaction(s, x, TransactionPatch(None, None, None, None, None, None)) == Success(x)
  {
    var y, z := PatchTransaction(s, x, p).value, PatchTransaction(s, x, LaterTransaction(p, q));
    RefilesCompose(s, x, y, p, q);
    assert z.Success?;
    assert z.value.date == PatchTransaction(s, y, q).value.date;
  }

  lemma RefilesCompose(s: Ledger, x: Transaction, y: Transaction, p: TransactionPatch, q: TransactionPatch)
    requires Refile(s, x, p).Success? && Refile(s, y, q).Success?
    requires y.month == x.month && y.parent == x.parent
    requires y.allocation == Refile(s, x, p).value.allocation && y.category == Refile(s, x, p).value.category
    ensures Refile(s, x, LaterTransaction(p, q)).Success?
    ensures Refile(s, x, LaterTransaction(p, q)).value.allocation == Refile(s, y, q).value.allocation
    ensures Refile(s, x, LaterTransaction(p, q)).value.category == Refile(s, y, q).value.category
  {
  }

  /** Editing a row twice, between which nothing else happens, ends where one combined edit ends, wallet and
      all: the balance deltas add up. */
  lemma EditsCompose(s: Ledger, id: Id, p: TransactionPatch, q: TransactionPatch)
    requires UpdateTransaction(s, id, p).Success?
    requires UpdateTransaction(UpdateTransaction(s, id, p).value, id, q).Success?
    ensures UpdateTransaction(UpdateTransaction(s, id, p).value, id, q)
         == UpdateTransaction(s, id, LaterTransaction(p, q))
  {
    var x := s.transactions[id];
    var s1 := UpdateTransaction(s, id, p).value;
    var y := PatchTransaction(s, x, p).value;
    SameEnvelopesSamePatch(s, s1, y, q);
    TransactionPatchesCompose(s, x, p, q);
    var z := PatchTransaction(s, y, q).value;
    EditIs(s, id, p, x, y);
    EditIs(s1, id, q, y, z);
    EditIs(s, id, LaterTransaction(p, q), x, z);
    assert s.transactions[id := y][id := z] == s.transactions[id := z];
    WalletTwice(s.months, x.month, WalletDelta(s, id, x, y), WalletDelta(s, id, y, z));
  }

  /** The shape of an accepted edit. */
  lemma EditIs(s: Ledger, id: Id, patch: TransactionPatch, before: Transaction, after: Transaction)
    requires id in s.transactions && s.transactions[id] == before && EnsureOpen(s, before.month).Pass?
    requires PatchTransaction(s, before, patch) == Success(after)
    ensures UpdateTransaction(s, id, patch)
         == Success(s.(transactions := s.transactions[id := after],
                       months := Moved(s.months, before.month, WalletDelta(s, id, before, after))))
  {
  }

  function WalletDelta(s: Ledger, id: Id, before: Transaction, after: Transaction): int {
    if before.parent.None? && !HasChildren(s.links, id) then EditDelta(before.kind, before.amount, after.amount) else 0
  }

  lemma SameEnvelopesSamePatch(s: Ledger, s': Ledger, x: Transaction, q: TransactionPatch)
    requires s'.allocations == s.allocations && s'.categories == s.categories
    ensures PatchTransaction(s', x, q) == PatchTransaction(s, x, q)
  {
  }

  function Moved(months: map<MonthKey, Month>, m: MonthKey, delta: int): map<MonthKey, Month>
    requires m in months
  {
    months[m := months[m].(wallet := months[m].wallet + delta)]
  }

  lemma WalletTwice(months: map<MonthKey, Month>, m: MonthKey, a: int, b: int)
    requires m in months
    ensures Moved(Moved(months, m, a), m, b) == Moved(months, m, a + b)
  {
    assert Moved(Moved(months, m, a), m, b)[m] == Moved(months, m, a + b)[m];
  }
}
