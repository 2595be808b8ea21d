/** The split check in 64-bit arithmetic: when the running total is the sum of the rows. */
module SplitTotals {
  import opened Wrappers
  import opened Ledger
  import opened LedgerOps

  const TWO_63: int := 0x8000_0000_0000_0000
  const TWO_64: int := 0x1_0000_0000_0000_0000
  const TWO_58: int := 0x400_0000_0000_0000
  const MAX_ROWS := 20

  /** What an int64 holds after an addition. */
  function Wrapped(n: int): (r: int)
    ensures -TWO_63 <= r < TWO_63
    ensures -TWO_63 <= n < TWO_63 ==> r == n
    ensures (n - r) % TWO_64 == 0
  {
    (n + TWO_63) % TWO_64 - TWO_63
  }

  predicate IsAmount(n: int) {
    0 < n < TWO_63
  }

  /** The loop of SplitTransaction: `total += child.AmountCents` on int64. */
  method RunningTotal(rows: seq<Transaction>) returns (total: int)
    requires forall i | 0 <= i < |rows| :: IsAmount(rows[i].amount)
    ensures total == Wrapped(Total(rows))
    ensures total == Total(rows) <==> Total(rows) < TWO_63
  {
    total := 0;
    for i := 0 to |rows|
      invariant total == Wrapped(Total(rows[..i]))
    {
      assert rows[..i + 1][..i] == rows[..i];
      WrapTwice(Total(rows[..i]), rows[i].amount);
      total := Wrapped(total + rows[i].amount);
    }
    assert rows[..|rows|] == rows;
    TotalIsNonNegative(rows);
  }

  lemma WrapTwice(a: int, b: int)
    ensures Wrapped(Wrapped(a) + b) == Wrapped(a + b)
  {
  }

  lemma {:induction false} TotalIsNonNegative(rows: seq<Transaction>)
    requires forall i | 0 <= i < |rows| :: IsAmount(rows[i].amount)
    ensures Total(rows) >= 0
  {
    if rows != [] {
      TotalIsNonNegative(rows[..|rows| - 1]);
    }
  }

  /** Twenty rows of at most 2^58 each cannot wrap. */
  lemma {:induction false} BoundedTotal(rows: seq<Transaction>)
    requires forall i | 0 <= i < |rows| :: 0 < rows[i].amount <= TWO_58
    ensures 0 <= Total(rows) <= |rows| * TWO_58
    ensures |rows| <= MAX_ROWS ==> Wrapped(Total(rows)) == Total(rows)
  {
    if rows != [] {
      BoundedTotal(rows[..|rows| - 1]);
    }
  }

  /** The check passes exactly when the rows add up to the parent's amount modulo 2^64, so for sums
      below 2^63 exactly when they add up to it. */
  lemma CheckPassesIff(rows: seq<Transaction>, amount: int)
    requires IsAmount(amount) && forall i | 0 <= i < |rows| :: IsAmount(rows[i].amount)
    ensures Wrapped(Total(rows)) == amount <==> (Total(rows) - amount) % TWO_64 == 0
    ensures Total(rows) < TWO_63 ==> (Wrapped(Total(rows)) == amount <==> Total(rows) == amount)
  {
    TotalIsNonNegative(rows);
    WrappedIff(Total(rows), amount);
  }

  lemma WrappedIff(n: int, amount: int)
    requires IsAmount(amount)
    ensures Wrapped(n) == amount <==> (n - amount) % TWO_64 == 0
  {
    if (n - amount) % TWO_64 == 0 {
      var k := (n - amount) / TWO_64;
      assert n + TWO_63 == k * TWO_64 + (amount + TWO_63);
    }
  }

  function SplitRow(amount: int): Transaction {
    Transaction("2024-01", 2, UNSORTED_CATEGORY, "2024-01-05", amount, None, false, Spend, Split, Some(3))
  }

  /** Three rows worth far more than a parent of one cent, whose int64 total is that cent. */
  lemma ThreeRowsCanWrap()
    ensures var rows := [SplitRow(TWO_63 - 1), SplitRow(TWO_63 - 1), SplitRow(3)];
      (forall i | 0 <= i < |rows| :: IsAmount(rows[i].amount)) && Wrapped(Total(rows)) == 1 && Total(rows) > 1
  {
    var a, b, c := SplitRow(TWO_63 - 1), SplitRow(TWO_63 - 1), SplitRow(3);
    OneMoreRow([], a);
    OneMoreRow([a], b);
    OneMoreRow([a, b], c);
    assert [] + [a] == [a] && [a] + [b] == [a, b] && [a, b] + [c] == [a, b, c];
    assert Total([a]) == TWO_63 - 1;
    assert Total([a, b]) == 2 * TWO_63 - 2;
    assert Total([a, b, c]) == 2 * TWO_63 + 1;
  }

  lemma OneMoreRow(rows: seq<Transaction>, x: Transaction)
    ensures Total(rows + [x]) == Total(rows) + x.amount
  {
    assert (rows + [x])[..|rows|] == rows;
  }
}
