/** Fixed-width decimal fields, month and day keys, and the proleptic Gregorian calendar. */
module Calendar {
  import opened Text

  predicate IsDigit(c: char) { '0' <= c <= '9' }

  function DigitValue(c: char): (d: nat)
    requires IsDigit(c)
    ensures d < 10
  {
    c as int - '0' as int
  }

  function DigitChar(d: nat): (c: char)
    requires d < 10
    ensures IsDigit(c) && DigitValue(c) == d
  {
    '0' + d as char
  }

  predicate AllDigits(s: string) {
    forall c | c in s :: IsDigit(c)
  }

  function Pow10(n: nat): (p: nat)
    ensures p > 0
  {
    if n == 0 then 1 else 10 * Pow10(n - 1)
  }

  /** The number a digit string denotes. */
  function Number(s: string): nat
    requires AllDigits(s)
  {
    if s == [] then 0
    else 10 * Number(s[..|s| - 1]) + DigitValue(s[|s| - 1])
  }

  /** n printed with leading zeros to the given width. */
  function Padded(n: nat, width: nat): (s: string)
    requires n < Pow10(width)
    ensures |s| == width && AllDigits(s)
    ensures Number(s) == n
  {
    if width == 0 then []
    else
      var s := Padded(n / 10, width - 1) + [DigitChar(n % 10)];
      assert s[..|s| - 1] == Padded(n / 10, width - 1);
      s
  }

  /** On digit strings of equal width, text order is number order. */
  lemma {:induction false} DigitOrder(a: string, b: string)
    requires AllDigits(a) && AllDigits(b) && |a| == |b|
    ensures Less(a, b) <==> Number(a) < Number(b)
    ensures a == b <==> Number(a) == Number(b)
  {
    if a != [] {
      var a0, b0 := a[..|a| - 1], b[..|b| - 1];
      assert a == a0 + [a[|a| - 1]] && b == b0 + [b[|b| - 1]];
      DigitOrder(a0, b0);
      var x, y := a[|a| - 1], b[|b| - 1];
      LessConcat(a0, b0, [x], [y]);
      assert Less([x], [y]) <==> x < y;
      assert x < y <==> DigitValue(x) < DigitValue(y);
      assert x == y <==> DigitValue(x) == DigitValue(y);
    }
  }

  /** shared.ValidateMonthKey: YYYY-MM with a month of 1 to 12. */
  predicate ValidMonthKey(s: string) {
    && |s| == 7 && AllDigits(s[..4]) && s[4] == '-' && AllDigits(s[5..])
    && 1 <= Number(s[5..]) <= 12
  }

  lemma {:induction false} NumberBound(s: string)
    requires AllDigits(s)
    ensures Number(s) < Pow10(|s|)
  {
    if s != [] {
      NumberBound(s[..|s| - 1]);
    }
  }

  lemma LastDigit(n: nat, d: nat)
    requires d < 10
    ensures (10 * n + d) / 10 == n && (10 * n + d) % 10 == d
  {
  }

  lemma PaddedStep(n: nat, d: nat, width: nat)
    requires d < 10 && 10 * n + d < Pow10(width + 1) && n < Pow10(width)
    ensures Padded(10 * n + d, width + 1) == Padded(n, width) + [DigitChar(d)]
  {
    LastDigit(n, d);
  }

  /** A digit string of a given width is the padded print of its number. */
  lemma {:induction false} PaddedNumber(s: string)
    requires AllDigits(s)
    ensures Number(s) < Pow10(|s|) && Padded(Number(s), |s|) == s
  {
    NumberBound(s);
    if s != [] {
      var init, last := s[..|s| - 1], s[|s| - 1];
      PaddedNumber(init);
      PaddedStep(Number(init), DigitValue(last), |init|);
      assert s == init + [last];
    }
  }

  const YEAR_DIGITS: nat := 4
  const FIELD_DIGITS: nat := 2

  /** A year and a month, with a hyphen between them. */
  predicate IsMonthKey(s: string, y: nat, m: nat) {
    y < Pow10(YEAR_DIGITS) && m < Pow10(FIELD_DIGITS) && s == Padded(y, YEAR_DIGITS) + "-" + Padded(m, FIELD_DIGITS)
  }

  predicate IsDateKey(s: string, y: nat, m: nat, d: nat) {
    |s| >= 3 && d < Pow10(FIELD_DIGITS) && IsMonthKey(s[..|s| - 3], y, m)
    && s[|s| - 3] == '-' && s[|s| - 2..] == Padded(d, FIELD_DIGITS)
  }

  lemma PrintedKeyIsValid(s: string, y: nat, m: nat)
    requires IsMonthKey(s, y, m) && 1 <= m <= 12
    ensures ValidMonthKey(s) && YearOf(s) == y && MonthOf(s) == m
  {
    assert s[..4] == Padded(y, YEAR_DIGITS) && s[5..] == Padded(m, FIELD_DIGITS);
  }

  lemma ValidKeyIsPrinted(s: string)
    requires ValidMonthKey(s)
    ensures IsMonthKey(s, YearOf(s), MonthOf(s))
  {
    PaddedNumber(s[..4]);
    PaddedNumber(s[5..]);
    assert |s[..4]| == YEAR_DIGITS && |s[5..]| == FIELD_DIGITS;
    assert s == s[..4] + "-" + s[5..];
  }

  /** Month keys are the prints of a four-digit year and a two-digit month. */
  lemma MonthKeyIff(s: string)
    ensures ValidMonthKey(s) <==> exists y, m | 0 <= y && 1 <= m <= 12 :: IsMonthKey(s, y, m)
  {
    if ValidMonthKey(s) {
      ValidKeyIsPrinted(s);
    }
    if y, m :| 0 <= y && 1 <= m <= 12 && IsMonthKey(s, y, m) {
      PrintedKeyIsValid(s, y, m);
    }
  }

  /** Day keys are the prints of a real day. */
  lemma DateKeyIff(s: string)
    ensures ValidDateKey(s) <==>
      exists y, m, d | 0 <= y && 1 <= m <= 12 && 1 <= d <= DaysIn(y, m) :: IsDateKey(s, y, m, d)
  {
    if ValidDateKey(s) {
      ValidKeyIsPrinted(s[..7]);
      PaddedNumber(s[8..]);
      assert IsDateKey(s, YearOf(s[..7]), MonthOf(s[..7]), Number(s[8..]));
    }
    if y, m, d :| 0 <= y && 1 <= m <= 12 && 1 <= d <= DaysIn(y, m) && IsDateKey(s, y, m, d) {
      PrintedKeyIsValid(s[..|s| - 3], y, m);
    }
  }

  function YearOf(key: string): nat
    requires ValidMonthKey(key)
  {
    Number(key[..4])
  }

  function MonthOf(key: string): (m: nat)
    requires ValidMonthKey(key)
    ensures 1 <= m <= 12
  {
    Number(key[5..])
  }

  /** Months counted from January of year 0. */
  function MonthIndex(key: string): nat
    requires ValidMonthKey(key)
  {
    12 * YearOf(key) + MonthOf(key) - 1
  }

  /** One index further is the next month. */
  lemma NextMonthIs(a: string, b: string)
    requires ValidMonthKey(a) && ValidMonthKey(b)
    ensures MonthIndex(b) == MonthIndex(a) + 1 <==>
      || (YearOf(b) == YearOf(a) && MonthOf(b) == MonthOf(a) + 1)
      || (YearOf(b) == YearOf(a) + 1 && MonthOf(a) == 12 && MonthOf(b) == 1)
  {
  }

  /** Ordering month keys as texts orders them in time. */
  lemma MonthOrder(a: string, b: string)
    requires ValidMonthKey(a) && ValidMonthKey(b)
    ensures Less(a, b) <==> MonthIndex(a) < MonthIndex(b)
    ensures a == b <==> MonthIndex(a) == MonthIndex(b)
  {
    DigitOrder(a[..4], b[..4]);
    DigitOrder(a[5..], b[5..]);
    assert a == a[..4] + ("-" + a[5..]) && b == b[..4] + ("-" + b[5..]);
    LessConcat(a[..4], b[..4], "-" + a[5..], "-" + b[5..]);
    LessConcat("-", "-", a[5..], b[5..]);
    LessIrreflexive("-");
  }

  predicate LeapYear(y: nat) {
    y % 4 == 0 && (y % 100 != 0 || y % 400 == 0)
  }

  function DaysIn(y: nat, m: nat): (d: nat)
    requires 1 <= m <= 12
    ensures 28 <= d <= 31
  {
    if m == 2 then (if LeapYear(y) then 29 else 28)
    else if m == 4 || m == 6 || m == 9 || m == 11 then 30
    else 31
  }

  /** The lengths of the months; February has a day more every fourth year, but for centuries that are no
      multiple of four hundred years. */
  lemma MonthLengths(y: nat, m: nat)
    requires 1 <= m <= 12
    ensures m != 2 ==> DaysIn(y, m) == [31, 0, 31, 30, 31, 30, 31, 31, 30, 31, 30, 31][m - 1]
    ensures DaysIn(y, 2) == 29 <==> y % 400 == 0 || (y % 4 == 0 && y % 100 != 0)
    ensures DaysIn(y, 2) == 28 || DaysIn(y, 2) == 29
  {
    assert y % 400 == 0 ==> y % 4 == 0;
  }

  /** shared.ValidateDateKey: YYYY-MM-DD naming a real day. */
  predicate ValidDateKey(s: string) {
    && |s| == 10 && ValidMonthKey(s[..7]) && s[7] == '-' && AllDigits(s[8..])
    && 1 <= Number(s[8..]) <= DaysIn(YearOf(s[..7]), MonthOf(s[..7]))
  }

  lemma ValidKeysAreTrimmed(s: string)
    requires ValidMonthKey(s) || ValidDateKey(s)
    ensures Trim(s) == s
  {
    assert IsDigit(s[0]) by {
      if ValidMonthKey(s) { assert s[0] == s[..4][0]; } else { assert s[0] == s[..7][..4][0]; }
    }
    assert IsDigit(s[|s| - 1]) by {
      if ValidMonthKey(s) { assert s[6] == s[5..][1]; } else { assert s[9] == s[8..][1]; }
    }
    TrimFacts(s);
  }

  lemma TwoDigits()
    ensures Pow10(2) == 100
  {
    assert Pow10(0) == 1;
    assert Pow10(1) == 10;
  }
}
