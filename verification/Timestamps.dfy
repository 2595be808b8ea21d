/** Instants as nanoseconds from the start of year 0, in UTC, and their fixed-width text form
    (RFC 3339 with nine fraction digits). */
module Timestamps {
  import opened Wrappers
  import opened Text
  import opened Calendar

  // ----- Days -----

  function DaysInYear(y: nat): (n: nat)
    ensures n == 365 || n == 366
  {
    if LeapYear(y) then 366 else 365
  }

  function DaysBeforeYear(y: nat): nat {
    if y == 0 then 0 else DaysBeforeYear(y - 1) + DaysInYear(y - 1)
  }

  function DaysBeforeMonth(y: nat, m: nat): nat
    requires 1 <= m <= 13
  {
    if m == 1 then 0 else DaysBeforeMonth(y, m - 1) + DaysIn(y, m - 1)
  }

  lemma {:induction false} YearsGrow(y: nat, z: nat)
    requires y < z
    ensures DaysBeforeYear(y) + DaysInYear(y) <= DaysBeforeYear(z)
  {
    if y < z - 1 {
      YearsGrow(y, z - 1);
    }
  }

  lemma {:induction false} MonthsGrow(y: nat, m: nat, n: nat)
    requires 1 <= m < n <= 13
    ensures DaysBeforeMonth(y, m) + DaysIn(y, m) <= DaysBeforeMonth(y, n)
  {
    if m < n - 1 {
      MonthsGrow(y, m, n - 1);
    }
  }

  lemma YearIsTwelveMonths(y: nat)
    ensures DaysBeforeMonth(y, 13) == DaysInYear(y)
  {
    assert DaysBeforeMonth(y, 2) == 31;
    assert DaysBeforeMonth(y, 3) == 31 + DaysIn(y, 2);
    assert DaysBeforeMonth(y, 4) == 62 + DaysIn(y, 2);
    assert DaysBeforeMonth(y, 5) == 92 + DaysIn(y, 2);
    assert DaysBeforeMonth(y, 6) == 123 + DaysIn(y, 2);
    assert DaysBeforeMonth(y, 7) == 153 + DaysIn(y, 2);
    assert DaysBeforeMonth(y, 8) == 184 + DaysIn(y, 2);
    assert DaysBeforeMonth(y, 9) == 215 + DaysIn(y, 2);
    assert DaysBeforeMonth(y, 10) == 245 + DaysIn(y, 2);
    assert DaysBeforeMonth(y, 11) == 276 + DaysIn(y, 2);
    assert DaysBeforeMonth(y, 12) == 306 + DaysIn(y, 2);
  }

  // ----- Civil times -----

  datatype Civil = Civil(year: nat, month: nat, day: nat, hour: nat, minute: nat, second: nat, nano: nat)

  const BILLION := 1_000_000_000

  predicate ValidCivil(c: Civil) {
    && c.year <= 9999 && 1 <= c.month <= 12 && 1 <= c.day <= DaysIn(c.year, c.month)
    && c.hour < 24 && c.minute < 60 && c.second < 60 && c.nano < BILLION
  }

  function DayNumber(c: Civil): nat
    requires ValidCivil(c)
  {
    DaysBeforeYear(c.year) + DaysBeforeMonth(c.year, c.month) + c.day - 1
  }

  /** The instant a civil time names. */
  function Instant(c: Civil): nat
    requires ValidCivil(c)
  {
    (((DayNumber(c) * 24 + c.hour) * 60 + c.minute) * 60 + c.second) * BILLION + c.nano
  }

  const DAYS_IN_TEN_THOUSAND_YEARS := 3_652_425

  /** The first instant after year 9999. */
  const END_OF_TIME: nat := DAYS_IN_TEN_THOUSAND_YEARS * 86_400 * BILLION

  const DAYS_IN_CYCLE := 146_097

  lemma FourYears(y: nat)
    ensures DaysBeforeYear(y + 4)
         == DaysBeforeYear(y) + DaysInYear(y) + DaysInYear(y + 1) + DaysInYear(y + 2) + DaysInYear(y + 3)
  {
    assert DaysBeforeYear(y + 2) == DaysBeforeYear(y) + DaysInYear(y) + DaysInYear(y + 1);
  }

  lemma LeapYearsOfCentury(c: nat, j: nat)
    requires j < 25
    ensures j > 0 ==> LeapYear(100 * c + 4 * j)
    ensures !LeapYear(100 * c + 4 * j + 1) && !LeapYear(100 * c + 4 * j + 2) && !LeapYear(100 * c + 4 * j + 3)
  {
    Quads(25 * c + j);
    Remainder(c, 4 * j);
  }

  lemma Quads(q: nat)
    ensures 4 * q % 4 == 0 && !LeapYear(4 * q + 1) && !LeapYear(4 * q + 2) && !LeapYear(4 * q + 3)
  {
  }

  lemma Remainder(c: nat, r: nat)
    requires r < 100
    ensures (100 * c + r) % 100 == r
  {
  }

  /** Within a century only its first year may miss being a leap year. */
  lemma {:induction false} Century(c: nat, k: nat)
    requires 0 < k <= 25
    ensures DaysBeforeYear(100 * c + 4 * k)
         == DaysBeforeYear(100 * c) + 1461 * k - (if LeapYear(100 * c) then 0 else 1)
  {
    FourYears(100 * c + 4 * (k - 1));
    LeapYearsOfCentury(c, k - 1);
    if k > 1 {
      Century(c, k - 1);
    }
  }

  lemma CenturyLeap(q: nat, r: nat)
    requires r < 4
    ensures LeapYear(100 * (4 * q + r)) <==> r == 0
  {
    Remainder(4 * q + r, 0);
    var y := 100 * (4 * q + r);
    assert y == 400 * q + 100 * r;
    assert y % 400 == 100 * r;
  }

  lemma WholeCentury(q: nat, r: nat)
    requires r < 4
    ensures DaysBeforeYear(100 * (4 * q + r) + 100)
         == DaysBeforeYear(100 * (4 * q + r)) + 36_524 + (if r == 0 then 1 else 0)
  {
    Century(4 * q + r, 25);
    CenturyLeap(q, r);
  }

  /** The calendar repeats every 400 years. */
  lemma Cycle(n: nat)
    ensures DaysBeforeYear(400 * n + 400) == DaysBeforeYear(400 * n) + DAYS_IN_CYCLE
  {
    WholeCentury(n, 0);
    WholeCentury(n, 1);
    WholeCentury(n, 2);
    WholeCentury(n, 3);
  }

  lemma {:induction false} Cycles(k: nat)
    ensures DaysBeforeYear(400 * k) == DAYS_IN_CYCLE * k
  {
    if k > 0 {
      Cycles(k - 1);
      Cycle(k - 1);
    }
  }

  // ----- From instants to civil times -----

  /** The year of a day, counted from the start of year y. */
  function LocateYear(days: nat, y: nat): (r: (nat, nat))
    ensures y <= r.0 && r.1 < DaysInYear(r.0)
    ensures DaysBeforeYear(r.0) + r.1 == DaysBeforeYear(y) + days
  {
    if days < DaysInYear(y) then (y, days) else LocateYear(days - DaysInYear(y), y + 1)
  }

  function LocateMonth(y: nat, day: nat, m: nat): (r: (nat, nat))
    requires 1 <= m <= 12 && DaysBeforeMonth(y, m) + day < DaysBeforeMonth(y, 13)
    ensures m <= r.0 <= 12 && r.1 < DaysIn(y, r.0)
    ensures DaysBeforeMonth(y, r.0) + r.1 == DaysBeforeMonth(y, m) + day
    decreases 13 - m
  {
    if day < DaysIn(y, m) then (m, day)
    else assert m < 12; LocateMonth(y, day - DaysIn(y, m), m + 1)
  }

  function CivilOf(t: nat): (c: Civil)
    requires t < END_OF_TIME
    ensures ValidCivil(c) && Instant(c) == t
  {
    var seconds := t / BILLION;
    var days := seconds / 86_400;
    var (year, inYear) := LocateYear(days, 0);
    YearIsTwelveMonths(year);
    var (month, inMonth) := LocateMonth(year, inYear, 1);
    YearInRange(t, year, inYear);
    var s := seconds % 86_400;
    var c := Civil(year, month, inMonth + 1, s / 3600, s / 60 % 60, s % 60, t % BILLION);
    SecondsAddUp(s);
    assert DayNumber(c) == days;
    InstantAddsUp(t, c);
    c
  }

  lemma SecondsAddUp(s: nat)
    requires s < 86_400
    ensures s / 3600 < 24 && (s / 3600 * 60 + s / 60 % 60) * 60 + s % 60 == s
  {
  }

  lemma InstantAddsUp(t: nat, c: Civil)
    requires ValidCivil(c)
    requires DayNumber(c) == t / BILLION / 86_400 && c.nano == t % BILLION
    requires (c.hour * 60 + c.minute) * 60 + c.second == t / BILLION % 86_400
    ensures Instant(c) == t
  {
  }

  lemma YearInRange(t: nat, year: nat, inYear: nat)
    requires t < END_OF_TIME
    requires DaysBeforeYear(year) + inYear == t / BILLION / 86_400
    ensures year <= 9999
  {
    var days := t / BILLION / 86_400;
    assert days < DAYS_IN_TEN_THOUSAND_YEARS;
    var last := 10_000;
    Cycles(25);
    if year > last {
      YearsGrow(last, year);
    }
  }

  // ----- Text -----

  datatype Field = Field(value: nat, width: nat, after: char)

  predicate Fit(fields: seq<Field>) {
    forall i | 0 <= i < |fields| :: fields[i].value < Pow10(fields[i].width)
  }

  function Print(fields: seq<Field>): string
    requires Fit(fields)
  {
    if fields == [] then []
    else Padded(fields[0].value, fields[0].width) + ([fields[0].after] + Print(fields[1..]))
  }

  predicate SameShape(a: seq<Field>, b: seq<Field>) {
    |a| == |b| && forall i | 0 <= i < |a| :: a[i].width == b[i].width && a[i].after == b[i].after
  }

  predicate Before(a: seq<Field>, b: seq<Field>)
    requires |a| == |b|
  {
    a != [] && (a[0].value < b[0].value || (a[0].value == b[0].value && Before(a[1..], b[1..])))
  }

  /** Text order of fixed-width fields is their order one after the other. */
  lemma {:induction false} TextOrderIsFieldOrder(a: seq<Field>, b: seq<Field>)
    requires Fit(a) && Fit(b) && SameShape(a, b)
    ensures Less(Print(a), Print(b)) <==> Before(a, b)
  {
    if a != [] {
      var x, y := Padded(a[0].value, a[0].width), Padded(b[0].value, b[0].width);
      var s, t := Print(a[1..]), Print(b[1..]);
      LessConcat(x, y, [a[0].after] + s, [b[0].after] + t);
      LessConcat([a[0].after], [b[0].after], s, t);
      LessIrreflexive([a[0].after]);
      DigitOrder(x, y);
      TextOrderIsFieldOrder(a[1..], b[1..]);
    }
  }

  function ClockFields(c: Civil): seq<Field> {
    [Field(c.hour, 2, ':')] + ([Field(c.minute, 2, ':')] + ([Field(c.second, 2, '.')] + [Field(c.nano, 9, 'Z')]))
  }

  function Fields(c: Civil): seq<Field> {
    [Field(c.year, 4, '-')] + ([Field(c.month, 2, '-')] + ([Field(c.day, 2, 'T')] + ClockFields(c)))
  }

  lemma Powers()
    ensures Pow10(2) == 100 && Pow10(4) == 10_000 && Pow10(9) == BILLION
  {
    TwoDigits();
    assert Pow10(3) == 1000;
    assert Pow10(4) == 10_000;
    assert Pow10(5) == 100_000;
    assert Pow10(6) == 1_000_000;
    assert Pow10(7) == 10_000_000;
    assert Pow10(8) == 100_000_000;
  }

  lemma FieldsFit(c: Civil)
    requires ValidCivil(c)
    ensures Fit(Fields(c))
  {
    Powers();
  }

  /** formatTime. */
  function Format(t: nat): string
    requires t < END_OF_TIME
  {
    FieldsFit(CivilOf(t));
    Print(Fields(CivilOf(t)))
  }

  lemma PrintFirst(f: Field, rest: seq<Field>)
    requires f.value < Pow10(f.width) && Fit(rest)
    ensures Fit([f] + rest) && Print([f] + rest) == Padded(f.value, f.width) + ([f.after] + Print(rest))
  {
    assert ([f] + rest)[1..] == rest;
  }

  /** The text of an instant: date, T, time, point, nanoseconds, Z. */
  lemma FormatIs(t: nat)
    requires t < END_OF_TIME
    ensures Pow10(2) == 100 && Pow10(4) == 10_000 && Pow10(9) == BILLION
    ensures var c := CivilOf(t);
      Format(t) == Padded(c.year, 4) + ("-" + (Padded(c.month, 2) + ("-" + (Padded(c.day, 2) + ("T"
        + ClockText(c.hour, c.minute, c.second, c.nano))))))
  {
    var c := CivilOf(t);
    Powers();
    ClockTextIs(c);
    PrintFirst(Field(c.day, 2, 'T'), ClockFields(c));
    PrintFirst(Field(c.month, 2, '-'), [Field(c.day, 2, 'T')] + ClockFields(c));
    PrintFirst(Field(c.year, 4, '-'), [Field(c.month, 2, '-')] + ([Field(c.day, 2, 'T')] + ClockFields(c)));
  }

  function ClockText(hour: nat, minute: nat, second: nat, nano: nat): string
    requires hour < Pow10(2) && minute < Pow10(2) && second < Pow10(2) && nano < Pow10(9)
  {
    Padded(hour, 2) + (":" + (Padded(minute, 2) + (":" + (Padded(second, 2) + ("." + (Padded(nano, 9) + "Z"))))))
  }

  lemma ClockTextIs(c: Civil)
    requires ValidCivil(c) && Pow10(2) == 100 && Pow10(9) == BILLION
    ensures Fit(ClockFields(c)) && Print(ClockFields(c)) == ClockText(c.hour, c.minute, c.second, c.nano)
  {
    var hour, minute := Field(c.hour, 2, ':'), Field(c.minute, 2, ':');
    var second, nano := Field(c.second, 2, '.'), Field(c.nano, 9, 'Z');
    LastIsPrinted(nano);
    PrintFirst(second, [nano]);
    PrintFirst(minute, [second] + [nano]);
    PrintFirst(hour, [minute] + ([second] + [nano]));
  }

  lemma LastIsPrinted(f: Field)
    requires f.value < Pow10(f.width)
    ensures Fit([f]) && Print([f]) == Padded(f.value, f.width) + [f.after]
  {
    assert [f] == [f] + [];
    PrintFirst(f, []);
    assert [f.after] + [] == [f.after];
  }

  // ----- Field order is time order -----

  lemma DayOrder(a: Civil, b: Civil)
    requires ValidCivil(a) && ValidCivil(b)
    ensures DayNumber(a) < DayNumber(b) <==>
      a.year < b.year || (a.year == b.year && (a.month < b.month || (a.month == b.month && a.day < b.day)))
    ensures DayNumber(a) == DayNumber(b) <==> a.year == b.year && a.month == b.month && a.day == b.day
  {
    DayInYear(a);
    DayInYear(b);
    if a.year < b.year {
      YearsGrow(a.year, b.year);
    } else if b.year < a.year {
      YearsGrow(b.year, a.year);
    } else if a.month < b.month {
      MonthsGrow(a.year, a.month, b.month);
    } else if b.month < a.month {
      MonthsGrow(a.year, b.month, a.month);
    }
  }

  lemma DayInYear(c: Civil)
    requires ValidCivil(c)
    ensures DaysBeforeYear(c.year) <= DayNumber(c) < DaysBeforeYear(c.year) + DaysInYear(c.year)
  {
    YearIsTwelveMonths(c.year);
    MonthsGrow(c.year, c.month, 13);
  }

  lemma BeforeCons(f: Field, g: Field, a: seq<Field>, b: seq<Field>)
    requires |a| == |b|
    ensures Before([f] + a, [g] + b) <==> f.value < g.value || (f.value == g.value && Before(a, b))
  {
    assert ([f] + a)[1..] == a && ([g] + b)[1..] == b;
  }

  /** Time of day. */
  lemma ClockOrder(a: Civil, b: Civil)
    ensures Before(ClockFields(a), ClockFields(b)) <==>
      a.hour < b.hour || (a.hour == b.hour && (a.minute < b.minute || (a.minute == b.minute &&
        (a.second < b.second || (a.second == b.second && a.nano < b.nano)))))
  {
    var f, g := Field(a.nano, 9, 'Z'), Field(b.nano, 9, 'Z');
    assert [f] == [f] + [] && [g] == [g] + [];
    BeforeCons(f, g, [], []);
    var x, y := Field(a.second, 2, '.'), Field(b.second, 2, '.');
    BeforeCons(x, y, [f], [g]);
    var u, v := Field(a.minute, 2, ':'), Field(b.minute, 2, ':');
    BeforeCons(u, v, [x] + [f], [y] + [g]);
    BeforeCons(Field(a.hour, 2, ':'), Field(b.hour, 2, ':'), [u] + ([x] + [f]), [v] + ([y] + [g]));
  }

  lemma InstantOrder(a: Civil, b: Civil)
    requires ValidCivil(a) && ValidCivil(b)
    ensures Instant(a) < Instant(b) <==> Before(Fields(a), Fields(b))
  {
    DayOrder(a, b);
    ClockOrder(a, b);
    var x, y := Field(a.day, 2, 'T'), Field(b.day, 2, 'T');
    BeforeCons(x, y, ClockFields(a), ClockFields(b));
    var u, v := Field(a.month, 2, '-'), Field(b.month, 2, '-');
    BeforeCons(u, v, [x] + ClockFields(a), [y] + ClockFields(b));
    BeforeCons(Field(a.year, 4, '-'), Field(b.year, 4, '-'),
               [u] + ([x] + ClockFields(a)), [v] + ([y] + ClockFields(b)));
  }

  /** On years 0000 to 9999, comparing the texts compares the times. */
  lemma FormatOrder(s: nat, t: nat)
    requires s < END_OF_TIME && t < END_OF_TIME
    ensures Less(Format(s), Format(t)) <==> s < t
    ensures Format(s) == Format(t) <==> s == t
  {
    FieldsFit(CivilOf(s));
    FieldsFit(CivilOf(t));
    TextOrderIsFieldOrder(Fields(CivilOf(s)), Fields(CivilOf(t)));
    InstantOrder(CivilOf(s), CivilOf(t));
    TextOrderIsFieldOrder(Fields(CivilOf(t)), Fields(CivilOf(s)));
    InstantOrder(CivilOf(t), CivilOf(s));
    LessIrreflexive(Format(s));
  }

  // ----- Parsing -----

  /** Reads fixed-width fields with their separators. */
  function Scan(s: string, shape: seq<(nat, char)>): Option<seq<nat>>
    decreases |shape|
  {
    if shape == [] then (if s == [] then Some([]) else None)
    else
      var (w, after) := shape[0];
      if |s| <= w || !AllDigits(s[..w]) || s[w] != after then None
      else
        match Scan(s[w + 1..], shape[1..])
        case None => None
        case Some(rest) => Some([Number(s[..w])] + rest)
  }

  const SHAPE: seq<(nat, char)> := [(4, '-'), (2, '-'), (2, 'T'), (2, ':'), (2, ':'), (2, '.'), (9, 'Z')]

  /** parseTime on texts of this form. */
  function Parse(s: string): Option<nat> {
    match Scan(s, SHAPE)
    case None => None
    case Some(v) =>
      if |v| != 7 then None
      else
        var c := Civil(v[0], v[1], v[2], v[3], v[4], v[5], v[6]);
        if ValidCivil(c) then Some(Instant(c)) else None
  }

  function ShapeOf(fields: seq<Field>): seq<(nat, char)> {
    if fields == [] then [] else [(fields[0].width, fields[0].after)] + ShapeOf(fields[1..])
  }

  function ValuesOf(fields: seq<Field>): seq<nat> {
    if fields == [] then [] else [fields[0].value] + ValuesOf(fields[1..])
  }

  lemma {:induction false} ScanPrint(fields: seq<Field>)
    requires Fit(fields)
    ensures Scan(Print(fields), ShapeOf(fields)) == Some(ValuesOf(fields))
  {
    if fields != [] {
      ScanPrint(fields[1..]);
      ScanOne(Padded(fields[0].value, fields[0].width), fields[0].after, Print(fields[1..]), ShapeOf(fields[1..]),
              ValuesOf(fields[1..]));
    }
  }

  lemma ScanOne(digits: string, after: char, s: string, shape: seq<(nat, char)>, values: seq<nat>)
    requires AllDigits(digits) && Scan(s, shape) == Some(values)
    ensures Scan(digits + ([after] + s), [(|digits|, after)] + shape) == Some([Number(digits)] + values)
  {
    var t, w := digits + ([after] + s), |digits|;
    assert t[..w] == digits && t[w] == after && t[w + 1..] == s;
    assert ([(w, after)] + shape)[1..] == shape;
  }

  /** A stored time reads back as the instant that was stored. */
  lemma ParseFormat(t: nat)
    requires t < END_OF_TIME
    ensures Parse(Format(t)) == Some(t)
  {
    var c := CivilOf(t);
    FieldsFit(c);
    ScanPrint(Fields(c));
    ShapeOfCivil(c);
  }

  lemma ShapeCons(f: Field, rest: seq<Field>)
    ensures ShapeOf([f] + rest) == [(f.width, f.after)] + ShapeOf(rest)
    ensures ValuesOf([f] + rest) == [f.value] + ValuesOf(rest)
  {
    assert ([f] + rest)[1..] == rest;
  }

  lemma ShapeOfClock(c: Civil)
    ensures ShapeOf(ClockFields(c)) == [(2, ':'), (2, ':'), (2, '.'), (9, 'Z')]
    ensures ValuesOf(ClockFields(c)) == [c.hour, c.minute, c.second, c.nano]
  {
    var nano, second, minute := Field(c.nano, 9, 'Z'), Field(c.second, 2, '.'), Field(c.minute, 2, ':');
    ShapeCons(nano, []);
    assert [nano] + [] == [nano];
    ShapeCons(second, [nano]);
    ShapeCons(minute, [second] + [nano]);
    ShapeCons(Field(c.hour, 2, ':'), [minute] + ([second] + [nano]));
  }

  lemma ShapeOfCivil(c: Civil)
    ensures ShapeOf(Fields(c)) == SHAPE
    ensures ValuesOf(Fields(c)) == [c.year, c.month, c.day, c.hour, c.minute, c.second, c.nano]
  {
    ShapeOfClock(c);
    var day, month := Field(c.day, 2, 'T'), Field(c.month, 2, '-');
    ShapeCons(day, ClockFields(c));
    ShapeCons(month, [day] + ClockFields(c));
    ShapeCons(Field(c.year, 4, '-'), [month] + ([day] + ClockFields(c)));
  }
}
