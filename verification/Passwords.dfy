/** The argon2id password hash as text: the printer, the parser, and verification. */
module Passwords {
  import opened Wrappers
  import opened Text
  import opened Calendar
  import opened Base64

  const ALGORITHM := "argon2id"
  const VERSION := 19
  const TWO_32 := 0x1_0000_0000

  datatype Params = Params(memory: nat, iterations: nat, parallelism: nat, saltLength: nat, keyLength: nat)

  datatype HashError =
    | Malformed | UnsupportedAlgorithm | UnsupportedVersion | MalformedParameters | UnknownParameter
    | MissingParameter | MalformedSalt | MalformedValue | InvalidParameters

  // ----- Decimal numbers -----

  /** %d for a non-negative number. */
  function Decimal(n: nat): string {
    if n < 10 then [DigitChar(n)] else Decimal(n / 10) + [DigitChar(n % 10)]
  }

  lemma {:induction false} DecimalIsNumber(n: nat)
    ensures Decimal(n) != [] && AllDigits(Decimal(n)) && Number(Decimal(n)) == n
  {
    var s := Decimal(n);
    if n < 10 {
      assert s[..0] == [];
      assert Number(s) == 10 * Number(s[..0]) + n;
    } else {
      DecimalIsNumber(n / 10);
      assert s[..|s| - 1] == Decimal(n / 10);
    }
  }

  /** strconv.ParseUint(s, 10, 32). */
  function ParseUint32(s: string): Option<nat> {
    if s != [] && AllDigits(s) && Number(s) < TWO_32 then Some(Number(s)) else None
  }

  // ----- Parameters -----

  datatype Name = Memory | Iterations | Parallelism

  function KeyOf(name: Name): char {
    match name
    case Memory => 'm'
    case Iterations => 't'
    case Parallelism => 'p'
  }

  function NameOf(key: string): Option<Name> {
    if key == [KeyOf(Memory)] then Some(Memory)
    else if key == [KeyOf(Iterations)] then Some(Iterations)
    else if key == [KeyOf(Parallelism)] then Some(Parallelism)
    else None
  }

  datatype Setting = Setting(name: Name, value: nat)

  /** What one `key=value` part stands for. */
  function ParsePart(part: string): Result<Setting, HashError> {
    match Cut(part, '=')
    case None => Failure(MalformedParameters)
    case Some((key, raw)) =>
      var n := ParseUint32(raw).GetOr(0);
      if n == 0 || (NameOf(key) == Some(Parallelism) && n > 255) then Failure(MalformedParameters)
      else if NameOf(key).None? then Failure(UnknownParameter)
      else Success(Setting(NameOf(key).value, n))
  }

  predicate AllParse(parts: seq<string>) {
    forall i | 0 <= i < |parts| :: ParsePart(parts[i]).Success?
  }

  /** The value a parameter was given last. */
  function LastValue(parts: seq<string>, name: Name): Option<nat>
    requires AllParse(parts)
  {
    if parts == [] then None
    else
      var setting := ParsePart(parts[|parts| - 1]).value;
      if setting.name == name then Some(setting.value) else LastValue(parts[..|parts| - 1], name)
  }

  function FirstError(parts: seq<string>): HashError
    requires !AllParse(parts)
  {
    if ParsePart(parts[0]).Failure? then ParsePart(parts[0]).error else FirstError(parts[1..])
  }

  /** Every part must parse, and each of the three parameters must occur. */
  function ParsedParams(parts: seq<string>): Result<Params, HashError> {
    if !AllParse(parts) then Failure(FirstError(parts))
    else
      var m, t, p := LastValue(parts, Memory), LastValue(parts, Iterations), LastValue(parts, Parallelism);
      if m.Some? && t.Some? && p.Some? then Success(Params(m.value, t.value, p.value, 0, 0))
      else Failure(MissingParameter)
  }

  lemma {:induction false} FirstErrorIs(parts: seq<string>, i: nat)
    requires i < |parts| && AllParse(parts[..i]) && ParsePart(parts[i]).Failure?
    ensures !AllParse(parts) && FirstError(parts) == ParsePart(parts[i]).error
  {
    if i > 0 {
      assert parts[..i][0] == parts[0];
      assert parts[1..][..i - 1] == parts[..i][1..];
      FirstErrorIs(parts[1..], i - 1);
    }
  }

  /** The loop's variables after some parts. */
  ghost predicate Collected(parts: seq<string>, params: Params, seen: set<Name>) {
    && AllParse(parts)
    && (forall name :: name in seen <==> LastValue(parts, name).Some?)
    && (Memory in seen ==> LastValue(parts, Memory) == Some(params.memory))
    && (Iterations in seen ==> LastValue(parts, Iterations) == Some(params.iterations))
    && (Parallelism in seen ==> LastValue(parts, Parallelism) == Some(params.parallelism))
    && params.saltLength == 0 && params.keyLength == 0
  }

  function Set(params: Params, setting: Setting): Params {
    match setting.name
    case Memory => params.(memory := setting.value)
    case Iterations => params.(iterations := setting.value)
    case Parallelism => params.(parallelism := setting.value)
  }

  lemma CollectedOneMore(parts: seq<string>, part: string, params: Params, seen: set<Name>)
    requires Collected(parts, params, seen) && ParsePart(part).Success?
    ensures var setting := ParsePart(part).value;
      Collected(parts + [part], Set(params, setting), seen + {setting.name})
  {
    assert (parts + [part])[..|parts|] == parts;
  }

  /** The body of its loop: one part is split, read, and stored under its name. */
  method ReadPart(part: string, params: Params, seen: set<Name>) returns (r: Result<(Params, set<Name>), HashError>)
    ensures ParsePart(part).Failure? ==> r == Failure(ParsePart(part).error)
    ensures ParsePart(part).Success? ==>
      r == Success((Set(params, ParsePart(part).value), seen + {ParsePart(part).value.name}))
  {
    var cut := Cut(part, '=');
    if cut.None? { return Failure(MalformedParameters); }
    var (key, raw) := cut.value;
    var parsed := ParseUint32(raw);
    if parsed.None? || parsed.value == 0 { return Failure(MalformedParameters); }
    match NameOf(key)
    case Some(Memory) => r := Success((params.(memory := parsed.value), seen + {Memory}));
    case Some(Iterations) => r := Success((params.(iterations := parsed.value), seen + {Iterations}));
    case Some(Parallelism) =>
      if parsed.value > 255 { return Failure(MalformedParameters); }
      r := Success((params.(parallelism := parsed.value), seen + {Parallelism}));
    case None =>
      return Failure(UnknownParameter);
  }

  /** parseArgon2Params. */
  method ParseArgon2Params(value: string) returns (r: Result<Params, HashError>)
    ensures r == ParsedParams(Split(value, ','))
  {
    var parts := Split(value, ',');
    var params := Params(0, 0, 0, 0, 0);
    var seen: set<Name> := {};
    for i := 0 to |parts|
      invariant Collected(parts[..i], params, seen)
    {
      assert parts[..i + 1] == parts[..i] + [parts[i]];
      var read := ReadPart(parts[i], params, seen);
      if read.Failure? {
        FirstErrorIs(parts, i);
        return Failure(read.error);
      }
      CollectedOneMore(parts[..i], parts[i], params, seen);
      params, seen := read.value.0, read.value.1;
    }
    assert parts[..|parts|] == parts;
    if Memory !in seen || Iterations !in seen || Parallelism !in seen { return Failure(MissingParameter); }
    r := Success(params);
  }

  // ----- The whole text -----

  function VersionText(): string {
    "v=" + Decimal(VERSION)
  }

  function Part(name: Name, n: nat): string {
    [KeyOf(name)] + "=" + Decimal(n)
  }

  function ParamsText(m: nat, t: nat, p: nat): string {
    Part(Memory, m) + "," + Part(Iterations, t) + "," + Part(Parallelism, p)
  }

  /** A hash with the given parameter field. */
  function HashText(params: string, salt: seq<Byte>, key: seq<Byte>): string {
    ALGORITHM + "$" + VersionText() + "$" + params + "$" + Encode(salt) + "$" + Encode(key)
  }

  /** What hashPassword prints. */
  function Print(m: nat, t: nat, p: nat, salt: seq<Byte>, key: seq<Byte>): string {
    HashText(ParamsText(m, t, p), salt, key)
  }

  datatype Parsed = Parsed(params: Params, salt: seq<Byte>, key: seq<Byte>)

  /** parsePasswordHash. */
  function Parse(text: string): Result<Parsed, HashError> {
    ParseFields(Split(text, '$'))
  }

  function ParseFields(parts: seq<string>): (r: Result<Parsed, HashError>)
    ensures r.Success? ==> r.value.salt != [] && r.value.key != []
  {
    if |parts| != 5 then Failure(Malformed)
    else if parts[0] != ALGORITHM then Failure(UnsupportedAlgorithm)
    else if parts[1] != VersionText() then Failure(UnsupportedVersion)
    else
      var params :- ParsedParams(Split(parts[2], ','));
      var salt := Decode(parts[3]);
      if salt.None? || salt.value == [] then Failure(MalformedSalt)
      else
        var key := Decode(parts[4]);
        if key.None? || key.value == [] then Failure(MalformedValue)
        else Success(Parsed(params.(saltLength := |salt.value| % TWO_32, keyLength := |key.value| % TWO_32),
                            salt.value, key.value))
  }

  predicate InRange(m: nat, t: nat, p: nat) {
    0 < m < TWO_32 && 0 < t < TWO_32 && 0 < p < 256
  }

  // ----- Parameters in any order -----

  predicate Fits(name: Name, n: nat) {
    0 < n < TWO_32 && (name == Parallelism ==> n < 256)
  }

  lemma PartParses(name: Name, n: nat)
    requires Fits(name, n)
    ensures ParsePart(Part(name, n)) == Success(Setting(name, n))
  {
    DecimalIsNumber(n);
    var key := [KeyOf(name)];
    IndexAfter(key, '=', Decimal(n));
    assert Part(name, n) == key + ['='] + Decimal(n);
    assert Part(name, n)[..1] == key && Part(name, n)[2..] == Decimal(n);
  }

  lemma PartText(name: Name, n: nat)
    ensures ',' !in Part(name, n) && '$' !in Part(name, n)
  {
    DecimalIsNumber(n);
  }

  lemma {:induction false} LastValueOfOnlyPart(parts: seq<string>, name: Name, i: nat)
    requires AllParse(parts) && i < |parts| && ParsePart(parts[i]).value.name == name
    requires forall j | 0 <= j < |parts| && j != i :: ParsePart(parts[j]).value.name != name
    ensures LastValue(parts, name) == Some(ParsePart(parts[i]).value.value)
  {
    if i < |parts| - 1 {
      LastValueOfOnlyPart(parts[..|parts| - 1], name, i);
    }
  }

  /** Where the elements of a three-element multiset stand. */
  lemma Positions(parts: seq<string>, a: string, b: string, c: string) returns (i: nat, j: nat, k: nat)
    requires multiset(parts) == multiset{a, b, c} && a != b && b != c && a != c
    ensures |parts| == 3 && i < 3 && j < 3 && k < 3 && i != j && j != k && i != k
    ensures parts[i] == a && parts[j] == b && parts[k] == c
  {
    assert |multiset(parts)| == 3;
    assert a in multiset(parts) && b in multiset(parts) && c in multiset(parts);
    i :| i < |parts| && parts[i] == a;
    j :| j < |parts| && parts[j] == b;
    k :| k < |parts| && parts[k] == c;
  }

  lemma CollectedAt(parts: seq<string>, i: nat, j: nat, k: nat, m: nat, t: nat, p: nat)
    requires |parts| == 3 && AllParse(parts) && i < 3 && j < 3 && k < 3 && i != j && j != k && i != k
    requires ParsePart(parts[i]) == Success(Setting(Memory, m))
    requires ParsePart(parts[j]) == Success(Setting(Iterations, t))
    requires ParsePart(parts[k]) == Success(Setting(Parallelism, p))
    ensures ParsedParams(parts) == Success(Params(m, t, p, 0, 0))
  {
    OnlyOfThree(parts, i, j, k, Memory);
    OnlyOfThree(parts, j, i, k, Iterations);
    OnlyOfThree(parts, k, i, j, Parallelism);
  }

  lemma OnlyOfThree(parts: seq<string>, i: nat, j: nat, k: nat, name: Name)
    requires |parts| == 3 && AllParse(parts) && i < 3 && j < 3 && k < 3 && i != j && j != k && i != k
    requires ParsePart(parts[i]).value.name == name
    requires ParsePart(parts[j]).value.name != name && ParsePart(parts[k]).value.name != name
    ensures LastValue(parts, name) == Some(ParsePart(parts[i]).value.value)
  {
    forall x | 0 <= x < |parts| && x != i
      ensures ParsePart(parts[x]).value.name != name
    {
      assert x == j || x == k;
    }
    LastValueOfOnlyPart(parts, name, i);
  }

  lemma AnyOrderCollects(parts: seq<string>, a: string, b: string, c: string, m: nat, t: nat, p: nat)
    requires ParsePart(a) == Success(Setting(Memory, m))
    requires ParsePart(b) == Success(Setting(Iterations, t))
    requires ParsePart(c) == Success(Setting(Parallelism, p))
    requires multiset(parts) == multiset{a, b, c}
    ensures ParsedParams(parts) == Success(Params(m, t, p, 0, 0))
  {
    var i, j, k := Positions(parts, a, b, c);
    forall x | 0 <= x < |parts|
      ensures ParsePart(parts[x]).Success?
    {
      assert parts[x] in multiset(parts);
    }
    CollectedAt(parts, i, j, k, m, t, p);
  }

  /** The three parameters are read alike in whatever order they are written. */
  lemma AnyOrderParses(m: nat, t: nat, p: nat, parts: seq<string>)
    requires InRange(m, t, p)
    requires multiset(parts) == multiset{Part(Memory, m), Part(Iterations, t), Part(Parallelism, p)}
    ensures ParsedParams(Split(Join(parts, ','), ',')) == Success(Params(m, t, p, 0, 0))
  {
    var a, b, c := Part(Memory, m), Part(Iterations, t), Part(Parallelism, p);
    PartParses(Memory, m);
    PartParses(Iterations, t);
    PartParses(Parallelism, p);
    AnyOrderCollects(parts, a, b, c, m, t, p);
    PartsArePlain(parts, m, t, p);
    SplitJoin(parts, ',');
  }

  lemma PartsArePlain(parts: seq<string>, m: nat, t: nat, p: nat)
    requires multiset(parts) == multiset{Part(Memory, m), Part(Iterations, t), Part(Parallelism, p)}
    ensures parts != [] && forall x | x in parts :: ',' !in x && '$' !in x
  {
    var parts' := multiset{Part(Memory, m), Part(Iterations, t), Part(Parallelism, p)};
    PartText(Memory, m);
    PartText(Iterations, t);
    PartText(Parallelism, p);
    assert Part(Memory, m) in parts';
    forall x | x in parts
      ensures ',' !in x && '$' !in x
    {
      assert x in multiset(parts) && x in parts';
    }
  }

  // ----- Printing and parsing -----

  /** A hash text is made of five fields without a dollar sign. */
  lemma HashFields(params: string, salt: seq<Byte>, key: seq<Byte>)
    requires '$' !in params
    ensures Split(HashText(params, salt, key), '$')
         == [ALGORITHM, VersionText(), params, Encode(salt), Encode(key)]
  {
    DecimalIsNumber(VERSION);
    EncodedText(salt);
    EncodedText(key);
    assert SymbolValue('$').None?;
    SplitFive(ALGORITHM, VersionText(), params, Encode(salt), Encode(key), '$');
  }

  lemma SplitFive(a: string, b: string, c: string, d: string, e: string, sep: char)
    requires sep !in a && sep !in b && sep !in c && sep !in d && sep !in e
    ensures Split(a + [sep] + b + [sep] + c + [sep] + d + [sep] + e, sep) == [a, b, c, d, e]
  {
    var fields := [a, b, c, d, e];
    JoinFive(fields, sep);
    SplitJoin(fields, sep);
  }

  lemma JoinFive(fields: seq<string>, sep: char)
    requires |fields| == 5
    ensures Join(fields, sep)
         == fields[0] + [sep] + fields[1] + [sep] + fields[2] + [sep] + fields[3] + [sep] + fields[4]
  {
    assert fields[1..][1..][1..][1..] == [fields[4]];
    assert Join([fields[4]], sep) == fields[4];
    assert Join(fields[1..][1..][1..], sep) == fields[3] + [sep] + fields[4];
    assert Join(fields[1..][1..], sep) == fields[2] + [sep] + (fields[3] + [sep] + fields[4]);
  }

  /** Five good fields parse. */
  lemma FieldsParse(fields: seq<string>, params: Params, salt: seq<Byte>, key: seq<Byte>)
    requires |fields| == 5 && fields[0] == ALGORITHM && fields[1] == VersionText()
    requires ParsedParams(Split(fields[2], ',')) == Success(params)
    requires Decode(fields[3]) == Some(salt) && Decode(fields[4]) == Some(key) && salt != [] && key != []
    ensures ParseFields(fields)
         == Success(Parsed(params.(saltLength := |salt| % TWO_32, keyLength := |key| % TWO_32), salt, key))
  {
  }

  lemma {:induction false} JoinLacks(parts: seq<string>, sep: char, c: char)
    requires c != sep && parts != [] && forall x | x in parts :: c !in x
    ensures c !in Join(parts, sep)
  {
    if |parts| > 1 {
      JoinLacks(parts[1..], sep, c);
    }
  }

  /** Whatever the order of the parameters, the text parses to what was printed. */
  lemma ParseReordered(m: nat, t: nat, p: nat, parts: seq<string>, salt: seq<Byte>, key: seq<Byte>)
    requires InRange(m, t, p) && salt != [] && key != []
    requires multiset(parts) == multiset{Part(Memory, m), Part(Iterations, t), Part(Parallelism, p)}
    ensures Parse(HashText(Join(parts, ','), salt, key))
         == Success(Parsed(Params(m, t, p, |salt| % TWO_32, |key| % TWO_32), salt, key))
  {
    AnyOrderParses(m, t, p, parts);
    PartsArePlain(parts, m, t, p);
    JoinLacks(parts, ',', '$');
    HashFields(Join(parts, ','), salt, key);
    DecodeEncode(salt);
    DecodeEncode(key);
    FieldsParse(Split(HashText(Join(parts, ','), salt, key), '$'), Params(m, t, p, 0, 0), salt, key);
  }

  lemma ParamsTextIsJoin(m: nat, t: nat, p: nat)
    ensures ParamsText(m, t, p) == Join([Part(Memory, m), Part(Iterations, t), Part(Parallelism, p)], ',')
  {
    var parts := [Part(Memory, m), Part(Iterations, t), Part(Parallelism, p)];
    assert parts[1..][1..] == [Part(Parallelism, p)];
    assert Join(parts[1..], ',') == Part(Iterations, t) + "," + Part(Parallelism, p);
  }

  /** Parsing a printed hash gives back what was printed. */
  lemma ParsePrint(m: nat, t: nat, p: nat, salt: seq<Byte>, key: seq<Byte>)
    requires InRange(m, t, p) && salt != [] && key != []
    ensures Parse(Print(m, t, p, salt, key))
         == Success(Parsed(Params(m, t, p, |salt| % TWO_32, |key| % TWO_32), salt, key))
  {
    ParamsTextIsJoin(m, t, p);
    ParseReordered(m, t, p, [Part(Memory, m), Part(Iterations, t), Part(Parallelism, p)], salt, key);
  }

  // ----- The texts themselves -----

  lemma DecimalOfVersion()
    ensures Decimal(19) == "19"
  {
    assert Decimal(1) == [DigitChar(1)];
    assert DigitChar(1) == '1' && DigitChar(9) == '9';
    assert Decimal(19) == Decimal(1) + [DigitChar(9)];
  }

  lemma Regroup(h: string, i: string, a: string, j: string, b: string, k: string, c: string)
    ensures h + (i + a + "," + (j + b) + "," + (k + c)) == h + i + a + ("," + j) + b + ("," + k) + c
  {
  }

  lemma PartTexts(m: nat, t: nat, p: nat)
    ensures Part(Memory, m) == "m=" + Decimal(m)
    ensures Part(Iterations, t) == "t=" + Decimal(t)
    ensures Part(Parallelism, p) == "p=" + Decimal(p)
  {
    assert ['m'] + "=" == "m=" && ['t'] + "=" == "t=" && ['p'] + "=" == "p=";
  }

  lemma HeadText()
    ensures ALGORITHM + "$" + VersionText() + "$" == "argon2id$v=19$"
  {
    DecimalOfVersion();
    assert "v=" + "19" == "v=19";
    assert "argon2id" + "$" + "v=19" + "$" == "argon2id$v=19$";
  }

  /** The memory in m, the iterations in t, the parallelism in p, in this order. */
  lemma PrintedText(m: nat, t: nat, p: nat, salt: seq<Byte>, key: seq<Byte>)
    ensures Print(m, t, p, salt, key)
         == "argon2id$v=19$m=" + Decimal(m) + ",t=" + Decimal(t) + ",p=" + Decimal(p)
            + "$" + Encode(salt) + "$" + Encode(key)
  {
    PartTexts(m, t, p);
    HeadText();
    Regroup("argon2id$v=19$", "m=", Decimal(m), "t=", Decimal(t), "p=", Decimal(p));
    assert "argon2id$v=19$" + "m=" == "argon2id$v=19$m=" && "," + "t=" == ",t=" && "," + "p=" == ",p=";
    PrintedAfterHead(m, t, p, salt, key);
  }

  lemma PrintedAfterHead(m: nat, t: nat, p: nat, salt: seq<Byte>, key: seq<Byte>)
    ensures Print(m, t, p, salt, key)
         == ALGORITHM + "$" + VersionText() + "$" + ParamsText(m, t, p) + "$" + Encode(salt) + "$" + Encode(key)
  {
  }

  datatype Order = MTP | MPT | TMP | TPM | PMT | PTM

  /** The parameter field in a given order. */
  function ParamField(order: Order, m: nat, t: nat, p: nat): string {
    match order
    case MTP => "m=" + Decimal(m) + ",t=" + Decimal(t) + ",p=" + Decimal(p)
    case MPT => "m=" + Decimal(m) + ",p=" + Decimal(p) + ",t=" + Decimal(t)
    case TMP => "t=" + Decimal(t) + ",m=" + Decimal(m) + ",p=" + Decimal(p)
    case TPM => "t=" + Decimal(t) + ",p=" + Decimal(p) + ",m=" + Decimal(m)
    case PMT => "p=" + Decimal(p) + ",m=" + Decimal(m) + ",t=" + Decimal(t)
    case PTM => "p=" + Decimal(p) + ",t=" + Decimal(t) + ",m=" + Decimal(m)
  }

  lemma JoinThree(x: string, y: string, z: string)
    ensures Join([x, y, z], ',') == x + [','] + (y + [','] + z)
  {
    assert [x, y, z][1..] == [y, z] && [y, z][1..] == [z];
    assert Join([y, z], ',') == y + [','] + z;
  }

  lemma FieldOfThree(i: string, a: string, j: string, b: string, k: string, c: string)
    ensures Join([i + a, j + b, k + c], ',') == i + a + ([','] + j) + b + ([','] + k) + c
  {
    JoinThree(i + a, j + b, k + c);
  }

  function PartsIn(order: Order, a: string, b: string, c: string): seq<string> {
    match order
    case MTP => [a, b, c]
    case MPT => [a, c, b]
    case TMP => [b, a, c]
    case TPM => [b, c, a]
    case PMT => [c, a, b]
    case PTM => [c, b, a]
  }

  lemma FieldIsJoin(order: Order, m: nat, t: nat, p: nat)
    ensures ParamField(order, m, t, p)
         == Join(PartsIn(order, Part(Memory, m), Part(Iterations, t), Part(Parallelism, p)), ',')
  {
    var a, b, c := Decimal(m), Decimal(t), Decimal(p);
    PartTexts(m, t, p);
    assert [','] + "m=" == ",m=" && [','] + "t=" == ",t=" && [','] + "p=" == ",p=";
    match order
    case MTP => FieldOfThree("m=", a, "t=", b, "p=", c);
    case MPT => FieldOfThree("m=", a, "p=", c, "t=", b);
    case TMP => FieldOfThree("t=", b, "m=", a, "p=", c);
    case TPM => FieldOfThree("t=", b, "p=", c, "m=", a);
    case PMT => FieldOfThree("p=", c, "m=", a, "t=", b);
    case PTM => FieldOfThree("p=", c, "t=", b, "m=", a);
  }

  lemma AnyPartsAreThose(order: Order, a: string, b: string, c: string)
    ensures multiset(PartsIn(order, a, b, c)) == multiset{a, b, c}
  {
  }

  /** The text with the three parameters in any of their six orders reads as these figures. */
  lemma ParsedText(order: Order, m: nat, t: nat, p: nat, salt: seq<Byte>, key: seq<Byte>)
    requires 0 < m < 0x1_0000_0000 && 0 < t < 0x1_0000_0000 && 0 < p < 256 && salt != [] && key != []
    ensures var text := "argon2id$v=19$" + ParamField(order, m, t, p) + "$" + Encode(salt) + "$" + Encode(key);
      && Parse(text).Success? && Parse(text).value.salt == salt && Parse(text).value.key == key
      && Parse(text).value.params.memory == m && Parse(text).value.params.iterations == t
      && Parse(text).value.params.parallelism == p
  {
    var field := ParamField(order, m, t, p);
    var parts := PartsIn(order, Part(Memory, m), Part(Iterations, t), Part(Parallelism, p));
    FieldIsJoin(order, m, t, p);
    AnyPartsAreThose(order, Part(Memory, m), Part(Iterations, t), Part(Parallelism, p));
    ParseReordered(m, t, p, parts, salt, key);
    HeadText();
    assert HashText(field, salt, key) == "argon2id$v=19$" + field + "$" + Encode(salt) + "$" + Encode(key);
  }

  /** One `key=value` part: a positive decimal number of 32 bits, for p of 8; of the keys only m, t and p are known,
      and the number is read first. */
  lemma PartIs(key: string, raw: string)
    requires '=' !in key
    ensures var r := ParsePart(key + "=" + raw);
      if raw == "" || !AllDigits(raw) || Number(raw) == 0 || Number(raw) >= 0x1_0000_0000
      then r == Failure(MalformedParameters)
      else if key == "m" then r == Success(Setting(Memory, Number(raw)))
      else if key == "t" then r == Success(Setting(Iterations, Number(raw)))
      else if key == "p" then
        r == if Number(raw) > 255 then Failure(MalformedParameters) else Success(Setting(Parallelism, Number(raw)))
      else r == Failure(UnknownParameter)
  {
    IndexAfter(key, '=', raw);
    var part := key + "=" + raw;
    assert part == key + ['='] + raw && part[..|key|] == key && part[|key| + 1..] == raw;
  }

  /** A part without an equals sign is malformed. */
  lemma PartWithoutValue(part: string)
    requires '=' !in part
    ensures ParsePart(part) == Failure(MalformedParameters)
  {
  }

  /** When every part reads, a parameter that none of them names is missing. */
  lemma {:induction false} AbsentParameter(parts: seq<string>, name: Name)
    requires AllParse(parts) && forall i | 0 <= i < |parts| :: ParsePart(parts[i]).value.name != name
    ensures LastValue(parts, name).None? && ParsedParams(parts) == Failure(MissingParameter)
  {
    if parts != [] {
      AbsentParameter(parts[..|parts| - 1], name);
    }
  }

  /** What is wrong with a hash text, in the order of the checks. */
  lemma RefusedFieldsAre(fields: seq<string>)
    ensures var r := ParseFields(fields);
      if |fields| != 5 then r == Failure(Malformed)
      else if fields[0] != "argon2id" then r == Failure(UnsupportedAlgorithm)
      else if fields[1] != "v=19" then r == Failure(UnsupportedVersion)
      else if ParsedParams(Split(fields[2], ',')).Failure?
      then r == Failure(ParsedParams(Split(fields[2], ',')).error)
      else if Decode(fields[3]).None? || Decode(fields[3]) == Some([]) then r == Failure(MalformedSalt)
      else if Decode(fields[4]).None? || Decode(fields[4]) == Some([]) then r == Failure(MalformedValue)
      else r.Success?
  {
    DecimalOfVersion();
  }

  lemma {:induction false} LastValueRange(parts: seq<string>, name: Name)
    requires AllParse(parts) && LastValue(parts, name).Some?
    ensures Fits(name, LastValue(parts, name).value)
  {
    if ParsePart(parts[|parts| - 1]).value.name != name {
      LastValueRange(parts[..|parts| - 1], name);
    }
  }

  lemma ParamsRange(parts: seq<string>)
    requires ParsedParams(parts).Success?
    ensures var r := ParsedParams(parts).value; InRange(r.memory, r.iterations, r.parallelism)
  {
    LastValueRange(parts, Memory);
    LastValueRange(parts, Iterations);
    LastValueRange(parts, Parallelism);
  }

  lemma AcceptedRange(fields: seq<string>)
    requires ParseFields(fields).Success?
    ensures var r := ParseFields(fields).value;
      && InRange(r.params.memory, r.params.iterations, r.params.parallelism)
      && r.params.saltLength == |r.salt| % TWO_32 && r.params.keyLength == |r.key| % TWO_32
  {
    ParamsRange(Split(fields[2], ','));
  }

  /** Whatever text is accepted, printing what was read gives a text that reads the same. */
  lemma AcceptedTextHasCanonicalForm(text: string)
    requires Parse(text).Success?
    ensures var r := Parse(text).value;
      Parse(Print(r.params.memory, r.params.iterations, r.params.parallelism, r.salt, r.key)) == Parse(text)
  {
    var r := Parse(text).value;
    AcceptedRange(Split(text, '$'));
    ParsePrint(r.params.memory, r.params.iterations, r.params.parallelism, r.salt, r.key);
  }

  // ----- Hashing and verifying -----

  /** Argon2id itself: password, salt, iterations, memory, parallelism, key length. */
  type KeyFunction = (seq<Byte>, seq<Byte>, nat, nat, nat, nat) -> seq<Byte>

  ghost predicate FitsLength(kdf: KeyFunction) {
    forall pw, salt, t, m, p, n :: |kdf(pw, salt, t, m, p, n)| == n
  }

  /** hashPassword, for a salt drawn at random. */
  function Hash(kdf: KeyFunction, password: seq<Byte>, params: Params, salt: seq<Byte>): Result<string, HashError> {
    if params.memory == 0 || params.iterations == 0 || params.parallelism == 0 || params.saltLength == 0
       || params.keyLength == 0
    then Failure(InvalidParameters)
    else
      var key := kdf(password, salt, params.iterations, params.memory, params.parallelism, params.keyLength);
      Success(Print(params.memory, params.iterations, params.parallelism, salt, key))
  }

  /** VerifyPassword. */
  function Verify(kdf: KeyFunction, password: seq<Byte>, text: string): Result<bool, HashError> {
    var r :- Parse(text);
    Success(kdf(password, r.salt, r.params.iterations, r.params.memory, r.params.parallelism, r.params.keyLength)
            == r.key)
  }

  /** A password verifies against a fresh hash of another exactly when argon2id gives both the same key;
      in particular the password that was hashed verifies. */
  lemma VerifyHashed(kdf: KeyFunction, hashed: seq<Byte>, tried: seq<Byte>, params: Params, salt: seq<Byte>)
    requires FitsLength(kdf) && |salt| == params.saltLength && params.saltLength < TWO_32 && params.keyLength < TWO_32
    requires params.memory < TWO_32 && params.iterations < TWO_32 && params.parallelism < 256
    requires Hash(kdf, hashed, params, salt).Success?
    ensures Verify(kdf, tried, Hash(kdf, hashed, params, salt).value)
         == Success(kdf(tried, salt, params.iterations, params.memory, params.parallelism, params.keyLength)
                    == kdf(hashed, salt, params.iterations, params.memory, params.parallelism, params.keyLength))
  {
    HashedText(kdf, hashed, params, salt);
    VerifyParsed(kdf, tried, Hash(kdf, hashed, params, salt).value,
                 Parsed(params, salt,
                        kdf(hashed, salt, params.iterations, params.memory, params.parallelism, params.keyLength)));
  }

  lemma HashedText(kdf: KeyFunction, hashed: seq<Byte>, params: Params, salt: seq<Byte>)
    requires FitsLength(kdf) && |salt| == params.saltLength && params.saltLength < TWO_32 && params.keyLength < TWO_32
    requires params.memory < TWO_32 && params.iterations < TWO_32 && params.parallelism < 256
    requires Hash(kdf, hashed, params, salt).Success?
    ensures Parse(Hash(kdf, hashed, params, salt).value)
         == Success(Parsed(params, salt, kdf(hashed, salt, params.iterations, params.memory, params.parallelism,
                                             params.keyLength)))
  {
    ParsePrintOf(params, salt,
                 kdf(hashed, salt, params.iterations, params.memory, params.parallelism, params.keyLength));
  }

  lemma ParsePrintOf(params: Params, salt: seq<Byte>, key: seq<Byte>)
    requires InRange(params.memory, params.iterations, params.parallelism)
    requires 0 < |salt| == params.saltLength < TWO_32 && 0 < |key| == params.keyLength < TWO_32
    ensures Parse(Print(params.memory, params.iterations, params.parallelism, salt, key))
         == Success(Parsed(params, salt, key))
  {
    assert Params(params.memory, params.iterations, params.parallelism, |salt| % TWO_32, |key| % TWO_32) == params;
    ParsePrint(params.memory, params.iterations, params.parallelism, salt, key);
  }

  lemma VerifyParsed(kdf: KeyFunction, tried: seq<Byte>, text: string, r: Parsed)
    requires Parse(text) == Success(r)
    ensures Verify(kdf, tried, text)
         == Success(kdf(tried, r.salt, r.params.iterations, r.params.memory, r.params.parallelism, r.params.keyLength)
                    == r.key)
  {
  }
}
