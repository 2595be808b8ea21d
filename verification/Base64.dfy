/** Unpadded standard base64 (section 4 of RFC 4648, padding omitted as in its section 3.2), as Go's
    RawStdEncoding reads and writes it. */
module Base64 {
  import opened Wrappers

  type Byte = n: nat | n < 256 witness 0
  type Digit = n: nat | n < 64 witness 0

  function Symbol(d: Digit): char {
    if d < 26 then 'A' + d as char
    else if d < 52 then 'a' + (d - 26) as char
    else if d < 62 then '0' + (d - 52) as char
    else if d == 62 then '+'
    else '/'
  }

  function SymbolValue(c: char): Option<Digit> {
    if 'A' <= c <= 'Z' then Some((c - 'A') as int)
    else if 'a' <= c <= 'z' then Some((c - 'a') as int + 26)
    else if '0' <= c <= '9' then Some((c - '0') as int + 52)
    else if c == '+' then Some(62)
    else if c == '/' then Some(63)
    else None
  }

  lemma SymbolsAreValues(d: Digit)
    ensures SymbolValue(Symbol(d)) == Some(d)
  {
  }

  /** The bits of up to three bytes, six at a time; the last digit is filled up with zero bits. */
  function Digits(bytes: seq<Byte>): seq<Digit> {
    if bytes == [] then []
    else if |bytes| == 1 then [bytes[0] / 4, bytes[0] % 4 * 16]
    else if |bytes| == 2 then [bytes[0] / 4, bytes[0] % 4 * 16 + bytes[1] / 16, bytes[1] % 16 * 4]
    else
      [bytes[0] / 4, bytes[0] % 4 * 16 + bytes[1] / 16, bytes[1] % 16 * 4 + bytes[2] / 64, bytes[2] % 64]
      + Digits(bytes[3..])
  }

  function FirstByte(a: Digit, b: Digit): Byte { a * 4 + b / 16 }

  function SecondByte(b: Digit, c: Digit): Byte { b % 16 * 16 + c / 4 }

  function ThirdByte(c: Digit, d: Digit): Byte { c % 4 * 64 + d }

  /** Four digits at a time; spare bits of the last digit are ignored, and one digit alone is an error. */
  function Bytes(digits: seq<Digit>): Option<seq<Byte>> {
    if digits == [] then Some([])
    else if |digits| == 1 then None
    else if |digits| == 2 then Some([FirstByte(digits[0], digits[1])])
    else if |digits| == 3 then Some([FirstByte(digits[0], digits[1]), SecondByte(digits[1], digits[2])])
    else
      match Bytes(digits[4..])
      case None => None
      case Some(rest) =>
        Some([FirstByte(digits[0], digits[1]), SecondByte(digits[1], digits[2]),
              ThirdByte(digits[2], digits[3])] + rest)
  }

  function Encode(bytes: seq<Byte>): string {
    Symbols(Digits(bytes))
  }

  function Symbols(digits: seq<Digit>): (s: string)
    ensures |s| == |digits|
    ensures forall i | 0 <= i < |s| :: s[i] == Symbol(digits[i])
  {
    seq(|digits|, i requires 0 <= i < |digits| => Symbol(digits[i]))
  }

  /** Line breaks are skipped wherever they stand. */
  predicate Skipped(c: char) {
    c == '\n' || c == '\r'
  }

  function Values(s: string): Option<seq<Digit>> {
    if s == [] then Some([])
    else
      match Values(s[1..])
      case None => None
      case Some(rest) =>
        if Skipped(s[0]) then Some(rest)
        else if SymbolValue(s[0]).Some? then Some([SymbolValue(s[0]).value] + rest)
        else None
  }

  function Decode(s: string): Option<seq<Byte>> {
    match Values(s)
    case None => None
    case Some(digits) => Bytes(digits)
  }

  lemma Repacked(a: Byte, b: Byte, c: Byte)
    ensures FirstByte(a / 4, a % 4 * 16 + b / 16) == a
    ensures SecondByte(a % 4 * 16 + b / 16, b % 16 * 4 + c / 64) == b
    ensures ThirdByte(b % 16 * 4 + c / 64, c % 64) == c
  {
  }

  lemma BytesOfOne(a: Byte)
    ensures Bytes(Digits([a])) == Some([a])
  {
    Repacked(a, 0, 0);
    var x, y := a / 4, a % 4 * 16;
    assert Digits([a]) == [x, y];
    assert FirstByte(x, y) == a;
  }

  lemma BytesOfTwo(a: Byte, b: Byte)
    ensures Bytes(Digits([a, b])) == Some([a, b])
  {
    Repacked(a, b, 0);
    var x, y, z := a / 4, a % 4 * 16 + b / 16, b % 16 * 4;
    assert Digits([a, b]) == [x, y, z];
    assert FirstByte(x, y) == a && SecondByte(y, z) == b;
  }

  lemma BytesOfFour(digits: seq<Digit>, rest: seq<Digit>, a: Byte, b: Byte, c: Byte, bytes: seq<Byte>)
    requires |digits| == 4 && Bytes(rest) == Some(bytes)
    requires FirstByte(digits[0], digits[1]) == a && SecondByte(digits[1], digits[2]) == b
    requires ThirdByte(digits[2], digits[3]) == c
    ensures Bytes(digits + rest) == Some([a, b, c] + bytes)
  {
    assert (digits + rest)[4..] == rest;
  }

  lemma DigitsOfThree(a: Byte, b: Byte, c: Byte, rest: seq<Byte>)
    ensures Digits([a, b, c] + rest) == [a / 4, a % 4 * 16 + b / 16, b % 16 * 4 + c / 64, c % 64] + Digits(rest)
  {
    assert ([a, b, c] + rest)[3..] == rest;
  }

  lemma BytesOfThree(a: Byte, b: Byte, c: Byte, rest: seq<Byte>)
    requires Bytes(Digits(rest)) == Some(rest)
    ensures Bytes(Digits([a, b, c] + rest)) == Some([a, b, c] + rest)
  {
    var digits: seq<Digit> := [a / 4, a % 4 * 16 + b / 16, b % 16 * 4 + c / 64, c % 64];
    Repacked(a, b, c);
    DigitsOfThree(a, b, c, rest);
    BytesOfFour(digits, Digits(rest), a, b, c, rest);
  }

  lemma {:induction false} BytesOfDigits(bytes: seq<Byte>)
    ensures Bytes(Digits(bytes)) == Some(bytes)
  {
    if |bytes| == 1 {
      BytesOfOne(bytes[0]);
      assert bytes == [bytes[0]];
    } else if |bytes| == 2 {
      BytesOfTwo(bytes[0], bytes[1]);
      assert bytes == [bytes[0], bytes[1]];
    } else if |bytes| >= 3 {
      BytesOfDigits(bytes[3..]);
      BytesOfThree(bytes[0], bytes[1], bytes[2], bytes[3..]);
      assert bytes == [bytes[0], bytes[1], bytes[2]] + bytes[3..];
    }
  }

  lemma {:induction false} ValuesOfSymbols(digits: seq<Digit>)
    ensures Values(Symbols(digits)) == Some(digits)
  {
    if digits != [] {
      var s := Symbols(digits);
      assert s[1..] == Symbols(digits[1..]);
      ValuesOfSymbols(digits[1..]);
      SymbolsAreValues(digits[0]);
      assert digits == [digits[0]] + digits[1..];
    }
  }

  /** Decoding undoes encoding. */
  lemma DecodeEncode(bytes: seq<Byte>)
    ensures Decode(Encode(bytes)) == Some(bytes)
  {
    ValuesOfSymbols(Digits(bytes));
    BytesOfDigits(bytes);
  }

  /** Encoded text holds alphabet characters only, and is empty only for no bytes. */
  lemma {:induction false} EncodedText(bytes: seq<Byte>)
    ensures forall c | c in Encode(bytes) :: SymbolValue(c).Some?
    ensures bytes != [] ==> Encode(bytes) != []
  {
    forall c | c in Encode(bytes)
      ensures SymbolValue(c).Some?
    {
      var i :| 0 <= i < |Encode(bytes)| && Encode(bytes)[i] == c;
      SymbolsAreValues(Digits(bytes)[i]);
    }
  }

  // ----- The alphabet and the layout -----

  const UPPER := "ABCDEFGHIJKLMNOPQRSTUVWXYZ"
  const LOWER := "abcdefghijklmnopqrstuvwxyz"
  const OTHERS := "0123456789+/"

  /** Table 1 in section 4 of RFC 4648. */
  const ALPHABET := UPPER + LOWER + OTHERS

  lemma UpperCase(d: nat)
    requires d < 26
    ensures |UPPER| == 26 && UPPER[d] == 'A' + d as char
  {
    assert UPPER[d] as int == 65 + d;
  }

  lemma LowerCase(d: nat)
    requires d < 26
    ensures |LOWER| == 26 && LOWER[d] == 'a' + d as char
  {
    assert LOWER[d] as int == 97 + d;
  }

  /** Digit by digit, the symbol is the one the table lists. */
  lemma SymbolIs(d: Digit)
    ensures |ALPHABET| == 64 && Symbol(d) == ALPHABET[d]
  {
    if d < 26 {
      UpperCase(d);
      assert (UPPER + LOWER + OTHERS)[d] == UPPER[d];
    } else if d < 52 {
      LowerCase(d - 26);
      assert (UPPER + LOWER + OTHERS)[d] == LOWER[d - 26];
    } else {
      assert (UPPER + LOWER + OTHERS)[d] == OTHERS[d - 52];
      assert d < 62 ==> OTHERS[d - 52] as int == 48 + (d - 52);
    }
  }

  /** Three bytes are one 24-bit number, and so are their four digits, highest first. */
  lemma GroupIs(a: Byte, b: Byte, c: Byte, rest: seq<Byte>)
    ensures var d := Digits([a, b, c] + rest);
      && |d| >= 4 && d[4..] == Digits(rest)
      && (((d[0] as int) * 64 + d[1]) * 64 + d[2]) * 64 + d[3] == ((a as int) * 256 + b) * 256 + c
  {
    DigitsOfThree(a, b, c, rest);
    SixBits(a, b, c);
  }

  lemma SixBits(a: int, b: int, c: int)
    ensures (((a / 4) * 64 + (a % 4 * 16 + b / 16)) * 64 + (b % 16 * 4 + c / 64)) * 64 + c % 64
         == (a * 256 + b) * 256 + c
  {
    assert a == a / 4 * 4 + a % 4 && b == b / 16 * 16 + b % 16 && c == c / 64 * 64 + c % 64;
  }

  /** At the end one byte is two digits and two bytes are three, the spare bits zero. */
  lemma LastGroupIs(a: Byte, b: Byte)
    ensures var d := Digits([a]); |d| == 2 && (d[0] as int) * 64 + d[1] == (a as int) * 16
    ensures var d := Digits([a, b]); |d| == 3 && ((d[0] as int) * 64 + d[1]) * 64 + d[2] == ((a as int) * 256 + b) * 4
  {
    assert Digits([a]) == [a / 4, a % 4 * 16];
    assert Digits([a, b]) == [a / 4, a % 4 * 16 + b / 16, b % 16 * 4];
    assert a == a / 4 * 4 + a % 4 && b == b / 16 * 16 + b % 16;
  }

  /** A text is refused exactly when it holds a foreign character, or one symbol is left over. */
  lemma {:induction false} ValuesAre(s: string)
    ensures Values(s).None? <==> exists c | c in s :: c != '\n' && c != '\r' && c !in ALPHABET
    ensures Values(s).Some? ==> |Values(s).value| == SymbolCount(s)
  {
    if s != [] {
      assert s == [s[0]] + s[1..];
      ValuesAre(s[1..]);
      SymbolValueIs(s[0]);
    }
  }

  /** How many characters other than line breaks. */
  function SymbolCount(s: string): nat {
    if s == [] then 0 else SymbolCount(s[1..]) + if s[0] == '\n' || s[0] == '\r' then 0 else 1
  }

  lemma SymbolValueIs(c: char)
    ensures SymbolValue(c).Some? <==> c in ALPHABET
    ensures SymbolValue(c).Some? ==> ALPHABET[SymbolValue(c).value] == c
  {
    if SymbolValue(c).Some? {
      SymbolIs(SymbolValue(c).value);
      assert Symbol(SymbolValue(c).value) == c;
    }
    if c in ALPHABET {
      var d: nat :| d < |ALPHABET| && ALPHABET[d] == c;
      SymbolIs(d);
      SymbolsAreValues(d);
    }
  }

  lemma {:induction false} BytesAre(digits: seq<Digit>)
    ensures Bytes(digits).None? <==> |digits| % 4 == 1
  {
    if |digits| >= 4 {
      BytesAre(digits[4..]);
    }
  }

  lemma DecodeFailsIff(s: string)
    ensures Decode(s).None? <==>
      (exists c | c in s :: c != '\n' && c != '\r' && c !in ALPHABET) || SymbolCount(s) % 4 == 1
  {
    ValuesAre(s);
    if Values(s).Some? {
      BytesAre(Values(s).value);
    }
  }
}
