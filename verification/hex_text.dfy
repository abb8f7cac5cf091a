/** Text forms of numbers used by the C# tool: uppercase hexadecimal
    formatting (`X2`, `X4`, `BitConverter.ToString` without dashes),
    parsing with `NumberStyles.HexNumber`, and the decimal `int.ToString()`
    of the invariant culture. */
module HexText {
  import opened Bits
  import opened Wrappers

  /** The uppercase digit for 0..15. */
  function HexChar(d: nat): (c: char)
    requires d < 16
  {
    if d < 10 then ('0' as int + d) as char else ('A' as int + d - 10) as char
  }

  function DecimalChar(d: nat): (c: char)
    requires d < 10
  {
    ('0' as int + d) as char
  }

  /** `{b:X2}`: two uppercase hex digits. */
  function Hex2(b: nat): (s: string)
    requires b < 256
    ensures |s| == 2
  {
    [HexChar(b / 16), HexChar(b % 16)]
  }

  /** `{w:X4}`: four uppercase hex digits. */
  function Hex4(w: nat): (s: string)
    requires w < 0x1_0000
    ensures |s| == 4
  {
    Hex2(w / 256) + Hex2(w % 256)
  }

  /** `BitConverter.ToString(data).Replace("-", "")`: two digits per byte. */
  function HexBytes(data: seq<byte>): (s: string)
    ensures |s| == 2 * |data|
  {
    if |data| == 0 then "" else Hex2(data[0]) + HexBytes(data[1..])
  }

  // ---------------------------------------------------------------------
  // Parsing with NumberStyles.HexNumber
  // ---------------------------------------------------------------------

  /** The white space `NumberStyles.AllowLeadingWhite` / `AllowTrailingWhite`
      accept: U+0009 to U+000D and U+0020. */
  predicate IsNumberWhite(c: char)
  {
    c == ' ' || ('\U{9}' <= c <= '\U{D}')
  }

  predicate IsHexDigit(c: char)
  {
    ('0' <= c <= '9') || ('A' <= c <= 'F') || ('a' <= c <= 'f')
  }

  function DigitValue(c: char): (v: nat)
    requires IsHexDigit(c)
    ensures v < 16
  {
    if '0' <= c <= '9' then c as int - '0' as int
    else if 'A' <= c <= 'F' then c as int - 'A' as int + 10
    else c as int - 'a' as int + 10
  }

  predicate AllHexDigits(t: string)
  {
    forall i :: 0 <= i < |t| ==> IsHexDigit(t[i])
  }

  /** The value of a string of hex digits, most significant first. */
  function HexValue(t: string): nat
    requires AllHexDigits(t)
  {
    if |t| == 0 then 0 else 16 * HexValue(t[..|t| - 1]) + DigitValue(t[|t| - 1])
  }

  function TrimStart(s: string): (t: string)
  {
    if |s| > 0 && IsNumberWhite(s[0]) then TrimStart(s[1..]) else s
  }

  function TrimEnd(s: string): (t: string)
  {
    if |s| > 0 && IsNumberWhite(s[|s| - 1]) then TrimEnd(s[..|s| - 1]) else s
  }

  /** Why `byte.Parse` / `ushort.Parse` throws. */
  datatype ParseError = FormatError | OverflowError

  /** `byte.Parse(s, NumberStyles.HexNumber)` (max 0xFF) and
      `ushort.Parse(s, NumberStyles.HexNumber)` (max 0xFFFF): surrounding
      white space is allowed, at least one hex digit is required, no sign
      and no "0x" prefix are accepted, and a value above the type's maximum
      overflows. */
  function ParseHex(s: string, max: nat): (r: Result<nat, ParseError>)
    ensures r.Ok? ==> r.value <= max
  {
    var t := TrimEnd(TrimStart(s));
    if |t| == 0 || !AllHexDigits(t) then Err(FormatError)
    else if HexValue(t) > max then Err(OverflowError)
    else Ok(HexValue(t))
  }

  lemma HexValueOfDigits(a: char, b: char)
    requires IsHexDigit(a) && IsHexDigit(b)
    ensures HexValue([a, b]) == 16 * DigitValue(a) + DigitValue(b)
  {
    assert [a, b][..1] == [a];
    assert [a][..0] == [];
    assert HexValue([a]) == 16 * HexValue([]) + DigitValue(a);
    assert HexValue([a, b]) == 16 * HexValue([a]) + DigitValue(b);
  }

  lemma DigitOfHexChar(d: nat)
    requires d < 16
    ensures IsHexDigit(HexChar(d)) && DigitValue(HexChar(d)) == d && !IsNumberWhite(HexChar(d))
  {
  }

  /** The digits `X2` prints, and their value. */
  lemma Hex2Digits(b: nat)
    requires b < 256
    ensures AllHexDigits(Hex2(b)) && HexValue(Hex2(b)) == b
    ensures !IsNumberWhite(Hex2(b)[0]) && !IsNumberWhite(Hex2(b)[1])
  {
    var s := Hex2(b);
    DigitOfHexChar(b / 16);
    DigitOfHexChar(b % 16);
    HexValueOfDigits(s[0], s[1]);
    assert s == [s[0], s[1]];
  }

  /** Parsing what `X2` printed gives the byte back. */
  lemma ParseHex2(b: nat, max: nat)
    requires b < 256 && b <= max
    ensures ParseHex(Hex2(b), max) == Ok(b)
  {
    var s := Hex2(b);
    Hex2Digits(b);
    assert TrimStart(s) == s;
    assert TrimEnd(s) == s;
  }

  lemma HexValueAppend(a: string, b: string)
    requires AllHexDigits(a) && AllHexDigits(b) && |b| == 2
    ensures AllHexDigits(a + b)
    ensures HexValue(a + b) == 256 * HexValue(a) + HexValue(b)
  {
    var ab := a + b;
    var a0 := a + [b[0]];
    assert ab[..|ab| - 1] == a0;
    assert ab[|ab| - 1] == b[1];
    assert a0[..|a0| - 1] == a;
    assert a0[|a0| - 1] == b[0];
    assert HexValue(a0) == 16 * HexValue(a) + DigitValue(b[0]);
    assert HexValue(ab) == 16 * HexValue(a0) + DigitValue(b[1]);
    assert b == [b[0], b[1]];
    HexValueOfDigits(b[0], b[1]);
  }

  /** Parsing what `X4` printed gives the 16-bit value back. */
  lemma ParseHex4(w: nat)
    requires w < 0x1_0000
    ensures ParseHex(Hex4(w), 0xFFFF) == Ok(w)
  {
    var hi := Hex2(w / 256);
    var lo := Hex2(w % 256);
    Hex2Digits(w / 256);
    Hex2Digits(w % 256);
    HexValueAppend(hi, lo);
    var s := Hex4(w);
    assert s == hi + lo;
    assert s[0] == hi[0] && s[3] == lo[1];
    assert TrimStart(s) == s;
    assert TrimEnd(s) == s;
  }

  /** The two characters of `HexBytes` that stand for byte i. */
  lemma {:induction false} HexBytesAt(data: seq<byte>, i: nat)
    requires i < |data|
    ensures HexBytes(data)[2 * i .. 2 * i + 2] == Hex2(data[i])
    decreases i
  {
    if i > 0 {
      HexBytesAt(data[1..], i - 1);
      assert HexBytes(data) == Hex2(data[0]) + HexBytes(data[1..]);
      assert HexBytes(data)[2 * i .. 2 * i + 2] == HexBytes(data[1..])[2 * (i - 1) .. 2 * (i - 1) + 2];
    }
  }

  lemma Hex2Injective(a: nat, b: nat)
    requires a < 256 && b < 256 && Hex2(a) == Hex2(b)
    ensures a == b
  {
    ParseHex2(a, 255);
    ParseHex2(b, 255);
  }

  // ---------------------------------------------------------------------
  // Decimal
  // ---------------------------------------------------------------------

  function NatDecimal(n: nat): (s: string)
    ensures |s| >= 1
    ensures forall i :: 0 <= i < |s| ==> '0' <= s[i] <= '9'
  {
    if n < 10 then [DecimalChar(n)] else NatDecimal(n / 10) + [DecimalChar(n % 10)]
  }

  /** `int.ToString()`: a minus sign for negative values, then the digits. */
  function Decimal(n: int): (s: string)
    ensures |s| >= 1
  {
    if n < 0 then "-" + NatDecimal(-n) else NatDecimal(n)
  }

  /** Only the number n prints as the single digit n. */
  lemma DecimalSingleDigit(n: int, d: nat)
    requires d < 10 && Decimal(n) == [DecimalChar(d)]
    ensures n == d
  {
  }
}
