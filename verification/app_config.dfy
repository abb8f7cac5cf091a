/** `FlashConfig`: the per-level AES keys as configured text (lists of
    strings such as "0x40") and `GetAesKey`, which turns a level's list
    into the 16-byte key. */
module AppConfig {
  import opened Bits
  import opened Wrappers
  import opened HexText
  import Security

  /** `s.Replace("0x", "")`: one left-to-right pass removing every
      non-overlapping lower-case "0x"; what a removal brings together is
      not looked at again. */
  function RemoveHexPrefix(s: string): (t: string)
    ensures |t| <= |s|
    decreases |s|
  {
    if |s| >= 2 && s[0] == '0' && s[1] == 'x' then RemoveHexPrefix(s[2..])
    else if |s| == 0 then ""
    else [s[0]] + RemoveHexPrefix(s[1..])
  }

  /** Text without an 'x' passes through unchanged. */
  lemma {:induction false} RemoveHexPrefixNoX(s: string)
    requires forall i :: 0 <= i < |s| ==> s[i] != 'x'
    ensures RemoveHexPrefix(s) == s
    decreases |s|
  {
    if |s| > 0 {
      RemoveHexPrefixNoX(s[1..]);
      assert [s[0]] + s[1..] == s;
    }
  }

  /** The removal is a single pass: "00xx" becomes "0x", not "". */
  lemma RemoveHexPrefixSinglePass()
    ensures RemoveHexPrefix("00xx") == "0x"
  {
    assert "00xx"[1..] == "0xx";
    assert "0xx"[2..] == "x";
    assert RemoveHexPrefix("x") == "x" by {
      assert "x"[1..] == "";
    }
  }

  /** `byte.Parse(s.Replace("0x", ""), NumberStyles.HexNumber)`. */
  function ParseKeyByte(s: string): Result<byte, ParseError>
  {
    var r := ParseHex(RemoveHexPrefix(s), 0xFF);
    if r.Err? then Err(r.error) else Ok(r.value)
  }

  /** "0x" followed by a byte's two uppercase digits parses back to it. */
  lemma ParseKeyBytePrefixed(b: byte)
    ensures ParseKeyByte("0x" + Hex2(b)) == Ok(b)
  {
    var t := "0x" + Hex2(b);
    assert t[2..] == Hex2(b);
    DigitOfHexChar(b / 16);
    DigitOfHexChar(b % 16);
    RemoveHexPrefixNoX(Hex2(b));
    ParseHex2(b, 0xFF);
  }

  /** Each entry's parse, in list order. */
  function ParsedEntries(entries: seq<string>): (rs: seq<Result<byte, ParseError>>)
    ensures |rs| == |entries|
    ensures forall i :: 0 <= i < |entries| ==> rs[i] == ParseKeyByte(entries[i])
  {
    seq(|entries|, i requires 0 <= i < |entries| => ParseKeyByte(entries[i]))
  }

  /** The first `count` entries parsed in order. */
  function KeyBytes(entries: seq<string>, count: nat): (r: Result<seq<byte>, ParseError>)
    requires count <= |entries|
  {
    Collect(ParsedEntries(entries), count)
  }

  function KeyLength(entries: seq<string>): (n: nat)
    ensures n <= 16 && n <= |entries|
  {
    if 16 < |entries| then 16 else |entries|
  }

  /** The key a level's list gives: its first min(16, count) entries, then
      zeros. */
  function AesKeySpec(entries: seq<string>): (r: Result<seq<byte>, ParseError>)
    ensures r.Ok? ==> |r.value| == 16
  {
    var n := KeyLength(entries);
    var bs := KeyBytes(entries, n);
    if bs.Err? then Err(bs.error) else Ok(bs.value + Zeros(16 - n))
  }

  /** Entries past the sixteenth are never looked at; a short list leaves
      the tail of the key zero; each used entry gives its own byte. */
  lemma AesKeyLayout(entries: seq<string>)
    ensures |entries| > 16 ==> AesKeySpec(entries) == AesKeySpec(entries[..16])
    ensures var r := AesKeySpec(entries);
      r.Ok? ==>
        (forall i :: |entries| <= i < 16 ==> r.value[i] == 0)
        && (forall i :: 0 <= i < 16 && i < |entries| ==> ParseKeyByte(entries[i]) == Ok(r.value[i]))
  {
    var n := KeyLength(entries);
    if |entries| > 16 {
      assert ParsedEntries(entries) == ParsedEntries(entries[..16]) + ParsedEntries(entries[16..]);
      CollectPrefix(ParsedEntries(entries[..16]), ParsedEntries(entries[16..]), 16);
    }
    var r := AesKeySpec(entries);
    if r.Ok? {
      forall i | 0 <= i < 16 && i < |entries|
        ensures ParseKeyByte(entries[i]) == Ok(r.value[i])
      {
        CollectAt(ParsedEntries(entries), n, i);
      }
    }
  }

  /** A key written out as the default table writes it: each byte as "0x"
      and two uppercase digits. */
  function Prefixed(key: seq<byte>): (entries: seq<string>)
    ensures |entries| == |key|
    ensures forall i :: 0 <= i < |key| ==> entries[i] == "0x" + Hex2(key[i])
  {
    seq(|key|, i requires 0 <= i < |key| => "0x" + Hex2(key[i]))
  }

  /** A key written out as "0x.." entries parses back to itself. */
  lemma {:induction false} KeyBytesPrefixed(key: seq<byte>, count: nat)
    requires count <= |key|
    ensures KeyBytes(Prefixed(key), count) == Ok(key[..count])
    decreases count
  {
    if count > 0 {
      KeyBytesPrefixed(key, count - 1);
      ParseKeyBytePrefixed(key[count - 1]);
      assert ParsedEntries(Prefixed(key))[count - 1] == Ok(key[count - 1]);
      assert key[..count - 1] + [key[count - 1]] == key[..count];
    }
  }

  /** `FlashConfig.Aes`'s defaults. */
  const DefaultAesLevel1: seq<string> :=
    ["0x40", "0xAF", "0x1D", "0x0C", "0x09", "0x97", "0xF9", "0x31",
     "0x48", "0xF5", "0xB3", "0x65", "0x75", "0xA3", "0x76", "0x1E"]

  const DefaultAesLevel2: seq<string> :=
    ["0x0D", "0x37", "0x4F", "0x3C", "0xC6", "0x91", "0xD3", "0x4B",
     "0x91", "0x07", "0xF0", "0x78", "0xA6", "0x4E", "0x75", "0x6B"]

  const DefaultAes: map<string, seq<string>> := map["1" := DefaultAesLevel1, "2" := DefaultAesLevel2]

  /** The configured defaults decode to the keys built into
      `SecurityAlgorithm`. */
  lemma DefaultKeysAgree()
    ensures AesKeySpec(DefaultAes["1"]) == Ok(Security.DefaultKeyLevel1)
    ensures AesKeySpec(DefaultAes["2"]) == Ok(Security.DefaultKeyLevel2)
  {
    assert DefaultAes["1"] == DefaultAesLevel1;
    assert DefaultAes["2"] == DefaultAesLevel2;
    DefaultLevel1Written();
    DefaultLevel2Written();
    AesKeyOfPrefixed(Security.DefaultKeyLevel1);
    AesKeyOfPrefixed(Security.DefaultKeyLevel2);
  }

  /** A full 16-byte key written out entry by entry is read back as itself. */
  lemma AesKeyOfPrefixed(key: seq<byte>)
    requires |key| == 16
    ensures AesKeySpec(Prefixed(key)) == Ok(key)
  {
    KeyBytesPrefixed(key, 16);
    assert key[..16] == key;
    assert key + Zeros(0) == key;
  }

  lemma DefaultLevel1Written()
    ensures DefaultAesLevel1 == Prefixed(Security.DefaultKeyLevel1)
  {
    assert DefaultAesLevel1[0] == "0x" + Hex2(0x40);
    assert DefaultAesLevel1[1] == "0x" + Hex2(0xAF);
    assert DefaultAesLevel1[2] == "0x" + Hex2(0x1D);
    assert DefaultAesLevel1[3] == "0x" + Hex2(0x0C);
    assert DefaultAesLevel1[4] == "0x" + Hex2(0x09);
    assert DefaultAesLevel1[5] == "0x" + Hex2(0x97);
    assert DefaultAesLevel1[6] == "0x" + Hex2(0xF9);
    assert DefaultAesLevel1[7] == "0x" + Hex2(0x31);
    assert DefaultAesLevel1[8] == "0x" + Hex2(0x48);
    assert DefaultAesLevel1[9] == "0x" + Hex2(0xF5);
    assert DefaultAesLevel1[10] == "0x" + Hex2(0xB3);
    assert DefaultAesLevel1[11] == "0x" + Hex2(0x65);
    assert DefaultAesLevel1[12] == "0x" + Hex2(0x75);
    assert DefaultAesLevel1[13] == "0x" + Hex2(0xA3);
    assert DefaultAesLevel1[14] == "0x" + Hex2(0x76);
    assert DefaultAesLevel1[15] == "0x" + Hex2(0x1E);
  }

  lemma DefaultLevel2Written()
    ensures DefaultAesLevel2 == Prefixed(Security.DefaultKeyLevel2)
  {
    assert DefaultAesLevel2[0] == "0x" + Hex2(0x0D);
    assert DefaultAesLevel2[1] == "0x" + Hex2(0x37);
    assert DefaultAesLevel2[2] == "0x" + Hex2(0x4F);
    assert DefaultAesLevel2[3] == "0x" + Hex2(0x3C);
    assert DefaultAesLevel2[4] == "0x" + Hex2(0xC6);
    assert DefaultAesLevel2[5] == "0x" + Hex2(0x91);
    assert DefaultAesLevel2[6] == "0x" + Hex2(0xD3);
    assert DefaultAesLevel2[7] == "0x" + Hex2(0x4B);
    assert DefaultAesLevel2[8] == "0x" + Hex2(0x91);
    assert DefaultAesLevel2[9] == "0x" + Hex2(0x07);
    assert DefaultAesLevel2[10] == "0x" + Hex2(0xF0);
    assert DefaultAesLevel2[11] == "0x" + Hex2(0x78);
    assert DefaultAesLevel2[12] == "0x" + Hex2(0xA6);
    assert DefaultAesLevel2[13] == "0x" + Hex2(0x4E);
    assert DefaultAesLevel2[14] == "0x" + Hex2(0x75);
    assert DefaultAesLevel2[15] == "0x" + Hex2(0x6B);
  }

  /** Only levels 1 and 2 have a default key. */
  lemma DefaultLevels(level: int)
    ensures Decimal(level) in DefaultAes <==> level == 1 || level == 2
  {
    if Decimal(level) == "1" {
      DecimalSingleDigit(level, 1);
    } else if Decimal(level) == "2" {
      DecimalSingleDigit(level, 2);
    }
  }

  /** The loop's exit on a bad entry: the spec fails with that entry's error. */
  lemma AesKeyStopsAt(entries: seq<string>, i: nat)
    requires i < KeyLength(entries)
    requires Collect(ParsedEntries(entries), i).Ok? && ParseKeyByte(entries[i]).Err?
    ensures AesKeySpec(entries) == Err(ParseKeyByte(entries[i]).error)
  {
    var parsed := ParsedEntries(entries);
    CollectStopsAt(parsed, i, KeyLength(entries));
  }

  /** The loop's normal exit: the collected bytes, then zeros. */
  lemma AesKeyCompleted(entries: seq<string>, bytes: seq<byte>)
    requires Collect(ParsedEntries(entries), KeyLength(entries)) == Ok(bytes)
    ensures AesKeySpec(entries) == Ok(bytes + Zeros(16 - KeyLength(entries)))
  {
  }

  /** The body of `GetAesKey` once the list is found: a zeroed `byte[16]`
      filled from the first min(16, count) entries. */
  method FillKey(hexList: seq<string>) returns (r: Result<seq<byte>, ParseError>)
    ensures r == AesKeySpec(hexList)
  {
    var key := new byte[16](_ => 0);
    var n := KeyLength(hexList);
    ghost var parsed := ParsedEntries(hexList);
    for i := 0 to n
      invariant Collect(parsed, i) == Ok(key[..i])
      invariant forall j :: i <= j < 16 ==> key[j] == 0
    {
      var b := ParseKeyByte(hexList[i]);
      if b.Err? {
        AesKeyStopsAt(hexList, i);
        return Err(b.error);
      }
      assert parsed[i] == b;
      key[i] := b.value;
      assert key[..i + 1] == key[..i] + [b.value];
    }
    AesKeyCompleted(hexList, key[..n]);
    assert key[..] == key[..n] + Zeros(16 - n);
    return Ok(key[..]);
  }

  class FlashConfig {
    var aes: map<string, seq<string>>

    constructor ()
      ensures aes == DefaultAes
    {
      aes := DefaultAes;
    }

    /** `GetAesKey(level)`: no key (`null`) when the level is not
        configured; a parse failure is the exception `byte.Parse` throws. */
    method GetAesKey(level: int) returns (r: Result<Option<seq<byte>>, ParseError>)
      ensures var name := Decimal(level);
        r == if name !in aes then Ok(None)
             else var k := AesKeySpec(aes[name]); if k.Err? then Err(k.error) else Ok(Some(k.value))
    {
      var name := Decimal(level);
      if name !in aes {
        return Ok(None);
      }
      var key := FillKey(aes[name]);
      if key.Err? {
        return Err(key.error);
      }
      return Ok(Some(key.value));
    }
  }
}
