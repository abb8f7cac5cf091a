/** `BinToHexConverter`: writes a binary image as Intel HEX text. Data
    records carry at most 16 bytes and never cross a 64 KiB boundary; an
    extended linear address record (type 04) precedes the first data
    record and every data record whose upper 16 address bits differ from
    the previous one; an EOF record ends the file. Reading the input file
    and writing the output stream are left to the caller: the image is a
    byte sequence and the output the sequence of written lines. */
module BinToHex {
  import opened Bits
  import opened Wrappers
  import opened HexText

  /** A 16-bit record address (`ushort`). */
  type Word16 = n: nat | n < 0x1_0000

  /** One record: its 16-bit address, its type and its data bytes. */
  datatype Rec = Rec(address: Word16, rtype: byte, payload: seq<byte>)

  /** The sum of the bytes, before any truncation. */
  function Sum(data: seq<byte>): nat
  {
    if |data| == 0 then 0 else Sum(data[..|data| - 1]) + data[|data| - 1]
  }

  /** The sum `WriteRecord` accumulates in its `byte checksum`: length,
      both address bytes, type and data. */
  function RecordSum(r: Rec): nat
  {
    |r.payload| % 256 + r.address / 256 + r.address % 256 + r.rtype + Sum(r.payload)
  }

  /** `(byte)((~checksum + 1) & 0xFF)`: the two's complement of the low byte
      of the record's sum. */
  function Checksum(r: Rec): (c: byte)
  {
    (256 - RecordSum(r) % 256) % 256
  }

  /** `$":{len:X2}{address:X4}{type:X2}{dataHex}{checksum:X2}"`, with
      `len = (byte)data.Length`. */
  function Line(r: Rec): (line: string)
    ensures |line| == 11 + 2 * |r.payload|
  {
    ":" + Hex2(|r.payload| % 256) + Hex4(r.address) + Hex2(r.rtype) + HexBytes(r.payload) + Hex2(Checksum(r))
  }

  /** The lines written for a list of records, one per record. */
  function Lines(recs: seq<Rec>): (lines: seq<string>)
    ensures |lines| == |recs|
  {
    seq(|recs|, i requires 0 <= i < |recs| => Line(recs[i]))
  }

  const EofRec := Rec(0, 0x01, [])

  /** The type-04 record for upper address bits `up`:
      `{ (byte)(up >> 8), (byte)(up & 0xFF) }`. */
  function ExtRec(up: nat): Rec
    requires up < 0x1_0000
  {
    Rec(0, 0x04, [up / 256, up % 256])
  }

  /** The sentinel `currentUpperAddress = 0xFFFFFFFF`: no upper address
      written yet. */
  const NoUpper: nat := 0xFFFF_FFFF

  /** `Math.Min(16, data.Length - offset)`, cut at the end of the 64 KiB
      page that `addr16` lies in. */
  function LineLength(remaining: nat, addr16: nat): (n: nat)
    requires remaining > 0 && addr16 < 0x1_0000
    ensures 1 <= n <= 16 && n <= remaining && addr16 + n <= 0x1_0000
  {
    var n := if 16 < remaining then 16 else remaining;
    if addr16 + n > 0x1_0000 then 0x1_0000 - addr16 else n
  }

  /** `(uint)(baseAddress + offset)`. */
  function AddressAt(base: nat, offset: nat): nat
  {
    (base + offset) % 0x1_0000_0000
  }

  /** The upper 16 bits of the current address. */
  function UpperAt(base: nat, offset: nat): nat
  {
    AddressAt(base, offset) / 0x1_0000
  }

  /** Where the data record written at `offset` ends. */
  function NextOffset(data: seq<byte>, base: nat, offset: nat): (next: nat)
    requires offset < |data|
    ensures offset < next <= |data| && next - offset <= 16
  {
    offset + LineLength(|data| - offset, AddressAt(base, offset) % 0x1_0000)
  }

  /** The records one turn of the `while` loop writes, with
      `currentUpperAddress == cu`: a type-04 record when the upper
      address bits change, then one data record. */
  function Chunk(data: seq<byte>, base: nat, offset: nat, cu: nat): seq<Rec>
    requires offset < |data|
  {
    var up := UpperAt(base, offset);
    (if up != cu then [ExtRec(up)] else [])
    + [Rec(AddressAt(base, offset) % 0x1_0000, 0x00, data[offset..NextOffset(data, base, offset)])]
  }

  /** The records the `while` loop writes from `offset` on, with
      `currentUpperAddress == cu`, followed by the EOF record. */
  function RecordsFrom(data: seq<byte>, base: nat, offset: nat, cu: nat): seq<Rec>
    requires offset <= |data|
    decreases |data| - offset
  {
    if offset == |data| then [EofRec]
    else Chunk(data, base, offset, cu) + RecordsFrom(data, base, NextOffset(data, base, offset), UpperAt(base, offset))
  }

  /** `Convert(binPath, hexPath, baseAddress)` as a list of records. */
  function ConvertSpec(data: seq<byte>, base: nat): seq<Rec>
  {
    RecordsFrom(data, base, 0, NoUpper)
  }

  // ---------------------------------------------------------------------
  // The methods
  // ---------------------------------------------------------------------

  /** Adding into a `byte` keeps only the low byte of the running sum. */
  lemma ModAdd(a: nat, b: nat)
    ensures (a % 256 + b) % 256 == (a + b) % 256
  {
    DivModUnique(a + b, 256, a / 256 + (a % 256 + b) / 256, (a % 256 + b) % 256);
  }

  lemma SumStep(data: seq<byte>, k: nat)
    requires k < |data|
    ensures Sum(data[..k + 1]) == Sum(data[..k]) + data[k]
  {
    assert data[..k + 1][..k] == data[..k];
  }

  /** `WriteRecord(sw, address, type, data)`: the line it writes. */
  method WriteRecord(address: Word16, rtype: byte, data: seq<byte>) returns (line: string)
    ensures line == Line(Rec(address, rtype, data))
  {
    var len := |data| % 256;
    var hi, lo := address / 256, address % 256;
    var checksum := len;
    checksum := (checksum + hi) % 256;
    checksum := (checksum + lo) % 256;
    checksum := (checksum + rtype) % 256;
    ghost var head := len + hi + lo + rtype;
    ModAdd(len + hi, lo);
    ModAdd(len + hi + lo, rtype);
    assert checksum == head % 256;
    assert Sum(data[..0]) == 0;
    for k := 0 to |data|
      invariant checksum == (head + Sum(data[..k])) % 256
    {
      SumStep(data, k);
      ModAdd(head + Sum(data[..k]), data[k]);
      checksum := (checksum + data[k]) % 256;
    }
    assert data[..|data|] == data;
    ghost var r := Rec(address, rtype, data);
    assert checksum == RecordSum(r) % 256;
    checksum := (256 - checksum) % 256;
    assert checksum == Checksum(r);
    var dataHex := if |data| > 0 then HexBytes(data) else "";
    assert dataHex == HexBytes(data);
    line := ":" + Hex2(len) + Hex4(address) + Hex2(rtype) + dataHex + Hex2(checksum);
  }

  lemma LinesAppend(a: seq<Rec>, b: seq<Rec>)
    ensures Lines(a + b) == Lines(a) + Lines(b)
  {
    assert forall i :: 0 <= i < |a| ==> (a + b)[i] == a[i];
    assert forall i :: |a| <= i < |a| + |b| ==> (a + b)[i] == b[i - |a|];
  }

  lemma LinesSnoc(recs: seq<Rec>, r: Rec)
    ensures Lines(recs + [r]) == Lines(recs) + [Line(r)]
  {
    assert forall i :: 0 <= i < |recs| ==> (recs + [r])[i] == recs[i];
  }

  /** The lines of one loop turn, record by record. */
  lemma ChunkLines(data: seq<byte>, base: nat, offset: nat, cu: nat, lineLen: nat)
    requires offset < |data|
    requires lineLen == LineLength(|data| - offset, AddressAt(base, offset) % 0x1_0000)
    ensures var up := UpperAt(base, offset);
      Lines(Chunk(data, base, offset, cu))
      == (if up != cu then [Line(ExtRec(up))] else [])
         + [Line(Rec(AddressAt(base, offset) % 0x1_0000, 0x00, data[offset..offset + lineLen]))]
  {
    var up := UpperAt(base, offset);
    var rec := Rec(AddressAt(base, offset) % 0x1_0000, 0x00, data[offset..offset + lineLen]);
    if up != cu {
      assert Chunk(data, base, offset, cu) == [ExtRec(up), rec];
    } else {
      assert Chunk(data, base, offset, cu) == [rec];
    }
  }

  /** One turn of the `while` loop: the optional type-04 record and the
      data record, and the loop's new `offset` and `currentUpperAddress`. */
  method WriteChunk(data: seq<byte>, base: nat, offset: nat, currentUpper: nat)
    returns (written: seq<string>, nextOffset: nat, upper: nat)
    requires offset < |data|
    ensures written == Lines(Chunk(data, base, offset, currentUpper))
    ensures nextOffset == NextOffset(data, base, offset) && upper == UpperAt(base, offset)
  {
    var currentAddress := (base + offset) % 0x1_0000_0000;
    upper := currentAddress / 0x1_0000;
    written := [];
    if upper != currentUpper {
      var l := WriteRecord(0x0000, 0x04, [upper / 256, upper % 256]);
      written := [l];
    }
    var lineLen := if 16 < |data| - offset then 16 else |data| - offset;
    var addr16 := currentAddress % 0x1_0000;
    if addr16 + lineLen > 0x1_0000 {
      lineLen := 0x1_0000 - addr16;
    }
    var lineData := data[offset..offset + lineLen];
    var l := WriteRecord(addr16, 0x00, lineData);
    written := written + [l];
    nextOffset := offset + lineLen;
    ChunkLines(data, base, offset, currentUpper, lineLen);
  }

  /** `Convert`: the lines written for image `data` at `baseAddress`. */
  method Convert(data: seq<byte>, base: nat) returns (lines: seq<string>)
    requires base < 0x1_0000_0000
    ensures lines == Lines(ConvertSpec(data, base))
  {
    var currentUpper: nat := NoUpper;
    var offset := 0;
    lines := [];
    ghost var recs: seq<Rec> := [];
    assert recs + ConvertSpec(data, base) == ConvertSpec(data, base);
    while offset < |data|
      invariant offset <= |data|
      invariant recs + RecordsFrom(data, base, offset, currentUpper) == ConvertSpec(data, base)
      invariant lines == Lines(recs)
      decreases |data| - offset
    {
      ghost var chunk := Chunk(data, base, offset, currentUpper);
      ghost var rest := RecordsFrom(data, base, NextOffset(data, base, offset), UpperAt(base, offset));
      assert recs + chunk + rest == ConvertSpec(data, base);
      var written;
      written, offset, currentUpper := WriteChunk(data, base, offset, currentUpper);
      LinesAppend(recs, chunk);
      lines := lines + written;
      recs := recs + chunk;
    }
    var eof := WriteRecord(0x0000, 0x01, []);
    LinesSnoc(recs, EofRec);
    lines := lines + [eof];
    recs := recs + [EofRec];
    assert recs == ConvertSpec(data, base);
  }

  // ---------------------------------------------------------------------
  // Properties
  // ---------------------------------------------------------------------

  /** Every record's bytes, checksum included, add up to 0 modulo 256. */
  lemma ChecksumCancels(r: Rec)
    ensures (RecordSum(r) + Checksum(r)) % 256 == 0
  {
    var total := RecordSum(r);
    var m := total % 256;
    if m == 0 {
      assert Checksum(r) == 0;
    } else {
      assert Checksum(r) == 256 - m;
      DivModUnique(total + Checksum(r), 256, total / 256 + 1, 0);
    }
  }

  /** The record kinds the converter writes: a data record holds 1 to 16
      bytes and stays inside its 64 KiB page; a type-04 record holds the
      two bytes of an upper address. */
  predicate WellFormed(r: Rec)
  {
    (r.rtype == 0x00 && 1 <= |r.payload| <= 16 && r.address + |r.payload| <= 0x1_0000)
    || (r.rtype == 0x04 && r.address == 0 && |r.payload| == 2)
  }

  /** The data bytes of the data records, in order. */
  function DataOf(recs: seq<Rec>): seq<byte>
  {
    if |recs| == 0 then []
    else (if recs[0].rtype == 0x00 then recs[0].payload else []) + DataOf(recs[1..])
  }

  lemma {:induction false} DataOfAppend(a: seq<Rec>, b: seq<Rec>)
    ensures DataOf(a + b) == DataOf(a) + DataOf(b)
    decreases |a|
  {
    if |a| == 0 {
      assert a + b == b;
    } else {
      assert (a + b)[0] == a[0];
      assert (a + b)[1..] == a[1..] + b;
      DataOfAppend(a[1..], b);
    }
  }

  /** One loop turn writes well-formed records carrying the bytes from
      `offset` to the turn's end. */
  lemma ChunkFacts(data: seq<byte>, base: nat, offset: nat, cu: nat)
    requires offset < |data|
    ensures var chunk := Chunk(data, base, offset, cu);
      |chunk| >= 1 && (forall i :: 0 <= i < |chunk| ==> WellFormed(chunk[i]))
      && DataOf(chunk) == data[offset..NextOffset(data, base, offset)]
  {
    var chunk := Chunk(data, base, offset, cu);
    var rec := chunk[|chunk| - 1];
    assert DataOf([rec]) == rec.payload + DataOf([]);
    if |chunk| == 2 {
      assert chunk[1..] == [rec];
    }
  }

  /** Well-formed records followed by exactly one EOF record, whose data
      records carry `bytes`, in order. */
  predicate Terminated(rs: seq<Rec>, bytes: seq<byte>)
  {
    |rs| >= 1 && rs[|rs| - 1] == EofRec
    && (forall i :: 0 <= i < |rs| - 1 ==> WellFormed(rs[i]))
    && DataOf(rs) == bytes
  }

  /** Well-formed records in front of a list that ends in the EOF record
      keep that shape. */
  lemma EndsWithEof(chunk: seq<Rec>, rest: seq<Rec>)
    requires |rest| >= 1 && rest[|rest| - 1] == EofRec
    requires forall i :: 0 <= i < |rest| - 1 ==> WellFormed(rest[i])
    requires forall i :: 0 <= i < |chunk| ==> WellFormed(chunk[i])
    ensures var rs := chunk + rest;
      rs[|rs| - 1] == EofRec && forall i :: 0 <= i < |rs| - 1 ==> WellFormed(rs[i])
  {
    var rs := chunk + rest;
    forall i | 0 <= i < |rs| - 1
      ensures WellFormed(rs[i])
    {
      if i >= |chunk| {
        assert rs[i] == rest[i - |chunk|];
      }
    }
  }

  /** Well-formed records in front of a terminated list keep it
      terminated, carrying their own data first. */
  lemma TerminatedPrepend(chunk: seq<Rec>, head: seq<byte>, rest: seq<Rec>, tail: seq<byte>)
    requires forall i :: 0 <= i < |chunk| ==> WellFormed(chunk[i])
    requires DataOf(chunk) == head
    requires Terminated(rest, tail)
    ensures Terminated(chunk + rest, head + tail)
  {
    EndsWithEof(chunk, rest);
    DataOfAppend(chunk, rest);
  }

  /** The records from `offset` on are well-formed records followed by
      exactly one EOF record, and their data records carry the rest of the
      image, in order. */
  lemma {:induction false} RecordsFromFacts(data: seq<byte>, base: nat, offset: nat, cu: nat)
    requires offset <= |data|
    ensures Terminated(RecordsFrom(data, base, offset, cu), data[offset..])
    decreases |data| - offset
  {
    if offset == |data| {
      assert DataOf([EofRec]) == [] + DataOf([]);
    } else {
      var next := NextOffset(data, base, offset);
      var chunk := Chunk(data, base, offset, cu);
      var rest := RecordsFrom(data, base, next, UpperAt(base, offset));
      RecordsFromFacts(data, base, next, UpperAt(base, offset));
      ChunkFacts(data, base, offset, cu);
      TerminatedPrepend(chunk, data[offset..next], rest, data[next..]);
      assert data[offset..] == data[offset..next] + data[next..];
      assert RecordsFrom(data, base, offset, cu) == chunk + rest;
    }
  }

  /** The whole file: well-formed records, the image in order, one EOF
      record at the end. */
  lemma ConvertFacts(data: seq<byte>, base: nat)
    ensures var rs := ConvertSpec(data, base);
      |rs| >= 1 && rs[|rs| - 1] == EofRec
      && (forall i :: 0 <= i < |rs| - 1 ==> WellFormed(rs[i]))
      && DataOf(rs) == data
  {
    RecordsFromFacts(data, base, 0, NoUpper);
    assert data[0..] == data;
  }

  /** The first record of a non-empty image sets the upper address bits of
      `baseAddress`. */
  lemma FirstRecordIsExt(data: seq<byte>, base: nat)
    requires |data| > 0 && base < 0x1_0000_0000
    ensures ConvertSpec(data, base)[0] == ExtRec(base / 0x1_0000)
  {
    assert UpperAt(base, 0) == base / 0x1_0000;
    assert Chunk(data, base, 0, NoUpper)[0] == ExtRec(base / 0x1_0000);
  }

  /** The fields of a written line, where the reader looks for them. */
  lemma LineFields(r: Rec)
    ensures var line := Line(r); var n := |r.payload|;
      line[0] == ':' && line[1..3] == Hex2(n % 256) && line[3..7] == Hex4(r.address)
      && line[7..9] == Hex2(r.rtype) && line[9..9 + 2 * n] == HexBytes(r.payload)
      && line[9 + 2 * n..] == Hex2(Checksum(r))
  {
  }

  /** The last line is always ":00000001FF". */
  lemma EofLine()
    ensures Line(EofRec) == ":00000001FF"
  {
    assert RecordSum(EofRec) == 1;
    assert Checksum(EofRec) == 255;
    assert HexBytes([]) == "";
  }
}
