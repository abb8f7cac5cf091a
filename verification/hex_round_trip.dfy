/** Writing an image with `BinToHexConverter.Convert` and reading the
    lines back with `IntelHexParser.Parse` gives the image back as one
    segment at the base address. */
module HexRoundTrip {
  import opened Bits
  import opened Wrappers
  import opened HexText
  import opened IntelHex
  import opened BinToHex

  /** A field holding two digits written by `ToString("X2")` reads back. */
  lemma FieldReadsHex2(line: string, start: nat, b: nat, max: nat)
    requires b < 256 && b <= max && start + 2 <= |line|
    requires line[start..start + 2] == Hex2(b)
    ensures Field(line, start, 2, max) == Ok(b)
  {
    ParseHex2(b, max);
  }

  /** A field holding four digits written by `ToString("X4")` reads back. */
  lemma FieldReadsHex4(line: string, start: nat, w: nat)
    requires w < 0x1_0000 && start + 4 <= |line|
    requires line[start..start + 4] == Hex4(w)
    ensures Field(line, start, 4, 0xFFFF) == Ok(w)
  {
    ParseHex4(w);
  }

  /** A written line starts with ':' and so is not skipped. */
  lemma LineNotSkipped(r: Rec)
    ensures !Skipped(Line(r))
  {
    LineFields(r);
    assert !IsWhiteSpace(Line(r)[0]);
  }

  /** The header fields, once read, give the record. */
  lemma FieldsDecode(line: string, n: nat, address: nat, rtype: nat)
    requires 9 + 2 * n <= |line|
    requires Field(line, 1, 2, 0xFF) == Ok(n)
    requires Field(line, 3, 4, 0xFFFF) == Ok(address)
    requires Field(line, 7, 2, 0xFF) == Ok(rtype)
    ensures DecodeRecord(line) == Ok(Record(n, address, rtype, line[9..9 + 2 * n]))
  {
  }

  /** A line whose header fields hold the digits `ToString("X2")` and
      `ToString("X4")` write decodes to those values. */
  lemma HeaderDecodes(line: string, n: nat, address: nat, rtype: nat)
    requires n < 256 && address < 0x1_0000 && rtype < 256 && 9 + 2 * n <= |line|
    requires line[1..3] == Hex2(n) && line[3..7] == Hex4(address) && line[7..9] == Hex2(rtype)
    ensures DecodeRecord(line) == Ok(Record(n, address, rtype, line[9..9 + 2 * n]))
  {
    FieldReadsHex2(line, 1, n, 0xFF);
    FieldReadsHex4(line, 3, address);
    FieldReadsHex2(line, 7, rtype, 0xFF);
    FieldsDecode(line, n, address, rtype);
  }

  lemma ByteMod(n: nat)
    requires n < 256
    ensures n % 256 == n
  {
  }

  /** A written line decodes to the record's fields. */
  lemma LineDecodes(r: Rec)
    requires |r.payload| < 256
    ensures !Skipped(Line(r))
    ensures DecodeRecord(Line(r)) == Ok(Record(|r.payload|, r.address, r.rtype, HexBytes(r.payload)))
  {
    LineNotSkipped(r);
    var n := |r.payload|;
    LineFields(r);
    ByteMod(n);
    HeaderDecodes(Line(r), n, r.address, r.rtype as nat);
  }

  /** The data field `BitConverter.ToString` wrote reads back as the bytes. */
  lemma DataDecodes(p: seq<byte>)
    ensures DataBytes(HexBytes(p), |p|) == Ok(p)
  {
    var ps := Pairs(HexBytes(p));
    forall i | 0 <= i < |ps|
      ensures ps[i] == Ok(p[i])
    {
      HexBytesAt(p, i);
      ParseHex2(p[i], 0xFF);
    }
    CollectAllOk(ps, p);
  }

  /** The two data bytes of a type-04 record read back as its upper
      address. */
  lemma ExtDecodes(up: nat)
    requires up < 0x1_0000
    ensures Word(HexBytes(ExtRec(up).payload)) == Ok(up)
  {
    var p := ExtRec(up).payload;
    assert HexBytes(p) == Hex2(p[0]) + HexBytes(p[1..]);
    assert HexBytes(p[1..]) == Hex2(p[1]) + HexBytes([]);
    assert HexBytes(p) == Hex4(up);
    ParseHex4(up);
  }

  lemma StepExt(rule: AddressRule, st: State, up: nat)
    requires up < 0x1_0000
    ensures StepLine(rule, st, Line(ExtRec(up))) == Ok(Continue(st.(upper := up * 0x1_0000)))
  {
    LineDecodes(ExtRec(up));
    ExtDecodes(up);
  }

  lemma StepData(rule: AddressRule, st: State, r: Rec)
    requires r.rtype == 0x00 && |r.payload| < 256
    ensures StepLine(rule, st, Line(r)) == Ok(Continue(DataRecord(rule, st, r.address, r.payload)))
  {
    LineDecodes(r);
    DataDecodes(r.payload);
  }

  lemma StepEof(rule: AddressRule, st: State)
    ensures StepLine(rule, st, Line(EofRec)) == Ok(Stop(Flush(st)))
  {
    LineDecodes(EofRec);
  }

  /** A single line that leaves the parser running. */
  lemma RunOne(lines: seq<string>, line: string, st: State, next: State)
    requires lines == [line]
    requires StepLine(SumRule, st, line) == Ok(Continue(next))
    ensures Run(SumRule, lines, st) == Ok(Continue(next))
  {
    assert lines[1..] == [];
  }

  /** Two lines that leave the parser running. */
  lemma RunTwo(lines: seq<string>, line1: string, line2: string, st: State, mid: State, next: State)
    requires lines == [line1, line2]
    requires StepLine(SumRule, st, line1) == Ok(Continue(mid))
    requires StepLine(SumRule, mid, line2) == Ok(Continue(next))
    ensures Run(SumRule, lines, st) == Ok(Continue(next))
  {
    RunOne(lines[1..], line2, mid, next);
  }

  /** A single line that stops the parser. */
  lemma RunStop(lines: seq<string>, line: string, st: State, segs: seq<Segment>)
    requires lines == [line]
    requires StepLine(SumRule, st, line) == Ok(Stop(segs))
    ensures Run(SumRule, lines, st) == Ok(Stop(segs))
  {
  }

  /** The data record of one loop turn extends the open segment, or opens
      it at the base address when nothing has been read yet. */
  lemma DataExtends(data: seq<byte>, base: nat, offset: nat, next: nat, st: State, address: nat)
    requires offset < next <= |data|
    requires st.segments == [] && st.current == data[..offset]
    requires offset > 0 ==> st.segStart == base
    requires IntendedAddress(st.upper, address) == base + offset
    ensures DataRecord(SumRule, st, address, data[offset..next]) == State(st.upper, base, data[..next], [])
  {
    assert data[..next] == data[..offset] + data[offset..next];
    if offset == 0 {
      assert st.current == [];
    }
  }

  lemma LinesOfOne(a: Rec)
    ensures Lines([a]) == [Line(a)]
  {
  }

  lemma LinesOfTwo(a: Rec, b: Rec)
    ensures Lines([a, b]) == [Line(a), Line(b)]
  {
  }

  /** The data record one loop turn of the writer emits. */
  function TurnRecord(data: seq<byte>, base: nat, offset: nat): Rec
    requires offset < |data|
  {
    Rec(AddressAt(base, offset) % 0x1_0000, 0x00, data[offset..NextOffset(data, base, offset)])
  }

  /** Read with the turn's upper address set, the turn's data record
      appends its bytes to the one open segment starting at the base. */
  lemma TurnDataStep(data: seq<byte>, base: nat, offset: nat, st: State)
    requires base + |data| <= 0x1_0000_0000 && offset < |data|
    requires st.segments == [] && st.current == data[..offset]
    requires offset > 0 ==> st.segStart == base
    requires st.upper == UpperAt(base, offset) * 0x1_0000
    ensures StepLine(SumRule, st, Line(TurnRecord(data, base, offset)))
      == Ok(Continue(State(st.upper, base, data[..NextOffset(data, base, offset)], [])))
  {
    var next := NextOffset(data, base, offset);
    var a := base + offset;
    assert AddressAt(base, offset) == a;
    var up := UpperAt(base, offset);
    assert up == a / 0x1_0000 < 0x1_0000;
    var rec := TurnRecord(data, base, offset);
    DataExtends(data, base, offset, next, st, rec.address);
    StepData(SumRule, st, rec);
  }

  /** The parser's state after the lines of one loop turn of the writer:
      the upper address of the turn is set and the turn's bytes are
      appended to the one open segment, which starts at the base. */
  lemma ChunkRead(data: seq<byte>, base: nat, offset: nat, cu: nat, st: State)
    requires base + |data| <= 0x1_0000_0000 && offset < |data|
    requires st.segments == [] && st.current == data[..offset]
    requires offset == 0 ==> cu == NoUpper
    requires offset > 0 ==> st.segStart == base && cu < 0x1_0000 && st.upper == cu * 0x1_0000
    ensures var next := NextOffset(data, base, offset);
      var up := UpperAt(base, offset);
      Run(SumRule, Lines(Chunk(data, base, offset, cu)), st)
      == Ok(Continue(State(up * 0x1_0000, base, data[..next], [])))
  {
    var up := UpperAt(base, offset);
    var rec := TurnRecord(data, base, offset);
    var st1 := st.(upper := up * 0x1_0000);
    var st2 := State(up * 0x1_0000, base, data[..NextOffset(data, base, offset)], []);
    TurnDataStep(data, base, offset, st1);
    if up != cu {
      assert up < 0x1_0000;
      StepExt(SumRule, st, up);
      assert Chunk(data, base, offset, cu) == [ExtRec(up), rec];
      LinesOfTwo(ExtRec(up), rec);
      RunTwo(Lines(Chunk(data, base, offset, cu)), Line(ExtRec(up)), Line(rec), st, st1, st2);
    } else {
      assert st1 == st;
      assert Chunk(data, base, offset, cu) == [rec];
      LinesOfOne(rec);
      RunOne(Lines(Chunk(data, base, offset, cu)), Line(rec), st, st2);
    }
  }

  /** Lines that leave the parser in `mid`, followed by lines that stop it
      from `mid`, stop it the same way. */
  lemma RunGlue(lines: seq<string>, first: seq<string>, more: seq<string>, st: State, mid: State, out: Result<Step, HexError>)
    requires lines == first + more
    requires Run(SumRule, first, st) == Ok(Continue(mid)) && Run(SumRule, more, mid) == out
    ensures Run(SumRule, lines, st) == out
  {
    RunConcat(SumRule, first, more, st, mid);
  }

  /** The EOF line closes the one open segment, if any. */
  lemma RoundTripEnd(data: seq<byte>, base: nat, cu: nat, st: State)
    requires st.segments == [] && st.current == data
    requires |data| > 0 ==> st.segStart == base
    ensures Run(SumRule, Lines(RecordsFrom(data, base, |data|, cu)), st)
      == Ok(Stop(if |data| == 0 then [] else [Segment(base, data)]))
  {
    var segs := if |data| == 0 then [] else [Segment(base, data)];
    assert Flush(st) == segs;
    StepEof(SumRule, st);
    assert RecordsFrom(data, base, |data|, cu) == [EofRec];
    LinesOfOne(EofRec);
    RunStop(Lines(RecordsFrom(data, base, |data|, cu)), Line(EofRec), st, segs);
  }

  /** The writer's records from `offset` on, read from the matching parser
      state, end with exactly one segment holding the whole image. */
  lemma {:induction false} RoundTripFrom(data: seq<byte>, base: nat, offset: nat, cu: nat, st: State)
    requires base + |data| <= 0x1_0000_0000 && offset <= |data|
    requires st.segments == [] && st.current == data[..offset]
    requires offset == 0 ==> cu == NoUpper
    requires offset > 0 ==> st.segStart == base && cu < 0x1_0000 && st.upper == cu * 0x1_0000
    ensures Run(SumRule, Lines(RecordsFrom(data, base, offset, cu)), st)
      == Ok(Stop(if |data| == 0 then [] else [Segment(base, data)]))
    decreases |data| - offset
  {
    if offset == |data| {
      assert data[..offset] == data;
      RoundTripEnd(data, base, cu, st);
    } else {
      var next := NextOffset(data, base, offset);
      var up := UpperAt(base, offset);
      var mid := State(up * 0x1_0000, base, data[..next], []);
      ChunkRead(data, base, offset, cu, st);
      RoundTripFrom(data, base, next, up, mid);
      var chunk := Chunk(data, base, offset, cu);
      var rest := RecordsFrom(data, base, next, up);
      assert RecordsFrom(data, base, offset, cu) == chunk + rest;
      LinesAppend(chunk, rest);
      RunGlue(Lines(chunk + rest), Lines(chunk), Lines(rest), st, mid,
        Ok(Stop(if |data| == 0 then [] else [Segment(base, data)])));
    }
  }

  /** Converting an image that fits below 4 GiB and parsing the result
      gives exactly one segment at the base address holding the image, and
      no segment for an empty image. */
  lemma RoundTrip(data: seq<byte>, base: nat)
    requires base + |data| <= 0x1_0000_0000
    ensures ParseSpec(Lines(ConvertSpec(data, base)))
      == Ok(if |data| == 0 then [] else [Segment(base, data)])
  {
    assert data[..0] == [];
    RoundTripFrom(data, base, 0, NoUpper, Init);
  }
}
