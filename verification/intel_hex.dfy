/** `IntelHexParser.Parse`: reads Intel HEX lines (record types 00 data,
    01 end of file, 02 extended segment address, 04 extended linear
    address) into contiguous memory segments. The checksum field is never
    read. A malformed field is the exception `Substring` or `Parse` throws,
    an `Err` here; reading the file is left to the caller, which passes the
    lines. */
module IntelHex {
  import opened Bits
  import opened Wrappers
  import opened HexText

  /** `IntelHexSegment`: a start address and the bytes stored from there. */
  datatype Segment = Segment(start: nat, data: seq<byte>)

  /** `Substring` past the end of the line, or a field `Parse` rejects. */
  datatype HexError = OutOfRange | BadNumber(reason: ParseError)

  /** The fixed fields of one record, and the text of its data field. */
  datatype Record = Record(count: nat, address: nat, rtype: nat, dataHex: string)

  /** `char.IsWhiteSpace`. */
  predicate IsWhiteSpace(c: char)
  {
    c == ' ' || ('\U{9}' <= c <= '\U{D}') || c == '\U{85}' || c == '\U{A0}' || c == '\U{1680}'
    || ('\U{2000}' <= c <= '\U{200A}') || c == '\U{2028}' || c == '\U{2029}' || c == '\U{202F}'
    || c == '\U{205F}' || c == '\U{3000}'
  }

  /** `string.IsNullOrWhiteSpace(line) || !line.StartsWith(":")`. */
  predicate Skipped(line: string)
  {
    (forall i :: 0 <= i < |line| ==> IsWhiteSpace(line[i])) || |line| == 0 || line[0] != ':'
  }

  /** `T.Parse(line.Substring(start, len), NumberStyles.HexNumber)` for a
      type whose largest value is `max`. */
  function Field(line: string, start: nat, len: nat, max: nat): (r: Result<nat, HexError>)
    ensures r.Ok? ==> start + len <= |line| && r.value <= max
  {
    if start + len > |line| then Err(OutOfRange)
    else
      var v := ParseHex(line[start..start + len], max);
      if v.Err? then Err(BadNumber(v.error)) else Ok(v.value)
  }

  /** Byte count, 16-bit address and record type, then the data field of
      byte-count pairs of digits, in the order the source reads them. */
  function DecodeRecord(line: string): (r: Result<Record, HexError>)
    ensures r.Ok? ==>
      (r.value.count < 256 && r.value.address < 0x1_0000 && r.value.rtype < 256
       && |r.value.dataHex| == 2 * r.value.count)
  {
    var count := Field(line, 1, 2, 0xFF);
    if count.Err? then Err(count.error)
    else
      var address := Field(line, 3, 4, 0xFFFF);
      if address.Err? then Err(address.error)
      else
        var rtype := Field(line, 7, 2, 0xFF);
        if rtype.Err? then Err(rtype.error)
        else if 9 + 2 * count.value > |line| then Err(OutOfRange)
        else Ok(Record(count.value, address.value, rtype.value, line[9..9 + 2 * count.value]))
  }

  /** `byte.Parse(dataHex.Substring(i * 2, 2), NumberStyles.HexNumber)`. */
  function PairByte(dataHex: string, i: nat): Result<byte, ParseError>
    requires 2 * i + 2 <= |dataHex|
  {
    var v := ParseHex(dataHex[2 * i .. 2 * i + 2], 0xFF);
    if v.Err? then Err(v.error) else Ok(v.value)
  }

  /** Every pair of digits of the data field, parsed. */
  function Pairs(dataHex: string): (ps: seq<Result<byte, ParseError>>)
    ensures |ps| == |dataHex| / 2
  {
    seq(|dataHex| / 2, i requires 0 <= i < |dataHex| / 2 => PairByte(dataHex, i))
  }

  /** The first `k` data bytes, pair by pair; the first bad pair throws. */
  function DataBytes(dataHex: string, k: nat): (r: Result<seq<byte>, HexError>)
    requires 2 * k <= |dataHex|
    ensures r.Ok? ==> |r.value| == k
  {
    var c := Collect(Pairs(dataHex), k);
    if c.Err? then Err(BadNumber(c.error)) else Ok(c.value)
  }

  /** The parser's variables: `upperAddress`, `currentSegmentAddress`,
      `currentData` and `segments`. */
  datatype State = State(upper: nat, segStart: nat, current: seq<byte>, segments: seq<Segment>)

  const Init := State(0, 0, [], [])

  /** What one line leaves behind: the next state, or (after an EOF record)
      the final segment list. */
  datatype Step = Continue(next: State) | Stop(segments: seq<Segment>)

  /** The segment list with the pending segment added when it holds data. */
  function Flush(st: State): (segs: seq<Segment>)
    ensures |st.current| > 0 ==> segs == st.segments + [Segment(st.segStart, st.current)]
    ensures |st.current| == 0 ==> segs == st.segments
  {
    if |st.current| > 0 then st.segments + [Segment(st.segStart, st.current)] else st.segments
  }

  /** The absolute address the parser computes for a data record,
      `upperAddress | address`. It equals the sum for type-04 bases
      (LinearAddressIsSum) but not for type-02 bases
      (SegmentAddressCollision). */
  function Absolute(upper: nat, address: nat): nat
  {
    BitOr(upper, address)
  }

  /** How a data record's absolute address is formed from the base and
      the record's offset: `OrRule` is the parser's `upperAddress |
      address`, `SumRule` the base plus the offset that the Intel HEX
      format defines. The two agree unless a type-02 record set the base
      (RulesAgree). */
  datatype AddressRule = OrRule | SumRule

  function Place(rule: AddressRule, upper: nat, address: nat): (a: nat)
    ensures rule == OrRule ==> a == Absolute(upper, address)
    ensures rule == SumRule ==> a == upper + address
  {
    match rule
    case OrRule => Absolute(upper, address)
    case SumRule => IntendedAddress(upper, address)
  }

  /** A data record at `address` holding `bytes`: it extends the current
      segment when it starts right after it, otherwise the current segment
      is closed and a new one starts at the record. The record's absolute
      address is given by the address rule. */
  function DataRecord(rule: AddressRule, st: State, address: nat, bytes: seq<byte>): (next: State)
    ensures next.upper == st.upper
    ensures |st.current| > 0 && Place(rule, st.upper, address) == st.segStart + |st.current| ==>
      next == st.(current := st.current + bytes)
    ensures |st.current| > 0 && Place(rule, st.upper, address) != st.segStart + |st.current| ==>
      next == State(st.upper, Place(rule, st.upper, address), bytes, st.segments + [Segment(st.segStart, st.current)])
    ensures |st.current| == 0 ==>
      next == State(st.upper, Place(rule, st.upper, address), bytes, st.segments)
  {
    var abs := Place(rule, st.upper, address);
    if |st.current| > 0 && abs != st.segStart + |st.current| then
      State(st.upper, abs, bytes, Flush(st))
    else if |st.current| == 0 then
      State(st.upper, abs, bytes, st.segments)
    else
      st.(current := st.current + bytes)
  }

  /** `ushort.Parse(dataHex, NumberStyles.HexNumber)`. */
  function Word(dataHex: string): (r: Result<nat, HexError>)
    ensures r.Ok? ==> r.value < 0x1_0000
  {
    var v := ParseHex(dataHex, 0xFFFF);
    if v.Err? then Err(BadNumber(v.error)) else Ok(v.value)
  }

  /** What a well-formed record does to the parser's variables. */
  function ApplyRecord(rule: AddressRule, st: State, r: Record): Result<Step, HexError>
    requires |r.dataHex| == 2 * r.count
  {
    if r.rtype == 0x00 then
      var bytes := DataBytes(r.dataHex, r.count);
      if bytes.Err? then Err(bytes.error) else Ok(Continue(DataRecord(rule, st, r.address, bytes.value)))
    else if r.rtype == 0x01 then Ok(Stop(Flush(st)))
    else if r.rtype == 0x02 then
      var w := Word(r.dataHex);
      if w.Err? then Err(w.error) else Ok(Continue(st.(upper := w.value * 16)))
    else if r.rtype == 0x04 then
      var w := Word(r.dataHex);
      if w.Err? then Err(w.error) else Ok(Continue(st.(upper := w.value * 0x1_0000)))
    else Ok(Continue(st))
  }

  /** One iteration of the `foreach` over the lines. */
  function StepLine(rule: AddressRule, st: State, line: string): Result<Step, HexError>
  {
    if Skipped(line) then Ok(Continue(st))
    else
      var rec := DecodeRecord(line);
      if rec.Err? then Err(rec.error) else ApplyRecord(rule, st, rec.value)
  }

  /** The lines processed in order from state `st`: the loop either runs
      out of lines (`Continue` with the last state) or meets an EOF record
      (`Stop`). */
  function Run(rule: AddressRule, lines: seq<string>, st: State): Result<Step, HexError>
    decreases |lines|
  {
    if |lines| == 0 then Ok(Continue(st))
    else
      var s := StepLine(rule, st, lines[0]);
      if s.Err? then s
      else if s.value.Stop? then s
      else Run(rule, lines[1..], s.value.next)
  }

  /** `return segments`: after the loop, only the closed segments. */
  function Outcome(s: Step): seq<Segment>
  {
    if s.Stop? then s.segments else s.next.segments
  }

  function ParseFrom(rule: AddressRule, lines: seq<string>, st: State): Result<seq<Segment>, HexError>
  {
    var s := Run(rule, lines, st);
    if s.Err? then Err(s.error) else Ok(Outcome(s.value))
  }

  /** `IntelHexParser.Parse` on the file's lines, with data records placed
      at the base plus the offset: the segments the rest of the model
      flashes. */
  function ParseSpec(lines: seq<string>): Result<seq<Segment>, HexError>
  {
    ParseFrom(SumRule, lines, Init)
  }

  /** `IntelHexParser.Parse` as written, placing data records at
      `upperAddress | address`. */
  function ParseAsWritten(lines: seq<string>): Result<seq<Segment>, HexError>
  {
    ParseFrom(OrRule, lines, Init)
  }

  /** The data-record loop `for (i < byteCount) currentData.Add(byte.Parse(...))`,
      reading into a fresh list: a failing pair throws out of `Parse`, so
      the bytes appended before it are never seen. */
  method ReadDataBytes(dataHex: string, count: nat) returns (r: Result<seq<byte>, HexError>)
    requires |dataHex| == 2 * count
    ensures r == DataBytes(dataHex, count)
  {
    var bytes: seq<byte> := [];
    ghost var pairs := Pairs(dataHex);
    for i := 0 to count
      invariant Collect(pairs, i) == Ok(bytes)
    {
      var b := PairByte(dataHex, i);
      assert pairs[i] == b;
      if b.Err? {
        CollectErrorSticks(pairs, i + 1, count);
        return Err(BadNumber(b.error));
      }
      bytes := bytes + [b.value];
    }
    return Ok(bytes);
  }

  /** The body of the `foreach`: one line's effect on the parser's
      variables, or the segment list to return after an EOF record. */
  method ParseLine(rule: AddressRule, st: State, line: string) returns (r: Result<Step, HexError>)
    ensures r == StepLine(rule, st, line)
  {
    if Skipped(line) {
      return Ok(Continue(st));
    }
    var rec := DecodeRecord(line);
    if rec.Err? {
      return Err(rec.error);
    }
    r := HandleRecord(rule, st, rec.value);
  }

  /** The record-type dispatch of the loop body. */
  method HandleRecord(rule: AddressRule, st: State, rec: Record) returns (r: Result<Step, HexError>)
    requires |rec.dataHex| == 2 * rec.count
    ensures r == ApplyRecord(rule, st, rec)
  {
    var upper, segStart, current, segments := st.upper, st.segStart, st.current, st.segments;
    if rec.rtype == 0x00 {
      var bytes := ReadDataBytes(rec.dataHex, rec.count);
      if bytes.Err? {
        return Err(bytes.error);
      }
      var abs := Place(rule, upper, rec.address);
      if |current| > 0 && abs != segStart + |current| {
        segments := segments + [Segment(segStart, current)];
        current := [];
        segStart := abs;
      } else if |current| == 0 {
        segStart := abs;
      }
      current := current + bytes.value;
      assert [] + bytes.value == bytes.value;
      return Ok(Continue(State(upper, segStart, current, segments)));
    } else if rec.rtype == 0x01 {
      if |current| > 0 {
        segments := segments + [Segment(segStart, current)];
        current := [];
      }
      return Ok(Stop(segments));
    } else if rec.rtype == 0x02 {
      var w := Word(rec.dataHex);
      if w.Err? {
        return Err(w.error);
      }
      upper := w.value * 16;
    } else if rec.rtype == 0x04 {
      var w := Word(rec.dataHex);
      if w.Err? {
        return Err(w.error);
      }
      upper := w.value * 0x1_0000;
    }
    return Ok(Continue(State(upper, segStart, current, segments)));
  }

  /** `IntelHexParser.Parse`, with the address rule of its data records
      as a parameter. */
  method Parse(rule: AddressRule, lines: seq<string>) returns (r: Result<seq<Segment>, HexError>)
    ensures r == ParseFrom(rule, lines, Init)
  {
    var st := Init;
    for i := 0 to |lines|
      invariant Run(rule, lines[i..], st) == Run(rule, lines, Init)
    {
      assert lines[i..][1..] == lines[i + 1..];
      var step := ParseLine(rule, st, lines[i]);
      if step.Err? {
        return Err(step.error);
      }
      if step.value.Stop? {
        return Ok(step.value.segments);
      }
      st := step.value.next;
    }
    assert lines[|lines|..] == [];
    return Ok(st.segments);
  }

  // ---------------------------------------------------------------------
  // Properties
  // ---------------------------------------------------------------------

  /** The lines the parser does not skip. */
  function Unskipped(lines: seq<string>): (kept: seq<string>)
    ensures |kept| <= |lines|
    ensures forall i :: 0 <= i < |kept| ==> !Skipped(kept[i])
  {
    if |lines| == 0 then []
    else if Skipped(lines[0]) then Unskipped(lines[1..])
    else [lines[0]] + Unskipped(lines[1..])
  }

  /** Blank lines and lines not starting with ':' make no difference:
      dropping all of them leaves the result as it was. */
  lemma {:induction false} SkippedLinesIgnored(rule: AddressRule, lines: seq<string>, st: State)
    ensures Run(rule, Unskipped(lines), st) == Run(rule, lines, st)
    decreases |lines|
  {
    if |lines| > 0 {
      var s := StepLine(rule, st, lines[0]);
      if Skipped(lines[0]) {
        SkippedLinesIgnored(rule, lines[1..], st);
      } else {
        var kept := [lines[0]] + Unskipped(lines[1..]);
        assert kept[0] == lines[0] && kept[1..] == Unskipped(lines[1..]);
        if s.Ok? && s.value.Continue? {
          SkippedLinesIgnored(rule, lines[1..], s.value.next);
        }
      }
    }
  }

  /** Lines that leave the parser running hand their final state to the
      lines after them. */
  lemma {:induction false} RunConcat(rule: AddressRule, first: seq<string>, more: seq<string>, st: State, mid: State)
    requires Run(rule, first, st) == Ok(Continue(mid))
    ensures Run(rule, first + more, st) == Run(rule, more, mid)
    decreases |first|
  {
    if |first| == 0 {
      assert first + more == more;
    } else {
      var s := StepLine(rule, st, first[0]);
      assert (first + more)[0] == first[0];
      assert (first + more)[1..] == first[1..] + more;
      RunConcat(rule, first[1..], more, s.value.next, mid);
    }
  }

  /** An end-of-file record. */
  predicate IsEof(line: string)
  {
    !Skipped(line) && DecodeRecord(line).Ok? && DecodeRecord(line).value.rtype == 0x01
  }

  /** Without an EOF record the data still pending when the lines run out
      is dropped; an EOF record after the same lines emits it as the last
      segment, and whatever follows the EOF record is never read. */
  lemma {:induction false} PendingNeedsEof(rule: AddressRule, lines: seq<string>, st: State, last: State, eof: string, rest: seq<string>)
    requires Run(rule, lines, st) == Ok(Continue(last))
    requires IsEof(eof)
    ensures ParseFrom(rule, lines, st) == Ok(last.segments)
    ensures ParseFrom(rule, lines + [eof] + rest, st) == Ok(Flush(last))
    decreases |lines|
  {
    var all := lines + [eof] + rest;
    if |lines| == 0 {
      assert all[0] == eof;
    } else {
      var s := StepLine(rule, st, lines[0]);
      assert all[0] == lines[0];
      assert all[1..] == lines[1..] + [eof] + rest;
      PendingNeedsEof(rule, lines[1..], s.value.next, last, eof, rest);
    }
  }

  /** No segment without data. */
  predicate NonEmpty(segs: seq<Segment>)
  {
    forall k :: 0 <= k < |segs| ==> |segs[k].data| > 0
  }

  /** All bytes the parser holds, closed segments first, in order. */
  function Held(segs: seq<Segment>): seq<byte>
  {
    if |segs| == 0 then [] else Held(segs[..|segs| - 1]) + segs[|segs| - 1].data
  }

  /** Closing a segment only adds a non-empty one. */
  lemma FlushFacts(st: State)
    ensures Held(Flush(st)) == Held(st.segments) + st.current
    ensures NonEmpty(st.segments) ==> NonEmpty(Flush(st))
  {
    var f := Flush(st);
    if |st.current| > 0 {
      assert f[..|f| - 1] == st.segments;
    } else {
      assert st.current == [];
    }
  }

  /** All bytes held in a state: its closed segments, then the pending one. */
  function HeldAll(st: State): seq<byte>
  {
    Held(st.segments) + st.current
  }

  /** One data record adds exactly its bytes after all held bytes, and
      never closes an empty segment. */
  lemma DataRecordFacts(rule: AddressRule, st: State, address: nat, bytes: seq<byte>)
    ensures var next := DataRecord(rule, st, address, bytes);
      HeldAll(next) == HeldAll(st) + bytes
      && (NonEmpty(st.segments) ==> NonEmpty(next.segments))
  {
    var next := DataRecord(rule, st, address, bytes);
    var abs := Place(rule, st.upper, address);
    if |st.current| > 0 && abs != st.segStart + |st.current| {
      FlushFacts(st);
    } else if |st.current| == 0 {
      assert st.current == [];
    }
  }

  /** What a record does to the held bytes: a data record appends its
      bytes, an EOF record closes everything held, any other record
      changes no bytes; no empty segment is ever closed. */
  lemma ApplyKeepsBytes(rule: AddressRule, st: State, r: Record)
    requires |r.dataHex| == 2 * r.count
    requires NonEmpty(st.segments)
    ensures var s := ApplyRecord(rule, st, r);
      s.Ok? && s.value.Stop? ==> Held(s.value.segments) == HeldAll(st) && NonEmpty(s.value.segments)
    ensures var s := ApplyRecord(rule, st, r);
      s.Ok? && s.value.Continue? ==>
        (NonEmpty(s.value.next.segments) && HeldAll(st) <= HeldAll(s.value.next))
    ensures var s := ApplyRecord(rule, st, r);
      s.Ok? && r.rtype == 0x00 ==>
        s.value == Continue(s.value.next)
        && HeldAll(s.value.next) == HeldAll(st) + DataBytes(r.dataHex, r.count).value
    ensures var s := ApplyRecord(rule, st, r);
      s.Ok? && r.rtype != 0x00 && s.value.Continue? ==>
        s.value.next.segments == st.segments && s.value.next.current == st.current
  {
    if r.rtype == 0x00 {
      ApplyData(rule, st, r);
    } else if r.rtype == 0x01 {
      FlushFacts(st);
    } else {
      ApplyOther(rule, st, r);
    }
  }

  lemma ApplyData(rule: AddressRule, st: State, r: Record)
    requires |r.dataHex| == 2 * r.count && r.rtype == 0x00
    requires NonEmpty(st.segments)
    ensures var s := ApplyRecord(rule, st, r);
      s.Ok? ==>
        DataBytes(r.dataHex, r.count).Ok?
        && s.value == Continue(DataRecord(rule, st, r.address, DataBytes(r.dataHex, r.count).value))
        && NonEmpty(s.value.next.segments)
        && HeldAll(s.value.next) == HeldAll(st) + DataBytes(r.dataHex, r.count).value
  {
    var bytes := DataBytes(r.dataHex, r.count);
    if bytes.Ok? {
      DataRecordFacts(rule, st, r.address, bytes.value);
    }
  }

  lemma ApplyOther(rule: AddressRule, st: State, r: Record)
    requires |r.dataHex| == 2 * r.count && r.rtype != 0x00 && r.rtype != 0x01
    ensures var s := ApplyRecord(rule, st, r);
      s.Ok? ==> s.value.Continue? && s.value.next.segments == st.segments && s.value.next.current == st.current
  {
  }

  /** The parser never returns an empty segment. */
  lemma {:induction false} NoEmptySegments(rule: AddressRule, lines: seq<string>, st: State)
    requires NonEmpty(st.segments)
    ensures var r := ParseFrom(rule, lines, st); r.Ok? ==> NonEmpty(r.value)
    decreases |lines|
  {
    if |lines| > 0 {
      var s := StepLine(rule, st, lines[0]);
      if !Skipped(lines[0]) && DecodeRecord(lines[0]).Ok? {
        ApplyKeepsBytes(rule, st, DecodeRecord(lines[0]).value);
      }
      if s.Ok? && s.value.Continue? {
        NoEmptySegments(rule, lines[1..], s.value.next);
      }
    }
  }

  /** Extended linear addressing: with an upper address from a type-04
      record, `upper | address` is `upper + address`. */
  lemma LinearAddressIsSum(v: nat, address: nat)
    requires v < 0x1_0000 && address < 0x1_0000
    ensures Absolute(v * 0x1_0000, address) == v * 0x1_0000 + address
  {
    Pow2Sixteen();
    BitOrDisjoint(v, address, 16);
  }

  lemma Pow2Sixteen()
    ensures Pow2(16) == 0x1_0000
  {
    assert Pow2(4) == 16;
    assert Pow2(8) == 256;
    assert Pow2(12) == 4096;
  }

  /** The address the Intel HEX format defines for a data record: the base
      from the last type-02 (segment << 4) or type-04 (linear << 16)
      record plus the record's 16-bit offset. */
  function IntendedAddress(upper: nat, address: nat): (a: nat)
    ensures upper % 0x1_0000 == 0 && upper < 0x1_0000_0000 && address < 0x1_0000 ==> a == Absolute(upper, address)
  {
    if upper % 0x1_0000 == 0 && upper < 0x1_0000_0000 && address < 0x1_0000 then
      LinearAddressIsSum(upper / 0x1_0000, address);
      upper + address
    else
      upper + address
  }

  /** Within one base, different offsets are different addresses. */
  lemma IntendedAddressInjective(upper: nat, a: nat, b: nat)
    requires a != b
    ensures IntendedAddress(upper, a) != IntendedAddress(upper, b)
  {
  }

  /** With the segment base from a type-02 record for segment 0x0001
      (upper = 0x10), the OR sends offsets 0x0000 and 0x0010 to the same
      absolute address 0x10; the format places them at 0x10 and 0x20. */
  lemma SegmentAddressCollision()
    ensures Absolute(0x0001 * 16, 0x0000) == Absolute(0x0001 * 16, 0x0010) == 0x10
    ensures IntendedAddress(0x0001 * 16, 0x0010) == 0x20
  {
    assert BitOr(1, 1) == 1;
    assert BitOr(2, 2) == 2;
    assert BitOr(4, 4) == 4;
    assert BitOr(8, 8) == 8;
  }

  // ---------------------------------------------------------------------
  // The two address rules
  // ---------------------------------------------------------------------

  /** A base a type-04 record sets: a multiple of 0x10000 below 4 GiB. The
      initial base 0 is one. */
  predicate LinearBase(upper: nat)
  {
    upper % 0x1_0000 == 0 && upper < 0x1_0000_0000
  }

  /** A line the parser reads as an extended segment address record. */
  predicate IsSegmentRecord(line: string)
  {
    !Skipped(line) && DecodeRecord(line).Ok? && DecodeRecord(line).value.rtype == 0x02
  }

  /** Under a linear base the two rules place a record alike, so one
      record other than type 02 does the same under both, and leaves a
      linear base behind. */
  lemma {:induction false} ApplyRulesAgree(st: State, r: Record)
    requires |r.dataHex| == 2 * r.count && r.address < 0x1_0000 && r.rtype != 0x02
    requires LinearBase(st.upper)
    ensures ApplyRecord(OrRule, st, r) == ApplyRecord(SumRule, st, r)
    ensures var s := ApplyRecord(SumRule, st, r);
      s.Ok? && s.value.Continue? ==> LinearBase(s.value.next.upper)
  {
    assert Place(OrRule, st.upper, r.address) == Place(SumRule, st.upper, r.address);
    if r.rtype == 0x04 {
      var w := Word(r.dataHex);
      if w.Ok? {
        assert (w.value * 0x1_0000) % 0x1_0000 == 0;
      }
    }
  }

  /** A file without type-02 records is read alike under both rules, from
      any state with a linear base. */
  lemma {:induction false} RunRulesAgree(lines: seq<string>, st: State)
    requires LinearBase(st.upper)
    requires forall i :: 0 <= i < |lines| ==> !IsSegmentRecord(lines[i])
    ensures Run(OrRule, lines, st) == Run(SumRule, lines, st)
    decreases |lines|
  {
    if |lines| > 0 {
      if !Skipped(lines[0]) && DecodeRecord(lines[0]).Ok? {
        assert !IsSegmentRecord(lines[0]);
        ApplyRulesAgree(st, DecodeRecord(lines[0]).value);
      }
      var s := StepLine(SumRule, st, lines[0]);
      if s.Ok? && s.value.Continue? {
        RunRulesAgree(lines[1..], s.value.next);
      }
    }
  }

  /** The parser as written and the model's parser give the same result
      on every file without a type-02 record. */
  lemma RulesAgree(lines: seq<string>)
    requires forall i :: 0 <= i < |lines| ==> !IsSegmentRecord(lines[i])
    ensures ParseAsWritten(lines) == ParseSpec(lines)
  {
    RunRulesAgree(lines, Init);
  }
}
