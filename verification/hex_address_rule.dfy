/** The address rule of `IntelHexParser.Parse` at the level of whole
    files: the parser as written (`upperAddress | address`) and the
    format's rule (base plus offset) read every file the converter writes
    alike, and part ways after a type-02 record. */
module HexAddressRule {
  import opened Bits
  import opened Wrappers
  import opened IntelHex
  import opened BinToHex
  import opened HexRoundTrip

  /** The type-02 record for segment `seg`, written as the converter
      writes its type-04 records. */
  function SegRec(seg: nat): (r: Rec)
    requires seg < 0x1_0000
    ensures r.rtype == 0x02 && r.payload == ExtRec(seg).payload
  {
    Rec(0, 0x02, [seg / 256, seg % 256])
  }

  /** Reading a type-02 line sets the base to the segment times 16. */
  lemma StepSeg(rule: AddressRule, st: State, seg: nat)
    requires seg < 0x1_0000
    ensures StepLine(rule, st, Line(SegRec(seg))) == Ok(Continue(st.(upper := seg * 16)))
  {
    LineDecodes(SegRec(seg));
    ExtDecodes(seg);
  }

  /** Segment `seg`, then byte `a` at offset 0x0000, byte `b` at offset
      0x0010, and the end of the file. */
  function CollisionFile(seg: nat, a: byte, b: byte): seq<string>
    requires seg < 0x1_0000
  {
    [Line(SegRec(seg)), Line(Rec(0x0000, 0x00, [a])), Line(Rec(0x0010, 0x00, [b])), Line(EofRec)]
  }

  /** The segments the two rules read from that file for segment 0x0001:
      the OR puts both bytes at 0x10, in two segments that overlap; the
      format puts them at 0x10 and 0x20. */
  lemma ParsedCollision(a: byte, b: byte)
    ensures ParseAsWritten(CollisionFile(1, a, b)) == Ok([Segment(0x10, [a]), Segment(0x10, [b])])
    ensures ParseSpec(CollisionFile(1, a, b)) == Ok([Segment(0x10, [a]), Segment(0x20, [b])])
  {
    SegmentAddressCollision();
    RunsTo(OrRule, 1, a, b, 0x10);
    RunsTo(SumRule, 1, a, b, 0x20);
  }

  /** The file of ParsedCollision read under one rule, given where that
      rule puts the two bytes. */
  lemma RunsTo(rule: AddressRule, seg: nat, a: byte, b: byte, second: nat)
    requires seg < 0x1_0000
    requires Place(rule, seg * 16, 0x0000) == seg * 16
    requires Place(rule, seg * 16, 0x0010) == second && second != seg * 16 + 1
    ensures ParseFrom(rule, CollisionFile(seg, a, b), Init)
      == Ok([Segment(seg * 16, [a]), Segment(second, [b])])
  {
    var st1 := Init.(upper := seg * 16);
    StepSeg(rule, Init, seg);
    var st2 := DataRecord(rule, st1, 0x0000, [a]);
    StepData(rule, st1, Rec(0x0000, 0x00, [a]));
    assert st2 == State(seg * 16, seg * 16, [a], []);
    var st3 := DataRecord(rule, st2, 0x0010, [b]);
    StepData(rule, st2, Rec(0x0010, 0x00, [b]));
    assert st3 == State(seg * 16, second, [b], [Segment(seg * 16, [a])]);
    StepEof(rule, st3);
    assert Flush(st3) == [Segment(seg * 16, [a]), Segment(second, [b])];
    RunFour(rule, CollisionFile(seg, a, b), Init, st1, st2, st3, Flush(st3));
  }

  /** Four lines, the first three leaving the parser running and the last
      stopping it. */
  lemma RunFour(rule: AddressRule, lines: seq<string>, st0: State, st1: State, st2: State, st3: State, segs: seq<Segment>)
    requires |lines| == 4
    requires StepLine(rule, st0, lines[0]) == Ok(Continue(st1))
    requires StepLine(rule, st1, lines[1]) == Ok(Continue(st2))
    requires StepLine(rule, st2, lines[2]) == Ok(Continue(st3))
    requires StepLine(rule, st3, lines[3]) == Ok(Stop(segs))
    ensures ParseFrom(rule, lines, st0) == Ok(segs)
  {
    var rest1 := lines[1..];
    var rest2 := rest1[1..];
    var rest3 := rest2[1..];
    assert rest1[0] == lines[1] && rest2[0] == lines[2] && rest3[0] == lines[3];
    assert Run(rule, rest3, st3) == Ok(Stop(segs));
    assert Run(rule, rest2, st2) == Run(rule, rest3, st3);
    assert Run(rule, rest1, st1) == Run(rule, rest2, st2);
    assert Run(rule, lines, st0) == Run(rule, rest1, st1);
  }

  /** No line the converter writes is a type-02 record. */
  lemma WrittenLinesLinear(data: seq<byte>, base: nat, i: nat)
    requires i < |ConvertSpec(data, base)|
    ensures !IsSegmentRecord(Lines(ConvertSpec(data, base))[i])
  {
    var rs := ConvertSpec(data, base);
    ConvertFacts(data, base);
    if i < |rs| - 1 {
      assert WellFormed(rs[i]);
    }
    LineDecodes(rs[i]);
  }

  /** The parser as written reads the converter's output exactly as the
      model's parser does: one segment at the base holding the image. */
  lemma AsWrittenRoundTrip(data: seq<byte>, base: nat)
    requires base + |data| <= 0x1_0000_0000
    ensures ParseAsWritten(Lines(ConvertSpec(data, base)))
      == Ok(if |data| == 0 then [] else [Segment(base, data)])
  {
    var lines := Lines(ConvertSpec(data, base));
    forall i | 0 <= i < |lines|
      ensures !IsSegmentRecord(lines[i])
    {
      WrittenLinesLinear(data, base, i);
    }
    RulesAgree(lines);
    RoundTrip(data, base);
  }
}
