/** The generated codec of CAN-FD message FD2_CE100_0 (ID 0x117, 64 bytes):
    its signal table, its enums, `to_enum`, the `canfd_0x117_msg` record,
    `generate_0x117_can_msg_bytes` and `decode_0x117_can_msg`. */
module Msg0x117 {
  import opened Bits
  import opened Wrappers
  import opened SignalCodec

  const CanId := 0x117

  /** `STRICT_ENUM`: unknown enum values are kept as plain ints. */
  const StrictEnum := false

  /** The signals, in the order of the record's fields. */
  const Signals: seq<Signal> := [
    Signal("ShiftGearPosn", 37, 3),
    Signal("PwrSta", 34, 3),
    Signal("EDriveSysErr_VCUErr", 142, 1),
    Signal("EDriveSysErr_AccPedalErr", 141, 1),
    Signal("MeterIndSpeed_raw32", 151, 8),
    Signal("FD_Telltale_Fail", 164, 1),
    Signal("FD_TCS_Indicator", 163, 2),
    Signal("FD_Steering_Warning", 161, 2),
    Signal("FD_ABS_Warning", 183, 2),
    Signal("FD_Battery_Charge_Warning", 181, 2),
    Signal("FD_EDrive_System", 179, 2),
    Signal("FD_EPB_Error", 177, 2),
    Signal("FD_HV_Battery_Fault", 191, 2),
    Signal("FD_Park_Brake_Warning", 189, 2),
    Signal("FD_Power_limitation", 187, 2),
    Signal("LimphomeAct", 207, 1),
    Signal("EDriveSysErr_MCUErr", 203, 1),
    Signal("HVSysErr_RelayErr", 212, 1),
    Signal("HVSysErr_PackErr", 211, 1),
    Signal("HVSysErr_IsolationErr", 210, 1),
    Signal("PwrStaErr", 209, 1),
    Signal("LVSysErr_PwrOutpErr", 208, 1),
    Signal("EDriveSysErr_ShifterErr", 223, 1),
    Signal("FD_EBMErrSta", 221, 2),
    Signal("LTurnLP", 246, 1),
    Signal("RTurnLP", 245, 1),
    Signal("FDC_VCU_LVStaTooLow_Sta", 304, 1),
    Signal("FDC_VCU_LVStaDropQuick_Sta", 312, 1),
    Signal("FDC_VCU_LVChrgFreq_Sta", 325, 2)]

  /** The table in six runs of neighbouring fields, each run lying wholly
      below the next: bits 32-37, 141-151, 160-191, 203-223, 245-246 and
      304-325. */
  const Run1: seq<Signal> := [
    Signal("ShiftGearPosn", 37, 3),
    Signal("PwrSta", 34, 3)]
  const Run2: seq<Signal> := [
    Signal("EDriveSysErr_VCUErr", 142, 1),
    Signal("EDriveSysErr_AccPedalErr", 141, 1),
    Signal("MeterIndSpeed_raw32", 151, 8)]
  const Run3: seq<Signal> := [
    Signal("FD_Telltale_Fail", 164, 1),
    Signal("FD_TCS_Indicator", 163, 2),
    Signal("FD_Steering_Warning", 161, 2),
    Signal("FD_ABS_Warning", 183, 2),
    Signal("FD_Battery_Charge_Warning", 181, 2),
    Signal("FD_EDrive_System", 179, 2),
    Signal("FD_EPB_Error", 177, 2),
    Signal("FD_HV_Battery_Fault", 191, 2),
    Signal("FD_Park_Brake_Warning", 189, 2),
    Signal("FD_Power_limitation", 187, 2)]
  const Run4: seq<Signal> := [
    Signal("LimphomeAct", 207, 1),
    Signal("EDriveSysErr_MCUErr", 203, 1),
    Signal("HVSysErr_RelayErr", 212, 1),
    Signal("HVSysErr_PackErr", 211, 1),
    Signal("HVSysErr_IsolationErr", 210, 1),
    Signal("PwrStaErr", 209, 1),
    Signal("LVSysErr_PwrOutpErr", 208, 1),
    Signal("EDriveSysErr_ShifterErr", 223, 1),
    Signal("FD_EBMErrSta", 221, 2)]
  const Run5: seq<Signal> := [
    Signal("LTurnLP", 246, 1),
    Signal("RTurnLP", 245, 1)]
  const Run6: seq<Signal> := [
    Signal("FDC_VCU_LVStaTooLow_Sta", 304, 1),
    Signal("FDC_VCU_LVStaDropQuick_Sta", 312, 1),
    Signal("FDC_VCU_LVChrgFreq_Sta", 325, 2)]

  const FieldCount := 29

  /** The member values of the enums: NORMAL/ERROR and the like (two
      members), OFF/ON/FLASH and the like (three), the gear positions and
      the power states (PwrStaEnum has no member 6). */
  const TwoMembers: set<int> := {0, 1}
  const ThreeMembers: set<int> := {0, 1, 2}
  const GearMembers: set<int> := {0, 1, 2, 3, 4, 5, 6, 7}
  const PowerMembers: set<int> := {0, 1, 2, 3, 4, 5, 7}

  /** Each field's IntEnum; None for `MeterIndSpeed_raw32`, a plain int. */
  const Enums: seq<Option<set<int>>> := [
    Some(GearMembers), Some(PowerMembers), Some(TwoMembers), Some(TwoMembers), None,
    Some(TwoMembers), Some(ThreeMembers), Some(ThreeMembers), Some(ThreeMembers), Some(ThreeMembers),
    Some(ThreeMembers), Some(ThreeMembers), Some(ThreeMembers), Some(ThreeMembers), Some(ThreeMembers),
    Some(TwoMembers), Some(TwoMembers), Some(TwoMembers), Some(TwoMembers), Some(TwoMembers),
    Some(TwoMembers), Some(TwoMembers), Some(TwoMembers), Some(ThreeMembers), Some(TwoMembers),
    Some(TwoMembers), Some(TwoMembers), Some(TwoMembers), Some(ThreeMembers)]

  /** A field of the record: an enum member, or a plain int. */
  datatype Field = Member(value: int) | Raw(value: int)

  /** `to_enum(cls, value, strict)`: the member with that value; otherwise
      the plain int, or a ValueError (None) when strict. */
  function ToEnum(members: set<int>, value: int, strict: bool): (r: Option<Field>)
    ensures value in members ==> r == Some(Member(value))
    ensures value !in members && !strict ==> r == Some(Raw(value))
    ensures r.None? <==> strict && value !in members
  {
    if value in members then Some(Member(value))
    else if strict then None
    else Some(Raw(value))
  }

  /** `canfd_0x117_msg`: one field per signal, in table order. */
  datatype Message = Message(fields: seq<Field>)

  predicate Complete(m: Message)
  {
    |m.fields| == FieldCount
  }

  /** The record's defaults: member 0 (PARK, OFF, NORMAL, INACTIVE) of every
      enum, and 0 for the plain int. */
  const Default: Message := Message(seq(FieldCount, i requires 0 <= i < FieldCount =>
    if Enums[i].None? then Raw(0) else Member(0)))

  /** The value decoding gives field i: `to_enum` of its enum, or the int. */
  function Typed(i: nat, x: int): Field
    requires i < FieldCount
  {
    match Enums[i]
    case None => Raw(x)
    case Some(members) => ToEnum(members, x, StrictEnum).value
  }

  /** `int(msg.<field>)` for every field. */
  function Values(m: Message): (vs: seq<int>)
    requires Complete(m)
    ensures |vs| == |Signals|
  {
    seq(FieldCount, i requires 0 <= i < FieldCount => m.fields[i].value)
  }

  /** `generate_0x117_can_msg_bytes`. */
  function Encode(m: Message): (payload: seq<byte>)
    requires Complete(m)
    ensures |payload| == PayloadSize
  {
    EncodeFields(Signals, Values(m))
  }

  /** `decode_0x117_can_msg`: None when a read raises IndexError. */
  function Decode(data: seq<byte>): (r: Option<Message>)
    ensures r.Some? ==> Complete(r.value)
  {
    match DecodeFields(data, Signals)
    case None => None
    case Some(xs) => Some(Message(seq(FieldCount, i requires 0 <= i < FieldCount => Typed(i, xs[i]))))
  }

  method GenerateBytes(m: Message) returns (payload: seq<byte>)
    requires Complete(m)
    ensures payload == Encode(m)
  {
    payload := EncodeBytes(Signals, Values(m));
  }

  method DecodeMessage(data: seq<byte>) returns (r: Option<Message>)
    ensures r == Decode(data)
  {
    var decoded := DecodeBytes(data, Signals);
    if decoded.None? {
      return None;
    }
    var xs := decoded.value;
    r := Some(Message(seq(FieldCount, i requires 0 <= i < FieldCount => Typed(i, xs[i]))));
  }

  // ---------------------------------------------------------------------
  // The table
  // ---------------------------------------------------------------------

  lemma RunsDisjoint()
    ensures Disjoint(Run1) && Disjoint(Run2) && Disjoint(Run5) && Disjoint(Run6)
  {
  }

  lemma Run3Disjoint()
    ensures Disjoint(Run3)
  {
  }

  lemma Run4Disjoint()
    ensures Disjoint(Run4)
  {
  }

  lemma RunBounds()
    ensures Below(Run1, 141) && From(Run2, 141) && Below(Run2, 160) && From(Run3, 160)
    ensures Below(Run3, 203) && From(Run4, 203) && Below(Run4, 245) && From(Run5, 245)
    ensures Below(Run5, 304) && From(Run6, 304)
  {
  }

  lemma TableIsRuns()
    ensures Signals == Run1 + (Run2 + (Run3 + (Run4 + (Run5 + Run6))))
  {
  }

  /** The 29 bit ranges are pairwise disjoint. */
  lemma TableDisjoint()
    ensures Disjoint(Signals)
  {
    RunsDisjoint();
    Run3Disjoint();
    Run4Disjoint();
    RunBounds();
    var t5 := Run5 + Run6;
    DisjointAppend(Run5, Run6, 304);
    FromAppend(Run5, Run6, 245, 245);
    var t4 := Run4 + t5;
    DisjointAppend(Run4, t5, 245);
    FromAppend(Run4, t5, 203, 203);
    var t3 := Run3 + t4;
    DisjointAppend(Run3, t4, 203);
    FromAppend(Run3, t4, 160, 160);
    var t2 := Run2 + t3;
    DisjointAppend(Run2, t3, 160);
    FromAppend(Run2, t3, 141, 141);
    DisjointAppend(Run1, t2, 141);
    TableIsRuns();
  }

  /** The record's field names are distinct (checked in three parts). */
  lemma NamesDistinct()
    ensures forall i, j :: 0 <= i < j < FieldCount ==> Signals[i].name != Signals[j].name
  {
    NamesDistinctLow();
    NamesDistinctMiddle();
    NamesDistinctHigh();
  }

  lemma NamesDistinctLow()
    ensures forall i, j :: 0 <= i < 10 && i < j < FieldCount ==> Signals[i].name != Signals[j].name
  {
  }

  lemma NamesDistinctMiddle()
    ensures forall i, j :: 10 <= i < 20 && i < j < FieldCount ==> Signals[i].name != Signals[j].name
  {
  }

  lemma NamesDistinctHigh()
    ensures forall i, j :: 20 <= i < j < FieldCount ==> Signals[i].name != Signals[j].name
  {
  }

  /** Every signal lies in bytes 0 .. 40 and none of its positions is
      negative. */
  lemma TableFits()
    ensures forall i :: 0 <= i < |Signals| ==> InPayload(Signals[i], 41)
  {
  }

  /** Every enum member fits its signal's width, so members survive the
      round trip unchanged. */
  lemma MembersFit(i: nat, v: int)
    requires i < FieldCount && Enums[i].Some? && v in Enums[i].value
    ensures 0 <= v < Pow2(Signals[i].length)
  {
    assert Pow2(1) == 2 && Pow2(2) == 4 && Pow2(3) == 8;
  }

  // ---------------------------------------------------------------------
  // Properties
  // ---------------------------------------------------------------------

  /** The decoder reads `data[byte_i]` unguarded: it needs the 41 bytes up
      to byte 325 // 8 = 40, and raises IndexError on anything shorter. */
  lemma DecodeNeeds41Bytes(data: seq<byte>)
    ensures Decode(data).Some? <==> |data| >= 41
  {
    DecodeFieldsDefined(data, Signals);
    if |data| >= 41 {
      forall i | 0 <= i < |Signals|
        ensures DecodeSignal(data, Signals[i], Signals[i].length).Some?
      {
        TableFits();
        DecodeSignalDefined(data, Signals[i], Signals[i].length);
      }
    } else {
      var last := Signals[FieldCount - 1];
      DecodeSignalDefined(data, last, last.length);
      assert !ReadableAt(data, last.offset);
    }
  }

  /** decode(encode(m)) gives every field its value's low LEN bits, typed
      by its enum again. */
  lemma RoundTrip(m: Message)
    requires Complete(m)
    ensures Decode(Encode(m)).Some?
    ensures forall i :: 0 <= i < FieldCount ==>
      Decode(Encode(m)).value.fields[i] == Typed(i, m.fields[i].value % Pow2(Signals[i].length))
  {
    var vs := Values(m);
    TableDisjoint();
    TableFits();
    SignalCodec.RoundTrip(Signals, vs);
    var xs := DecodeFields(EncodeFields(Signals, vs), Signals).value;
    forall i | 0 <= i < FieldCount
      ensures xs[i] == m.fields[i].value % Pow2(Signals[i].length)
    {
      assert vs[i] == m.fields[i].value;
    }
  }

  /** A record whose enum fields hold members, and whose plain int field
      holds a byte, decodes back to itself. */
  predicate WellTyped(m: Message)
  {
    Complete(m)
    && forall i :: 0 <= i < FieldCount ==>
      match Enums[i]
      case None => m.fields[i].Raw? && 0 <= m.fields[i].value < 256
      case Some(members) => m.fields[i].Member? && m.fields[i].value in members
  }

  lemma ExactRoundTrip(m: Message)
    requires WellTyped(m)
    ensures Decode(Encode(m)) == Some(m)
  {
    RoundTrip(m);
    var d := Decode(Encode(m)).value;
    forall i | 0 <= i < FieldCount
      ensures d.fields[i] == m.fields[i]
    {
      var v := m.fields[i].value;
      var n := Signals[i].length;
      if Enums[i].Some? {
        MembersFit(i, v);
      } else {
        assert n == 8 && Pow2(8) == 256;
      }
      DivModUnique(v, Pow2(n), 0, v);
    }
    assert d.fields == m.fields;
  }

  /** The default record is well typed, so it survives the round trip. */
  lemma DefaultRoundTrip()
    ensures WellTyped(Default)
    ensures Decode(Encode(Default)) == Some(Default)
  {
    ExactRoundTrip(Default);
  }
}
