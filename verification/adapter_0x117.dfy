/** The simulator's adapter over the 0x117 codec: `parse_frame` turns a
    received frame into a dictionary of field values, `encode_signals`
    turns a dictionary of updates into the frame to send. */
module Adapter0x117 {
  import opened Bits
  import opened Wrappers
  import opened SignalCodec
  import opened Msg0x117

  /** No two signals of the table share a name. */
  predicate DistinctNames(signals: seq<Signal>)
  {
    forall i, j :: 0 <= i < j < |signals| ==> signals[i].name != signals[j].name
  }

  /** The first signal at or after `from` called `name`. */
  function FindName(signals: seq<Signal>, name: string, from: nat): (r: Option<nat>)
    requires from <= |signals|
    ensures r.Some? ==> from <= r.value < |signals| && signals[r.value].name == name
    ensures r.None? ==> forall i :: from <= i < |signals| ==> signals[i].name != name
    decreases |signals| - from
  {
    if from == |signals| then None
    else if signals[from].name == name then Some(from)
    else FindName(signals, name, from + 1)
  }

  /** With distinct names, every signal's name finds that signal. */
  lemma FindOwnName(signals: seq<Signal>, i: nat)
    requires DistinctNames(signals) && i < |signals|
    ensures FindName(signals, signals[i].name, 0) == Some(i)
  {
  }

  /** `hasattr(msg, name)` for the record's fields: the field's index. */
  function FieldIndex(name: string): (r: Option<nat>)
    ensures r.Some? ==> r.value < FieldCount && Signals[r.value].name == name
    ensures r.None? ==> forall i :: 0 <= i < FieldCount ==> Signals[i].name != name
  {
    FindName(Signals, name, 0)
  }

  /** Every field name finds its own field. */
  lemma FieldIndexOf(i: nat)
    requires i < FieldCount
    ensures FieldIndex(Signals[i].name) == Some(i)
  {
    NamesDistinct();
    FindOwnName(Signals, i);
  }

  // ---------------------------------------------------------------------
  // parse_frame
  // ---------------------------------------------------------------------

  /** `{f: getattr(m, f) for f in m.__dataclass_fields__}` over the first
      n fields. */
  function AsDict(signals: seq<Signal>, fields: seq<Field>, n: nat): map<string, Field>
    requires n <= |signals| && n <= |fields|
  {
    if n == 0 then map[] else AsDict(signals, fields, n - 1)[signals[n - 1].name := fields[n - 1]]
  }

  /** With distinct names the dictionary holds exactly the first n names,
      each mapped to its own field. */
  lemma {:induction false} AsDictAt(signals: seq<Signal>, fields: seq<Field>, n: nat, i: nat)
    requires DistinctNames(signals) && n <= |signals| && n <= |fields| && i < |signals|
    ensures signals[i].name in AsDict(signals, fields, n) <==> i < n
    ensures i < n ==> AsDict(signals, fields, n)[signals[i].name] == fields[i]
    decreases n
  {
    if n > 0 {
      AsDictAt(signals, fields, n - 1, i);
      if i < n - 1 {
        assert signals[i].name != signals[n - 1].name;
      } else if n - 1 < i {
        assert signals[n - 1].name != signals[i].name;
      }
    }
  }

  /** Every key of the dictionary is a signal's name. */
  lemma {:induction false} AsDictKeys(signals: seq<Signal>, fields: seq<Field>, n: nat, k: string)
    requires n <= |signals| && n <= |fields|
    requires k in AsDict(signals, fields, n)
    ensures FindName(signals, k, 0).Some?
    decreases n
  {
    if signals[n - 1].name != k {
      AsDictKeys(signals, fields, n - 1, k);
    }
  }

  /** What `parse_frame(can_id, data)` returns: {} for any other ID, the
      decoded record as a dictionary for 0x117, None when decoding raises. */
  function Parsed(canId: int, data: seq<byte>): Option<map<string, Field>>
  {
    if canId != CanId then Some(map[])
    else
      match Decode(data)
      case None => None
      case Some(m) => Some(AsDict(Signals, m.fields, FieldCount))
  }

  method ParseFrame(canId: int, data: seq<byte>) returns (r: Option<map<string, Field>>)
    ensures r == Parsed(canId, data)
  {
    if canId != CanId {
      return Some(map[]);
    }
    var m := DecodeMessage(data);
    if m.None? {
      return None;
    }
    var out: map<string, Field> := map[];
    for i := 0 to FieldCount
      invariant out == AsDict(Signals, m.value.fields, i)
    {
      out := out[Signals[i].name := m.value.fields[i]];
    }
    r := Some(out);
  }

  /** Only 0x117 frames are decoded; every other ID gives {}. */
  lemma OtherIdsIgnored(canId: int, data: seq<byte>)
    requires canId != CanId
    ensures Parsed(canId, data) == Some(map[])
  {
  }

  /** A parsed 0x117 frame has exactly the record's field names as keys;
      a frame shorter than 41 bytes raises. */
  lemma ParsedKeys(data: seq<byte>, k: string)
    ensures Parsed(CanId, data).Some? <==> |data| >= 41
    ensures Parsed(CanId, data).Some? ==> (k in Parsed(CanId, data).value <==> FieldIndex(k).Some?)
  {
    DecodeNeeds41Bytes(data);
    if Parsed(CanId, data).Some? {
      var m := Decode(data).value;
      if k in AsDict(Signals, m.fields, FieldCount) {
        AsDictKeys(Signals, m.fields, FieldCount, k);
      }
      if FieldIndex(k).Some? {
        NamesDistinct();
        AsDictAt(Signals, m.fields, FieldCount, FieldIndex(k).value);
      }
    }
  }

  // ---------------------------------------------------------------------
  // encode_signals
  // ---------------------------------------------------------------------

  /** The record after `setattr(msg, k, v)` for every update whose key is a
      field: an updated field holds the plain int, the others their
      defaults. */
  function Updated(updates: map<string, int>): (m: Message)
    ensures Complete(m)
  {
    Message(seq(FieldCount, i requires 0 <= i < FieldCount =>
      if Signals[i].name in updates then Raw(updates[Signals[i].name]) else Default.fields[i]))
  }

  /** `encode_signals(updates)`: one frame, ID 0x117, 64 bytes. The updates
      are applied in the dictionary's order; the order cannot matter, as
      each key names at most one field. */
  method EncodeSignals(updates: map<string, int>) returns (frames: seq<(int, seq<byte>)>)
    ensures frames == [(CanId, Encode(Updated(updates)))]
    ensures |frames| == 1 && frames[0].0 == 0x117 && |frames[0].1| == 64
  {
    var fields := Default.fields;
    var keys := updates.Keys;
    while keys != {}
      invariant keys <= updates.Keys
      invariant |fields| == FieldCount
      invariant forall i :: 0 <= i < FieldCount ==>
        fields[i] == (if Signals[i].name in updates - keys then Raw(updates[Signals[i].name]) else Default.fields[i])
      decreases |keys|
    {
      var k :| k in keys;
      var index := FieldIndex(k);
      if index.Some? {
        FieldIndexOf(index.value);
        forall i | 0 <= i < FieldCount && i != index.value
          ensures Signals[i].name != k
        {
          FieldIndexOf(i);
        }
        fields := fields[index.value := Raw(updates[k])];
      }
      keys := keys - {k};
    }
    assert fields == Updated(updates).fields;
    var payload := GenerateBytes(Message(fields));
    frames := [(CanId, payload)];
  }

  /** Update keys that are not fields change nothing. */
  lemma NonFieldKeysIgnored(updates: map<string, int>, k: string, v: int)
    requires FieldIndex(k).None?
    ensures Updated(updates[k := v]) == Updated(updates)
  {
  }

  /** parse_frame(0x117, encode_signals(u)[0][1]) gives every updated
      field its value mod 2^LEN, every other field its default 0, each
      typed by its enum again. */
  lemma EncodeParseRoundTrip(updates: map<string, int>, i: nat)
    requires i < FieldCount
    ensures Parsed(CanId, Encode(Updated(updates))).Some?
    ensures var v := if Signals[i].name in updates then updates[Signals[i].name] else 0;
      var out := Parsed(CanId, Encode(Updated(updates))).value;
      Signals[i].name in out && out[Signals[i].name] == Typed(i, v % Pow2(Signals[i].length))
  {
    var m := Updated(updates);
    UpdatedValue(updates, i);
    Msg0x117.RoundTrip(m);
    var d := Decode(Encode(m)).value;
    NamesDistinct();
    AsDictAt(Signals, d.fields, FieldCount, i);
  }

  /** An updated field holds the update, every other field its default 0. */
  lemma UpdatedValue(updates: map<string, int>, i: nat)
    requires i < FieldCount
    ensures Updated(updates).fields[i].value
      == if Signals[i].name in updates then updates[Signals[i].name] else 0
  {
    if Signals[i].name !in updates {
      assert Updated(updates).fields[i] == Default.fields[i];
    }
  }
}
