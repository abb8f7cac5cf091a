/** The bit packing of the generated CAN codecs. The generated encoder and
    decoder repeat one block of code per signal; here that block is written
    once and run over a signal table. Every signal in the generated codecs
    modelled here is big-endian (Motorola). */
module SignalCodec {
  import opened Bits
  import opened Wrappers
  import CanSignals

  /** `bytearray(64)`: the CAN-FD payload the encoder fills. */
  const PayloadSize: nat := 64

  /** One signal of the table: `<name>_OFFSET` (the start bit, the most
      significant one) and `<name>_LEN`. */
  datatype Signal = Signal(name: string, offset: nat, length: nat)

  /** The bit positions a signal occupies: offset down to offset - length + 1. */
  predicate Covers(s: Signal, p: int)
  {
    s.offset - s.length < p <= s.offset
  }

  /** Every position of the signal lies in bytes 0 .. size - 1. */
  predicate InPayload(s: Signal, size: nat)
  {
    s.length <= s.offset + 1 && s.offset < 8 * size
  }

  /** Bit position p of a payload: bit p % 8 of byte p // 8; a position
      outside the payload holds nothing. */
  predicate PayloadBit(data: seq<byte>, p: int)
  {
    0 <= p / 8 < |data| && Bit(data[p / 8], p % 8)
  }

  lemma {:induction false} Pow2Below(k: nat, n: nat)
    requires k < n
    ensures Pow2(k) < Pow2(n)
    decreases n
  {
    if k < n - 1 {
      Pow2Below(k, n - 1);
    }
  }

  /** `data[byte_i] |= (1 << bit_i)`, skipped when `byte_i` is outside the
      buffer (the encoder's `0 <= byte_i < len(data)` guard). */
  function SetBit(data: seq<byte>, byteIndex: int, bitIndex: int): (d: seq<byte>)
    requires 0 <= bitIndex < 8
    ensures |d| == |data|
  {
    if 0 <= byteIndex < |data| then
      Pow2Below(bitIndex, 8);
      BitOrBound(data[byteIndex], Pow2(bitIndex), 8);
      data[byteIndex := BitOr(data[byteIndex], Pow2(bitIndex))]
    else data
  }

  /** Setting a bit sets that one position and changes no other. */
  lemma SetBitEffect(data: seq<byte>, byteIndex: int, bitIndex: int, p: int)
    requires 0 <= bitIndex < 8
    ensures PayloadBit(SetBit(data, byteIndex, bitIndex), p)
      == (PayloadBit(data, p) || (0 <= byteIndex < |data| && p == 8 * byteIndex + bitIndex))
  {
    var d := SetBit(data, byteIndex, bitIndex);
    if 0 <= byteIndex < |data| && p / 8 == byteIndex {
      BitOrBit(data[byteIndex], Pow2(bitIndex), p % 8);
      BitOfPow2(bitIndex, p % 8);
      if p % 8 == bitIndex {
        assert p == 8 * byteIndex + bitIndex;
      } else {
        assert p != 8 * byteIndex + bitIndex;
      }
    } else if 0 <= byteIndex < |data| {
      assert p != 8 * byteIndex + bitIndex by {
        if p == 8 * byteIndex + bitIndex {
          DivModUnique(p, 8, byteIndex, bitIndex);
        }
      }
    }
  }

  // ---------------------------------------------------------------------
  // Encoding
  // ---------------------------------------------------------------------

  /** The first n steps of one signal's encoder block: step i takes the
      i-th Motorola position and sets it when bit LEN - 1 - i of the value
      is set, `(value >> (LEN - 1 - i)) & 1`. */
  function EncodeSignal(data: seq<byte>, s: Signal, v: int, n: nat): (d: seq<byte>)
    requires n <= s.length
    ensures |d| == |data|
  {
    if n == 0 then data
    else
      var d := EncodeSignal(data, s, v, n - 1);
      var position := CanSignals.MotorolaPositions(s.offset, s.length)[n - 1];
      if Bit(v, s.length - n) then SetBit(d, position.0, position.1) else d
  }

  /** Position p carries the signal's value: p is one of its first n
      positions and the value bit that lands there is set. */
  predicate Carried(s: Signal, v: int, n: nat, p: int)
    requires n <= s.length
  {
    s.offset - n < p <= s.offset && Bit(v, s.length - 1 - (s.offset - p))
  }

  /** After n steps a position is set iff it was set before, or the
      signal's value puts a 1 there and it lies inside the buffer. */
  lemma {:induction false} EncodeSignalBit(data: seq<byte>, s: Signal, v: int, n: nat, p: int)
    requires n <= s.length
    ensures PayloadBit(EncodeSignal(data, s, v, n), p)
      == (PayloadBit(data, p) || (0 <= p / 8 < |data| && Carried(s, v, n, p)))
    decreases n
  {
    if n > 0 {
      EncodeSignalBit(data, s, v, n - 1, p);
      var d := EncodeSignal(data, s, v, n - 1);
      var q := s.offset - (n - 1);
      var position := CanSignals.MotorolaPositions(s.offset, s.length)[n - 1];
      assert 8 * position.0 + position.1 == q;
      if Bit(v, s.length - n) {
        SetBitEffect(d, position.0, position.1, p);
        if p == q {
          DivModUnique(p, 8, position.0, position.1);
        }
      }
    }
  }

  /** The encoder's buffer after the first |signals| blocks of a message:
      64 zero bytes, then each signal ORed in, in table order. */
  function EncodeFields(signals: seq<Signal>, values: seq<int>): (d: seq<byte>)
    requires |values| == |signals|
    ensures |d| == PayloadSize
    decreases |signals|
  {
    if |signals| == 0 then Zeros(PayloadSize)
    else
      var n := |signals| - 1;
      EncodeSignal(EncodeFields(signals[..n], values[..n]), signals[n], values[n], signals[n].length)
  }

  /** Some signal of the table carries position p. */
  predicate AnyCarried(signals: seq<Signal>, values: seq<int>, p: int)
    requires |values| == |signals|
    decreases |signals|
  {
    var n := |signals| - 1;
    |signals| > 0
    && (AnyCarried(signals[..n], values[..n], p) || Carried(signals[n], values[n], signals[n].length, p))
  }

  /** Bits are only ever ORed into a zeroed buffer: a payload bit is set
      iff some signal carries a 1 to that position and the position lies
      in bytes 0 .. 63. In particular every bit no signal covers stays 0. */
  lemma {:induction false} EncodeFieldsBit(signals: seq<Signal>, values: seq<int>, p: int)
    requires |values| == |signals|
    ensures PayloadBit(EncodeFields(signals, values), p)
      == (0 <= p / 8 < PayloadSize && AnyCarried(signals, values, p))
    decreases |signals|
  {
    if |signals| == 0 {
      if 0 <= p / 8 < PayloadSize {
        ZeroHasNoBits(p % 8);
      }
    } else {
      var n := |signals| - 1;
      EncodeFieldsBit(signals[..n], values[..n], p);
      EncodeSignalBit(EncodeFields(signals[..n], values[..n]), signals[n], values[n], signals[n].length, p);
    }
  }

  /** The two signals' position ranges do not overlap. */
  predicate Apart(s: Signal, t: Signal)
  {
    s.offset <= t.offset - t.length || t.offset <= s.offset - s.length
  }

  /** No position belongs to two signals. */
  predicate Disjoint(signals: seq<Signal>)
  {
    forall i, j :: 0 <= i < j < |signals| ==> Apart(signals[i], signals[j])
  }

  /** Every signal of the table lies below bit position `bound`. */
  predicate Below(signals: seq<Signal>, bound: int)
  {
    forall i :: 0 <= i < |signals| ==> signals[i].offset < bound
  }

  /** Every signal of the table lies at or above bit position `bound`. */
  predicate From(signals: seq<Signal>, bound: int)
  {
    forall i :: 0 <= i < |signals| ==> bound <= signals[i].offset - signals[i].length + 1
  }

  lemma FromAppend(a: seq<Signal>, b: seq<Signal>, bound: int, lower: int)
    requires From(a, bound) && From(b, bound) && lower <= bound
    ensures From(a + b, lower)
  {
    forall i | 0 <= i < |a + b|
      ensures lower <= (a + b)[i].offset - (a + b)[i].length + 1
    {
      if i >= |a| {
        assert (a + b)[i] == b[i - |a|];
      }
    }
  }

  /** Two disjoint tables, the first wholly below bit position `bound`
      and the second wholly at or above it, make a disjoint table. */
  lemma DisjointAppend(low: seq<Signal>, high: seq<Signal>, bound: int)
    requires Disjoint(low) && Disjoint(high)
    requires Below(low, bound) && From(high, bound)
    ensures Disjoint(low + high)
  {
    var t := low + high;
    forall i, j | 0 <= i < j < |t|
      ensures Apart(t[i], t[j])
    {
      if j < |low| {
        assert Apart(low[i], low[j]);
      } else if i >= |low| {
        assert Apart(high[i - |low|], high[j - |low|]);
      } else {
        assert t[i].offset < bound <= t[j].offset - t[j].length + 1;
      }
    }
  }

  lemma {:induction false} NotCarried(signals: seq<Signal>, values: seq<int>, p: int)
    requires |values| == |signals|
    requires forall i :: 0 <= i < |signals| ==> !Covers(signals[i], p)
    ensures !AnyCarried(signals, values, p)
    decreases |signals|
  {
    if |signals| > 0 {
      var n := |signals| - 1;
      NotCarried(signals[..n], values[..n], p);
      assert !Covers(signals[n], p);
    }
  }

  /** In a disjoint table the one signal covering a position decides it. */
  lemma {:induction false} OwnerDecides(signals: seq<Signal>, values: seq<int>, j: nat, p: int)
    requires |values| == |signals| && Disjoint(signals)
    requires j < |signals| && Covers(signals[j], p)
    ensures AnyCarried(signals, values, p) == Carried(signals[j], values[j], signals[j].length, p)
    decreases |signals|
  {
    var n := |signals| - 1;
    if j == n {
      forall i | 0 <= i < n
        ensures !Covers(signals[..n][i], p)
      {
        assert signals[..n][i] == signals[i];
        assert Apart(signals[i], signals[n]);
      }
      NotCarried(signals[..n], values[..n], p);
    } else {
      assert Apart(signals[j], signals[n]);
      assert Disjoint(signals[..n]) by {
        forall i, k | 0 <= i < k < n
          ensures Apart(signals[..n][i], signals[..n][k])
        {
          assert signals[..n][i] == signals[i] && signals[..n][k] == signals[k];
        }
      }
      OwnerDecides(signals[..n], values[..n], j, p);
    }
  }

  /** `generate_<id>_can_msg_bytes`: a `bytearray(64)` filled block by block. */
  method EncodeBytes(signals: seq<Signal>, values: seq<int>) returns (payload: seq<byte>)
    requires |values| == |signals|
    ensures payload == EncodeFields(signals, values)
  {
    var data := new byte[PayloadSize](_ => 0);
    assert data[..] == Zeros(PayloadSize);
    for j := 0 to |signals|
      invariant data[..] == EncodeFields(signals[..j], values[..j])
    {
      var s, v := signals[j], values[j];
      ghost var before := data[..];
      var positions := CanSignals.GetMotorolaBitPositions(s.offset, s.length);
      for i := 0 to s.length
        invariant data[..] == EncodeSignal(before, s, v, i)
      {
        var byteIndex, bitIndex := positions[i].0, positions[i].1;
        if Bit(v, s.length - 1 - i) && 0 <= byteIndex < data.Length {
          data[byteIndex] := SetBit(data[..], byteIndex, bitIndex)[byteIndex];
        }
      }
      assert signals[..j + 1][..j] == signals[..j] && values[..j + 1][..j] == values[..j];
    }
    assert signals[..|signals|] == signals && values[..|values|] == values;
    payload := data[..];
  }

  // ---------------------------------------------------------------------
  // Decoding
  // ---------------------------------------------------------------------

  /** `data[i]` on a Python `bytes`: negative indexes count from the end;
      None is an IndexError. */
  function PyIndex(data: seq<byte>, i: int): (r: Option<byte>)
    ensures r.Some? <==> -|data| <= i < |data|
    ensures 0 <= i < |data| ==> r == Some(data[i])
  {
    if 0 <= i < |data| then Some(data[i])
    else if -|data| <= i < 0 then Some(data[|data| + i])
    else None
  }

  /** The first n steps of one signal's decoder block: step i reads the
      i-th Motorola position and, when it is set, ORs in
      `1 << (LEN - 1 - i)`; None when a read raises IndexError. */
  function DecodeSignal(data: seq<byte>, s: Signal, n: nat): Option<nat>
    requires n <= s.length
  {
    if n == 0 then Some(0)
    else
      match DecodeSignal(data, s, n - 1)
      case None => None
      case Some(x) =>
        var position := CanSignals.MotorolaPositions(s.offset, s.length)[n - 1];
        match PyIndex(data, position.0)
        case None => None
        case Some(b) => Some(if Bit(b, position.1) then BitOr(x, Pow2(s.length - n)) else x)
  }

  /** A read of position p does not raise: its byte index is within
      Python's reach of `data`. */
  predicate ReadableAt(data: seq<byte>, p: int)
  {
    -|data| <= p / 8 < |data|
  }

  /** Every position among the signal's first n can be read. */
  predicate Readable(data: seq<byte>, s: Signal, n: nat)
  {
    forall p :: s.offset - n < p <= s.offset ==> ReadableAt(data, p)
  }

  /** Decoding raises IndexError exactly when one of the signal's positions
      is out of reach of Python indexing. */
  lemma {:induction false} DecodeSignalDefined(data: seq<byte>, s: Signal, n: nat)
    requires n <= s.length
    ensures DecodeSignal(data, s, n).Some? <==> Readable(data, s, n)
    decreases n
  {
    if n > 0 {
      DecodeSignalDefined(data, s, n - 1);
      var q := s.offset - (n - 1);
      if !ReadableAt(data, q) {
        assert !Readable(data, s, n);
      }
    }
  }

  /** Inside the payload, bit LEN - 1 - i of the decoded value is payload
      position offset - i, for the first n positions; the value stays
      below 2^LEN. */
  lemma {:induction false} DecodeSignalBit(data: seq<byte>, s: Signal, n: nat, k: nat)
    requires n <= s.length && InPayload(s, |data|)
    ensures DecodeSignal(data, s, n).Some?
    ensures DecodeSignal(data, s, n).value < Pow2(s.length)
    ensures Bit(DecodeSignal(data, s, n).value, k)
      == (s.length - n <= k < s.length && PayloadBit(data, s.offset - (s.length - 1 - k)))
    decreases n
  {
    if n == 0 {
      assert DecodeSignal(data, s, 0) == Some(0);
      ZeroHasNoBits(k);
    } else {
      DecodeSignalBit(data, s, n - 1, k);
      var x := DecodeSignal(data, s, n - 1).value;
      var q := s.offset - (n - 1);
      DecodeSignalStep(data, s, n);
      var y := DecodeSignal(data, s, n).value;
      assert PayloadBit(data, q) == Bit(data[q / 8], q % 8);
      if k == s.length - n {
        assert s.offset - (s.length - 1 - k) == q;
      }
      if Bit(data[q / 8], q % 8) {
        assert y == BitOr(x, Pow2(s.length - n));
        Pow2Below(s.length - n, s.length);
        BitOrBound(x, Pow2(s.length - n), s.length);
        BitOrBit(x, Pow2(s.length - n), k);
        BitOfPow2(s.length - n, k);
      } else {
        assert y == x;
      }
    }
  }

  /** Step n reads payload position offset - (n - 1), which lies inside
      the payload, and ORs in 2^(LEN - n) when that bit is set. */
  lemma DecodeSignalStep(data: seq<byte>, s: Signal, n: nat)
    requires 0 < n <= s.length && InPayload(s, |data|)
    requires DecodeSignal(data, s, n - 1).Some?
    ensures 0 <= (s.offset - (n - 1)) / 8 < |data|
    ensures var q := s.offset - (n - 1);
      var x := DecodeSignal(data, s, n - 1).value;
      DecodeSignal(data, s, n) == Some(if Bit(data[q / 8], q % 8) then BitOr(x, Pow2(s.length - n)) else x)
  {
    var q := s.offset - (n - 1);
    var position := CanSignals.MotorolaPositions(s.offset, s.length)[n - 1];
    assert 8 * position.0 + position.1 == q && 0 <= position.1 < 8;
    assert position.0 == q / 8 && position.1 == q % 8;
    assert 0 <= q / 8 < |data|;
  }

  /** The decoded values of a table, or None when a read raises. */
  function DecodeFields(data: seq<byte>, signals: seq<Signal>): (r: Option<seq<nat>>)
    ensures r.Some? ==> |r.value| == |signals|
    decreases |signals|
  {
    if |signals| == 0 then Some([])
    else
      var n := |signals| - 1;
      match DecodeFields(data, signals[..n])
      case None => None
      case Some(xs) =>
        match DecodeSignal(data, signals[n], signals[n].length)
        case None => None
        case Some(x) => Some(xs + [x])
  }

  /** The table decodes iff each signal does. */
  lemma {:induction false} DecodeFieldsDefined(data: seq<byte>, signals: seq<Signal>)
    ensures DecodeFields(data, signals).Some?
      <==> forall i :: 0 <= i < |signals| ==> DecodeSignal(data, signals[i], signals[i].length).Some?
    decreases |signals|
  {
    if |signals| > 0 {
      var n := |signals| - 1;
      var front := signals[..n];
      DecodeFieldsDefined(data, front);
      if DecodeFields(data, signals).Some? {
        forall i | 0 <= i < n
          ensures DecodeSignal(data, signals[i], signals[i].length).Some?
        {
          assert front[i] == signals[i];
        }
      } else if DecodeFields(data, front).None? {
        var i :| 0 <= i < n && DecodeSignal(data, front[i], front[i].length).None?;
        assert front[i] == signals[i];
      }
    }
  }

  /** Value i of a decoded table is signal i's own decoding. */
  lemma {:induction false} DecodeFieldsAt(data: seq<byte>, signals: seq<Signal>, i: nat)
    requires DecodeFields(data, signals).Some? && i < |signals|
    ensures DecodeSignal(data, signals[i], signals[i].length) == Some(DecodeFields(data, signals).value[i])
    decreases |signals|
  {
    var n := |signals| - 1;
    if i < n {
      DecodeFieldsAt(data, signals[..n], i);
      assert signals[..n][i] == signals[i];
    }
  }

  /** `decode_<id>_can_msg` over a table: the reads of each block in turn,
      stopping at the first IndexError. */
  method DecodeBytes(data: seq<byte>, signals: seq<Signal>) returns (r: Option<seq<nat>>)
    ensures r == DecodeFields(data, signals)
  {
    var values: seq<nat> := [];
    for j := 0 to |signals|
      invariant DecodeFields(data, signals[..j]) == Some(values)
    {
      var x := DecodeBlock(data, signals[j]);
      assert signals[..j + 1][..j] == signals[..j];
      if x.None? {
        NoneSticksFields(data, signals, j + 1);
        return None;
      }
      values := values + [x.value];
    }
    assert signals[..|signals|] == signals;
    r := Some(values);
  }

  /** One signal's block of the generated decoder: its bits in Motorola
      order, most significant first, or None at the first IndexError. */
  method DecodeBlock(data: seq<byte>, s: Signal) returns (r: Option<nat>)
    ensures r == DecodeSignal(data, s, s.length)
  {
    var positions := CanSignals.GetMotorolaBitPositions(s.offset, s.length);
    var x: nat := 0;
    for i := 0 to s.length
      invariant DecodeSignal(data, s, i) == Some(x)
    {
      var byteIndex, bitIndex := positions[i].0, positions[i].1;
      var b := PyIndex(data, byteIndex);
      if b.None? {
        assert DecodeSignal(data, s, i + 1) == None;
        NoneSticks(data, s, i + 1, s.length);
        return None;
      }
      if Bit(b.value, bitIndex) {
        x := BitOr(x, Pow2(s.length - 1 - i));
      }
    }
    r := Some(x);
  }

  lemma {:induction false} NoneSticks(data: seq<byte>, s: Signal, i: nat, n: nat)
    requires i <= n <= s.length && DecodeSignal(data, s, i).None?
    ensures DecodeSignal(data, s, n).None?
    decreases n - i
  {
    if i < n {
      NoneSticks(data, s, i, n - 1);
    }
  }

  lemma {:induction false} NoneSticksFields(data: seq<byte>, signals: seq<Signal>, j: nat)
    requires 0 < j <= |signals|
    requires DecodeFields(data, signals[..j]) == None
    ensures DecodeFields(data, signals) == None
    decreases |signals| - j
  {
    if j < |signals| {
      var n := |signals| - 1;
      assert signals[..n][..j] == signals[..j];
      NoneSticksFields(data, signals[..n], j);
    } else {
      assert signals[..j] == signals;
    }
  }

  // ---------------------------------------------------------------------
  // Round trip
  // ---------------------------------------------------------------------

  /** A payload whose position for value bit k holds bit k of v decodes
      to a value whose bit k is that of v's low LEN bits. */
  lemma DecodedBit(data: seq<byte>, s: Signal, v: int, k: nat)
    requires InPayload(s, |data|) && k < s.length
    requires PayloadBit(data, s.offset - (s.length - 1 - k)) == Bit(v, k)
    ensures DecodeSignal(data, s, s.length).Some?
    ensures Bit(DecodeSignal(data, s, s.length).value, k) == Bit(v % Pow2(s.length), k)
  {
    DecodeSignalBit(data, s, s.length, k);
    BitOfMod(v, s.length, k);
  }

  /** In an encoded disjoint table, the position of value bit k of
      signal j holds that bit, when it lies inside the payload. */
  lemma {:induction false} EncodedBitOwned(signals: seq<Signal>, values: seq<int>, j: nat, k: nat)
    requires |values| == |signals| && Disjoint(signals) && j < |signals|
    requires InPayload(signals[j], PayloadSize) && k < signals[j].length
    ensures PayloadBit(EncodeFields(signals, values), signals[j].offset - (signals[j].length - 1 - k))
      == Bit(values[j], k)
  {
    var s := signals[j];
    var p := s.offset - (s.length - 1 - k);
    assert 0 <= p < 8 * PayloadSize;
    PositionInPayload(p);
    assert Covers(s, p);
    var data := EncodeFields(signals, values);
    EncodeFieldsBit(signals, values, p);
    assert PayloadBit(data, p) == AnyCarried(signals, values, p);
    OwnerDecides(signals, values, j, p);
    assert s.length - 1 - (s.offset - p) == k;
    assert Carried(s, values[j], s.length, p) == Bit(values[j], k);
  }

  /** A position below 8 * PayloadSize lies in a byte of the payload. */
  lemma PositionInPayload(p: int)
    requires 0 <= p < 8 * PayloadSize
    ensures 0 <= p / 8 < PayloadSize
  {
  }

  /** Bit k of a decoded signal of an encoded disjoint table is bit k of
      the value that was encoded. */
  lemma RoundTripBit(signals: seq<Signal>, values: seq<int>, j: nat, k: nat)
    requires |values| == |signals| && Disjoint(signals) && j < |signals|
    requires InPayload(signals[j], PayloadSize) && k < signals[j].length
    ensures DecodeSignal(EncodeFields(signals, values), signals[j], signals[j].length).Some?
    ensures Bit(DecodeSignal(EncodeFields(signals, values), signals[j], signals[j].length).value, k)
      == Bit(values[j] % Pow2(signals[j].length), k)
  {
    EncodedBitOwned(signals, values, j, k);
    DecodedBit(EncodeFields(signals, values), signals[j], values[j], k);
  }

  /** Decoding one signal of an encoded disjoint table that fits the
      payload gives back the value's low LEN bits. */
  lemma SignalRoundTrip(signals: seq<Signal>, values: seq<int>, j: nat)
    requires |values| == |signals| && Disjoint(signals) && j < |signals|
    requires InPayload(signals[j], PayloadSize)
    ensures DecodeSignal(EncodeFields(signals, values), signals[j], signals[j].length)
      == Some(values[j] % Pow2(signals[j].length))
  {
    var data := EncodeFields(signals, values);
    var s := signals[j];
    var n := s.length;
    DecodeSignalBit(data, s, n, 0);
    var x := DecodeSignal(data, s, n).value;
    var want: nat := values[j] % Pow2(n);
    forall k | 0 <= k < n
      ensures Bit(x, k) == Bit(want, k)
    {
      RoundTripBit(signals, values, j, k);
    }
    SameBitsSameValue(x, want, n);
  }

  /** decode(encode(values)) gives every field its value mod 2^LEN. */
  lemma RoundTrip(signals: seq<Signal>, values: seq<int>)
    requires |values| == |signals| && Disjoint(signals)
    requires forall i :: 0 <= i < |signals| ==> InPayload(signals[i], PayloadSize)
    ensures DecodeFields(EncodeFields(signals, values), signals).Some?
    ensures forall i :: 0 <= i < |signals| ==>
      DecodeFields(EncodeFields(signals, values), signals).value[i] == values[i] % Pow2(signals[i].length)
  {
    var data := EncodeFields(signals, values);
    forall i | 0 <= i < |signals|
      ensures DecodeSignal(data, signals[i], signals[i].length) == Some(values[i] % Pow2(signals[i].length))
    {
      SignalRoundTrip(signals, values, i);
    }
    DecodeFieldsDefined(data, signals);
    forall i | 0 <= i < |signals|
      ensures DecodeFields(data, signals).value[i] == values[i] % Pow2(signals[i].length)
    {
      DecodeFieldsAt(data, signals, i);
    }
  }
}
