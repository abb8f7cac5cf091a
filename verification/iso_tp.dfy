/** ISO 15765-2 segmentation as `IsoTpClient` does it over classic 8-byte
    CAN frames: Single Frames (PCI type 0), First Frames (type 1),
    Consecutive Frames (type 2) and Flow Control (type 3). The specification
    functions below describe a whole exchange against the bus script; the
    client methods are proved to follow them. */
module IsoTp {
  import opened Bits
  import opened Wrappers
  import opened CanTransport

  /** The exceptions `SendIsoTp` / `ReceiveIsoTp` can end with. `FrameTooShort`
      stands for the index and copy exceptions .NET throws when a received
      frame has fewer bytes than the code reads. */
  datatype TpError =
    | Timeout
    | ExpectedFlowControl
    | ExpectedFlowControlMid
    | ExpectedConsecutive
    | WrongSequence
    | UnsupportedFrameType
    | FrameTooShort

  /** One exchange: how it ended, the frames the client sent (all with its
      transmit identifier), and the bus events left over. */
  datatype Trace<T> = Trace(result: Result<T, TpError>, sent: seq<seq<byte>>, rest: seq<RxEvent>)

  function Prepend<T>(frames: seq<seq<byte>>, t: Trace<T>): Trace<T>
  {
    Trace(t.result, frames + t.sent, t.rest)
  }

  /** A PCI byte `(kind << 4) | low`. */
  function Pci(kind: nat, low: nat): (b: byte)
    requires kind < 16 && low < 16
    ensures b / 16 == kind && b % 16 == low
  {
    kind * 16 + low
  }

  /** The nibbles do not overlap, so the C# `|` that builds a PCI byte is
      the sum `Pci` uses. */
  lemma PciIsOr(kind: nat, low: nat)
    requires kind < 16 && low < 16
    ensures Pci(kind, low) == BitOr(kind * Pow2(4), low)
  {
    BitOrDisjoint(kind, low, 4);
    assert Pow2(4) == 16;
  }

  function Min(a: int, b: int): int
  {
    if a < b then a else b
  }

  // ---------------------------------------------------------------------
  // Frame layouts (IsoTpClient.cs, SendIsoTp)
  // ---------------------------------------------------------------------

  function SingleFrame(data: seq<byte>): seq<byte>
    requires |data| <= 7
  {
    [Pci(0, |data|)] + data + Zeros(7 - |data|)
  }

  function FirstFrame(data: seq<byte>): seq<byte>
    requires |data| >= 8
  {
    [Pci(1, (|data| / 256) % 16), |data| % 256] + data[..6]
  }

  /** The payload of the k-th Consecutive Frame (k from 0): the next at most
      seven bytes after the six the First Frame carried. */
  function Chunk(data: seq<byte>, k: nat): seq<byte>
    requires 6 + 7 * k < |data|
  {
    data[6 + 7 * k .. Min(6 + 7 * k + 7, |data|)]
  }

  function ConsecutiveFrame(data: seq<byte>, k: nat): seq<byte>
    requires 6 + 7 * k < |data|
  {
    var c := Chunk(data, k);
    [Pci(2, (k + 1) % 16)] + c + Zeros(7 - |c|)
  }

  const FlowControlCts: seq<byte> := [0x30, 0, 0, 0, 0, 0, 0, 0]

  /** Block size from a Flow Control's second byte: 0 means "no limit",
      which the client treats as 255. */
  function BlockSize(b: byte): (r: nat)
    ensures 1 <= r <= 255
    ensures b != 0 ==> r == b
  {
    if b == 0 then 255 else b
  }

  predicate IsFlowControl(d: seq<byte>)
    requires |d| > 0
  {
    d[0] / 16 == 3
  }

  /** The frames a sender produces for `data` when every Flow Control is a
      clear-to-send. */
  function CfFrames(data: seq<byte>, k: nat): seq<seq<byte>>
    decreases |data| - 7 * k
  {
    if 6 + 7 * k >= |data| then [] else [ConsecutiveFrame(data, k)] + CfFrames(data, k + 1)
  }

  function Segments(data: seq<byte>): seq<seq<byte>>
  {
    if |data| <= 7 then [SingleFrame(data)] else [FirstFrame(data)] + CfFrames(data, 0)
  }

  // ---------------------------------------------------------------------
  // Sending (SendIsoTp)
  // ---------------------------------------------------------------------

  function SendSpec(data: seq<byte>, events: seq<RxEvent>, rxId: nat): Trace<()>
  {
    if |data| <= 7 then Trace(Ok(()), [SingleFrame(data)], events)
    else
      var ff := FirstFrame(data);
      var (bs, rest) := FirstFlowControl(events, rxId);
      if bs.Err? then Trace(Err(bs.error), [ff], rest)
      else Prepend([ff], CfSpec(data, bs.value, 0, 0, rest, rxId))
  }

  /** The Flow Control awaited after the First Frame: its block size, or
      why it was refused; and the bus events left. */
  function FirstFlowControl(events: seq<RxEvent>, rxId: nat): (Result<nat, TpError>, seq<RxEvent>)
  {
    match Await(events, rxId)
    case TimedOut(rest) => (Err(Timeout), rest)
    case Got(fc, rest) =>
      if |fc| == 0 then (Err(FrameTooShort), rest)
      else if !IsFlowControl(fc) then (Err(ExpectedFlowControl), rest)
      else if |fc| < 3 then (Err(FrameTooShort), rest)
      else (Ok(BlockSize(fc[1])), rest)
  }

  /** The Consecutive Frame loop once `k` frames are out and `blk` of them
      belong to the current block. */
  function CfSpec(data: seq<byte>, bs: nat, k: nat, blk: nat, events: seq<RxEvent>, rxId: nat): Trace<()>
    decreases |data| - 7 * k
  {
    if 6 + 7 * k >= |data| then Trace(Ok(()), [], events)
    else
      var cf := ConsecutiveFrame(data, k);
      if blk + 1 >= bs then
        match Await(events, rxId)
        case TimedOut(rest) => Trace(Err(Timeout), [cf], rest)
        case Got(fc, rest) =>
          if |fc| == 0 then Trace(Err(FrameTooShort), [cf], rest)
          else if !IsFlowControl(fc) then Trace(Err(ExpectedFlowControlMid), [cf], rest)
          else Prepend([cf], CfSpec(data, bs, k + 1, 0, rest, rxId))
      else Prepend([cf], CfSpec(data, bs, k + 1, blk + 1, events, rxId))
  }

  // ---------------------------------------------------------------------
  // Receiving (ReceiveIsoTp)
  // ---------------------------------------------------------------------

  /** `((pci & 0x0F) << 8) | data[1]`: the 12-bit First Frame length. */
  function FfLength(d: seq<byte>): (n: nat)
    requires |d| >= 2
    ensures n < 4096
  {
    (d[0] as int % 16) * 256 + d[1] as int
  }

  /** `data[1]` fills the low byte only, so the OR is a sum. */
  lemma FfLengthIsOr(d: seq<byte>)
    requires |d| >= 2
    ensures FfLength(d) == BitOr((d[0] % 16) * Pow2(8), d[1])
  {
    BitOrDisjoint(d[0] % 16, d[1], 8);
    assert Pow2(8) == 256;
  }

  function RecvSpec(events: seq<RxEvent>, rxId: nat): Trace<seq<byte>>
  {
    match Await(events, rxId)
    case TimedOut(rest) => Trace(Err(Timeout), [], rest)
    case Got(d, rest) =>
      if |d| == 0 then Trace(Err(FrameTooShort), [], rest)
      else if d[0] / 16 == 0 then
        var len := d[0] % 16;
        if 1 + len <= |d| then Trace(Ok(d[1..1 + len]), [], rest)
        else Trace(Err(FrameTooShort), [], rest)
      else if d[0] / 16 == 1 then
        if |d| < 8 then Trace(Err(FrameTooShort), [], rest)
        else Prepend([FlowControlCts], Reassemble(FfLength(d), d[2..8], 1, rest, rxId))
      else Trace(Err(UnsupportedFrameType), [], rest)
  }

  /** The Consecutive Frame loop of the receiver: `buf` holds what has been
      collected, `esn` is the sequence number expected next. */
  function Reassemble(len: nat, buf: seq<byte>, esn: nat, events: seq<RxEvent>, rxId: nat): Trace<seq<byte>>
    decreases len - |buf|
  {
    if |buf| >= len then Trace(Ok(buf), [], events)
    else match Await(events, rxId)
      case TimedOut(rest) => Trace(Err(Timeout), [], rest)
      case Got(c, rest) =>
        if |c| == 0 then Trace(Err(FrameTooShort), [], rest)
        else if c[0] / 16 != 2 then Trace(Err(ExpectedConsecutive), [], rest)
        else if c[0] % 16 != esn then Trace(Err(WrongSequence), [], rest)
        else
          var chunk := Min(7, len - |buf|);
          if 1 + chunk > |c| then Trace(Err(FrameTooShort), [], rest)
          else Reassemble(len, buf + c[1..1 + chunk], (esn + 1) % 16, rest, rxId)
  }

  /** `RequestAsync`: send the request, then receive the response. */
  function RequestSpec(payload: seq<byte>, events: seq<RxEvent>, rxId: nat): Trace<seq<byte>>
  {
    var s := SendSpec(payload, events, rxId);
    if s.result.Err? then Trace(Err(s.result.error), s.sent, s.rest)
    else Prepend(s.sent, RecvSpec(s.rest, rxId))
  }

  function Tagged(id: nat, frames: seq<seq<byte>>): (fs: seq<Frame>)
    ensures |fs| == |frames|
    ensures forall i :: 0 <= i < |frames| ==> fs[i] == Frame(id, frames[i])
  {
    seq(|frames|, i requires 0 <= i < |frames| => Frame(id, frames[i]))
  }

  lemma TaggedAppend(id: nat, a: seq<seq<byte>>, b: seq<seq<byte>>)
    ensures Tagged(id, a + b) == Tagged(id, a) + Tagged(id, b)
  {
  }

  /** Frames sent in two stages are the frames of both, in order. */
  lemma SentInStages(s0: seq<Frame>, s1: seq<Frame>, s2: seq<Frame>, id: nat, a: seq<seq<byte>>, b: seq<seq<byte>>)
    requires s1 == s0 + Tagged(id, a) && s2 == s1 + Tagged(id, b)
    ensures s2 == s0 + Tagged(id, a + b)
  {
    TaggedAppend(id, a, b);
    assert s2 == s0 + (Tagged(id, a) + Tagged(id, b));
  }

  /** A Flow Control followed by more frames. */
  lemma SentAfterFlowControl(s0: seq<Frame>, s1: seq<Frame>, s2: seq<Frame>, id: nat, b: seq<seq<byte>>)
    requires s1 == s0 + [Frame(id, FlowControlCts)] && s2 == s1 + Tagged(id, b)
    ensures s2 == s0 + Tagged(id, [FlowControlCts] + b)
  {
    assert Tagged(id, [FlowControlCts]) == [Frame(id, FlowControlCts)];
    SentInStages(s0, s1, s2, id, [FlowControlCts], b);
  }

  lemma PrependPrepend<T>(a: seq<seq<byte>>, b: seq<seq<byte>>, t: Trace<T>)
    ensures Prepend(a, Prepend(b, t)) == Prepend(a + b, t)
  {
    assert a + (b + t.sent) == (a + b) + t.sent;
  }

  /** One step of the sender's Consecutive Frame loop when no Flow Control
      is due. */
  lemma CfSpecPlain(data: seq<byte>, bs: nat, k: nat, blk: nat, events: seq<RxEvent>, rxId: nat)
    requires 6 + 7 * k < |data| && blk + 1 < bs
    ensures CfSpec(data, bs, k, blk, events, rxId)
      == Prepend([ConsecutiveFrame(data, k)], CfSpec(data, bs, k + 1, blk + 1, events, rxId))
  {
  }

  /** One step of the sender's Consecutive Frame loop that ends a block. */
  lemma CfSpecBlockEnd(data: seq<byte>, bs: nat, k: nat, blk: nat, events: seq<RxEvent>, rxId: nat)
    requires 6 + 7 * k < |data| && blk + 1 >= bs
    requires Await(events, rxId).Got?
    requires var fc := Await(events, rxId).data; |fc| > 0 && IsFlowControl(fc)
    ensures CfSpec(data, bs, k, blk, events, rxId)
      == Prepend([ConsecutiveFrame(data, k)], CfSpec(data, bs, k + 1, 0, Await(events, rxId).rest, rxId))
  {
  }

  /** The ways a step that ends a block stops the sender's loop: no frame,
      an empty frame, or a frame that is not Flow Control. */
  lemma CfSpecBlockEndStops(data: seq<byte>, bs: nat, k: nat, blk: nat, events: seq<RxEvent>, rxId: nat)
    requires 6 + 7 * k < |data| && blk + 1 >= bs
    ensures var cf := ConsecutiveFrame(data, k);
      match Await(events, rxId)
      case TimedOut(rest) => CfSpec(data, bs, k, blk, events, rxId) == Trace(Err(Timeout), [cf], rest)
      case Got(fc, rest) =>
        (|fc| == 0 ==> CfSpec(data, bs, k, blk, events, rxId) == Trace(Err(FrameTooShort), [cf], rest))
        && (|fc| > 0 && !IsFlowControl(fc)
            ==> CfSpec(data, bs, k, blk, events, rxId) == Trace(Err(ExpectedFlowControlMid), [cf], rest))
  {
  }

  /** The trace after `done`, when the next step sends one frame and stops. */
  lemma StoppedTrace(done: seq<seq<byte>>, cf: seq<byte>, result: Result<(), TpError>, rest: seq<RxEvent>)
    ensures Prepend(done, Trace(result, [cf], rest)) == Trace(result, done + [cf], rest)
  {
  }

  /** The sender's k-th Consecutive Frame, as the loop assembles it. */
  lemma ConsecutiveFrameAt(data: seq<byte>, k: nat, bytesSent: nat, sn: nat, chunk: nat)
    requires 6 + 7 * k < |data| && bytesSent == 6 + 7 * k
    requires chunk == Min(7, |data| - bytesSent) && sn == (k + 1) % 16
    ensures [Pci(2, sn)] + data[bytesSent..bytesSent + chunk] + Zeros(7 - chunk)
      == ConsecutiveFrame(data, k)
  {
  }

  /** The sender's offset after k + 1 Consecutive Frames. */
  lemma BytesSentStep(k: nat, total: nat)
    requires 6 + 7 * k < total
    ensures 6 + 7 * k + Min(7, total - (6 + 7 * k)) == Min(6 + 7 * (k + 1), total)
  {
  }

  /** The wrapping sequence counter of the sender follows (k + 1) mod 16. */
  lemma SnStep(k: nat)
    ensures (if (k + 1) % 16 + 1 > 15 then 0 else (k + 1) % 16 + 1) == (k + 2) % 16
  {
    var q := (k + 1) / 16;
    var r := (k + 1) % 16;
    assert k + 1 == 16 * q + r;
    if r == 15 {
      DivModUnique(k + 2, 16, q + 1, 0);
    } else {
      DivModUnique(k + 2, 16, q, r + 1);
    }
  }

  /** One step of the receiver's Consecutive Frame loop that accepts a frame. */
  lemma ReassembleStep(len: nat, buf: seq<byte>, esn: nat, events: seq<RxEvent>, rxId: nat)
    requires |buf| < len && Await(events, rxId).Got?
    requires var c := Await(events, rxId).data;
      |c| > 0 && c[0] / 16 == 2 && c[0] % 16 == esn && 1 + Min(7, len - |buf|) <= |c|
    ensures var c := Await(events, rxId).data;
      Reassemble(len, buf, esn, events, rxId)
      == Reassemble(len, buf + c[1..1 + Min(7, len - |buf|)], (esn + 1) % 16, Await(events, rxId).rest, rxId)
  {
  }

  lemma RecvSpecFirst(events: seq<RxEvent>, rxId: nat)
    requires Await(events, rxId).Got?
    requires var d := Await(events, rxId).data; |d| >= 8 && d[0] / 16 == 1
    ensures var d := Await(events, rxId).data;
      RecvSpec(events, rxId)
      == Prepend([FlowControlCts], Reassemble(FfLength(d), d[2..8], 1, Await(events, rxId).rest, rxId))
  {
  }

  class IsoTpClient {
    const can: ScriptedTransport
    const txId: nat
    const rxId: nat

    constructor (can: ScriptedTransport, txId: nat, rxId: nat)
      ensures this.can == can && this.txId == txId && this.rxId == rxId
    {
      this.can := can;
      this.txId := txId;
      this.rxId := rxId;
    }

    method SendIsoTp(data: seq<byte>) returns (r: Result<(), TpError>)
      modifies can
      ensures var t := SendSpec(data, old(can.incoming), rxId);
        r == t.result && can.incoming == t.rest && can.sent == old(can.sent) + Tagged(txId, t.sent)
    {
      if |data| <= 7 {
        can.Send(txId, SingleFrame(data));
        return Ok(());
      }
      ghost var events0 := can.incoming;
      var ff := FirstFrame(data);
      can.Send(txId, ff);
      var blockSize := AwaitFlowControl();
      if blockSize.Err? {
        return Err(blockSize.error);
      }
      r := SendConsecutiveFrames(data, blockSize.value);
      TaggedAppend(txId, [ff], CfSpec(data, blockSize.value, 0, 0, FirstFlowControl(events0, rxId).1, rxId).sent);
    }

    /** "Wait Flow Control (FC)" after the First Frame. */
    method AwaitFlowControl() returns (blockSize: Result<nat, TpError>)
      modifies can
      ensures (blockSize, can.incoming) == FirstFlowControl(old(can.incoming), rxId)
      ensures blockSize.Ok? ==> 1 <= blockSize.value <= 255
      ensures can.sent == old(can.sent)
    {
      var fcData := can.Receive(rxId);
      if fcData.None? {
        return Err(Timeout);
      }
      var fc := fcData.value;
      if |fc| == 0 {
        return Err(FrameTooShort);
      }
      if fc[0] / 16 != 3 {
        return Err(ExpectedFlowControl);
      }
      if |fc| < 3 {
        return Err(FrameTooShort);
      }
      var bs: nat := fc[1];
      if bs == 0 {
        bs := 0xFF;
      }
      return Ok(bs);
    }

    /** The rest of one turn of that loop once the frame is built: send
        it, count it in the block (`blk++`), and at the end of a block
        await the next Flow Control and start a new block. The result is
        the new block counter, or the error that ends the transfer. */
    method SendInBlock(data: seq<byte>, blockSize: nat, ghost k: nat, cf: seq<byte>, blk: nat) returns (r: Result<nat, TpError>)
      requires 6 + 7 * k < |data| && cf == ConsecutiveFrame(data, k)
      requires blk < blockSize
      modifies can
      ensures can.sent == old(can.sent) + Tagged(txId, [cf])
      ensures r.Ok? ==> r.value < blockSize
      ensures r.Ok? ==> (CfSpec(data, blockSize, k, blk, old(can.incoming), rxId)
        == Prepend([cf], CfSpec(data, blockSize, k + 1, r.value, can.incoming, rxId)))
      ensures r.Err? ==> (CfSpec(data, blockSize, k, blk, old(can.incoming), rxId)
        == Trace(Err(r.error), [cf], can.incoming))
    {
      ghost var before := can.incoming;
      can.Send(txId, cf);
      assert Tagged(txId, [cf]) == [Frame(txId, cf)];
      var next := blk + 1;
      if next >= blockSize {
        CfSpecBlockEndStops(data, blockSize, k, blk, before, rxId);
        var fc := can.Receive(rxId);
        if fc.None? {
          return Err(Timeout);
        }
        if |fc.value| == 0 {
          return Err(FrameTooShort);
        }
        if fc.value[0] / 16 != 3 {
          return Err(ExpectedFlowControlMid);
        }
        CfSpecBlockEnd(data, blockSize, k, blk, before, rxId);
        return Ok(0);
      }
      CfSpecPlain(data, blockSize, k, blk, before, rxId);
      return Ok(next);
    }

    /** The `while (bytesSent < totalLen)` loop of `SendIsoTp`. */
    method SendConsecutiveFrames(data: seq<byte>, blockSize: nat) returns (r: Result<(), TpError>)
      requires |data| > 7 && 1 <= blockSize <= 255
      modifies can
      ensures var t := CfSpec(data, blockSize, 0, 0, old(can.incoming), rxId);
        r == t.result && can.incoming == t.rest && can.sent == old(can.sent) + Tagged(txId, t.sent)
    {
      ghost var events0 := can.incoming;
      ghost var sent0 := can.sent;
      var totalLen := |data|;
      var bytesSent := 6;
      var sn := 1;
      var blk := 0;
      ghost var k: nat := 0;
      ghost var done: seq<seq<byte>> := [];
      while bytesSent < totalLen
        invariant bytesSent == Min(6 + 7 * k, totalLen)
        invariant sn == (k + 1) % 16
        invariant 0 <= blk < blockSize
        invariant can.sent == sent0 + Tagged(txId, done)
        invariant CfSpec(data, blockSize, 0, 0, events0, rxId)
          == Prepend(done, CfSpec(data, blockSize, k, blk, can.incoming, rxId))
        decreases totalLen - bytesSent
      {
        assert bytesSent == 6 + 7 * k;
        var chunk := Min(7, totalLen - bytesSent);
        var cf := [Pci(2, sn)] + data[bytesSent..bytesSent + chunk] + Zeros(7 - chunk);
        ConsecutiveFrameAt(data, k, bytesSent, sn, chunk);
        SnStep(k);
        BytesSentStep(k, totalLen);
        ghost var sentBefore := can.sent;
        var step := SendInBlock(data, blockSize, k, cf, blk);
        SentInStages(sent0, sentBefore, can.sent, txId, done, [cf]);
        if step.Err? {
          StoppedTrace(done, cf, Err(step.error), can.incoming);
          return Err(step.error);
        }
        PrependPrepend(done, [cf], CfSpec(data, blockSize, k + 1, step.value, can.incoming, rxId));
        done := done + [cf];
        bytesSent := bytesSent + chunk;
        sn := sn + 1;
        if sn > 0x0F {
          sn := 0;
        }
        blk := step.value;
        k := k + 1;
      }
      return Ok(());
    }

    method ReceiveIsoTp() returns (r: Result<seq<byte>, TpError>)
      modifies can
      ensures var t := RecvSpec(old(can.incoming), rxId);
        r == t.result && can.incoming == t.rest && can.sent == old(can.sent) + Tagged(txId, t.sent)
    {
      ghost var events0 := can.incoming;
      var got := can.Receive(rxId);
      if got.None? {
        return Err(Timeout);
      }
      var data := got.value;
      if |data| == 0 {
        return Err(FrameTooShort);
      }
      var pci := data[0];
      var kind := pci / 16;
      if kind == 0 {
        var len := pci % 16;
        if 1 + len > |data| {
          return Err(FrameTooShort);
        }
        return Ok(data[1..1 + len]);
      } else if kind == 1 {
        if |data| < 8 {
          return Err(FrameTooShort);
        }
        var len := FfLength(data);
        RecvSpecFirst(events0, rxId);
        can.Send(txId, FlowControlCts);
        ghost var mid := can.sent;
        r := ReceiveConsecutiveFrames(len, data[2..8]);
        SentAfterFlowControl(old(can.sent), mid, can.sent, txId,
          Reassemble(len, data[2..8], 1, Await(events0, rxId).rest, rxId).sent);
        return;
      }
      return Err(UnsupportedFrameType);
    }

    /** The `while (buffer.Count < len)` loop of `ReceiveIsoTp`. */
    method ReceiveConsecutiveFrames(len: nat, first: seq<byte>) returns (r: Result<seq<byte>, TpError>)
      modifies can
      ensures var t := Reassemble(len, first, 1, old(can.incoming), rxId);
        r == t.result && can.incoming == t.rest && can.sent == old(can.sent) + Tagged(txId, t.sent)
    {
      ghost var events0 := can.incoming;
      var buffer := first;
      var expectedSn := 1;
      while |buffer| < len
        invariant 0 <= expectedSn < 16
        invariant can.sent == old(can.sent)
        invariant Reassemble(len, first, 1, events0, rxId) == Reassemble(len, buffer, expectedSn, can.incoming, rxId)
        decreases len - |buffer|
      {
        ghost var before := can.incoming;
        var next := can.Receive(rxId);
        if next.None? {
          return Err(Timeout);
        }
        var cdata := next.value;
        if |cdata| == 0 {
          return Err(FrameTooShort);
        }
        if cdata[0] / 16 != 2 {
          return Err(ExpectedConsecutive);
        }
        var sn := cdata[0] % 16;
        if sn != expectedSn {
          return Err(WrongSequence);
        }
        expectedSn := expectedSn + 1;
        if expectedSn > 0x0F {
          expectedSn := 0;
        }
        var remain := len - |buffer|;
        var chunk := Min(7, remain);
        if 1 + chunk > |cdata| {
          return Err(FrameTooShort);
        }
        ReassembleStep(len, buffer, sn, before, rxId);
        buffer := buffer + cdata[1..1 + chunk];
      }
      return Ok(buffer);
    }

    method RequestAsync(payload: seq<byte>) returns (r: Result<seq<byte>, TpError>)
      modifies can
      ensures var t := RequestSpec(payload, old(can.incoming), rxId);
        r == t.result && can.incoming == t.rest && can.sent == old(can.sent) + Tagged(txId, t.sent)
    {
      var s := SendIsoTp(payload);
      if s.Err? {
        return Err(s.error);
      }
      ghost var mid := can.sent;
      r := ReceiveIsoTp();
      TaggedAppend(txId, SendSpec(payload, old(can.incoming), rxId).sent,
        RecvSpec(SendSpec(payload, old(can.incoming), rxId).rest, rxId).sent);
    }

    method ReceiveOnlyAsync() returns (r: Result<seq<byte>, TpError>)
      modifies can
      ensures var t := RecvSpec(old(can.incoming), rxId);
        r == t.result && can.incoming == t.rest && can.sent == old(can.sent) + Tagged(txId, t.sent)
    {
      r := ReceiveIsoTp();
    }
  }
}
