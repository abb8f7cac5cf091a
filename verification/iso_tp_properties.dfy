/** What the ISO-TP sender and receiver promise: frame layouts, the
    Consecutive Frame count and numbering, the Flow Control rhythm, the
    receiver's error cases, and the round trip from `SendIsoTp`'s frames
    back to the payload through `ReceiveIsoTp`. */
module IsoTpProperties {
  import opened Bits
  import opened Wrappers
  import opened CanTransport
  import opened IsoTp

  /** Frames `frames` arriving back to back with identifier `id`. */
  function Deliver(id: nat, frames: seq<seq<byte>>): (es: seq<RxEvent>)
    ensures |es| == |frames|
  {
    if |frames| == 0 then [] else [Arrive(Frame(id, frames[0]))] + Deliver(id, frames[1..])
  }

  lemma DeliverHead(id: nat, frames: seq<seq<byte>>, tail: seq<RxEvent>)
    requires |frames| > 0
    ensures Await(Deliver(id, frames) + tail, id) == Got(frames[0], Deliver(id, frames[1..]) + tail)
  {
    assert (Deliver(id, frames) + tail)[1..] == Deliver(id, frames[1..]) + tail;
  }

  /** ceil((n - 6) / 7): how many Consecutive Frames follow a First Frame. */
  function CfCount(n: nat): nat
  {
    if n <= 6 then 0 else (n - 6 + 6) / 7
  }

  /** The loop `while (bytesSent < totalLen)` runs once per k below CfCount. */
  lemma CfCountBound(n: nat, k: nat)
    ensures (6 + 7 * k < n) == (k < CfCount(n))
  {
    if n > 6 {
      var c := CfCount(n);
      assert 7 * c <= n < 7 * c + 7;
    }
  }

  lemma {:induction false} CfFramesCount(data: seq<byte>, k: nat)
    requires k <= CfCount(|data|)
    ensures |CfFrames(data, k)| == CfCount(|data|) - k
    decreases |data| - 7 * k
  {
    CfCountBound(|data|, k);
    if 6 + 7 * k < |data| {
      CfFramesCount(data, k + 1);
    }
  }

  lemma {:induction false} CfFramesAt(data: seq<byte>, k: nat, j: nat)
    requires j < |CfFrames(data, k)|
    ensures 6 + 7 * (k + j) < |data| && CfFrames(data, k)[j] == ConsecutiveFrame(data, k + j)
    decreases j
  {
    if j > 0 {
      CfFramesAt(data, k + 1, j - 1);
    }
  }

  /** The k-th Consecutive Frame: 8 bytes, PCI 0x20 plus the sequence
      nibble (k + 1) mod 16, then the at most seven payload bytes that
      follow the 6 + 7k already sent, then zero padding. */
  lemma ConsecutiveFrameLayout(data: seq<byte>, k: nat)
    requires 6 + 7 * k < |data|
    ensures var f := ConsecutiveFrame(data, k);
      var at := 6 + 7 * k;
      var c := Min(7, |data| - at);
      |f| == 8 && f[0] == 0x20 + (k + 1) % 16
      && f[1..1 + c] == data[at..at + c]
      && forall i :: 1 + c <= i < 8 ==> f[i] == 0
  {
  }

  /** A payload of n > 7 bytes is followed by CfCount(n) Consecutive
      Frames, the j-th of them laid out as `ConsecutiveFrameLayout` says. */
  lemma CfFramesLayout(data: seq<byte>)
    requires |data| >= 8
    ensures |CfFrames(data, 0)| == CfCount(|data|)
    ensures forall j :: 0 <= j < |CfFrames(data, 0)| ==>
      6 + 7 * j < |data| && CfFrames(data, 0)[j] == ConsecutiveFrame(data, j)
  {
    CfFramesCount(data, 0);
    forall j | 0 <= j < |CfFrames(data, 0)|
      ensures 6 + 7 * j < |data| && CfFrames(data, 0)[j] == ConsecutiveFrame(data, j)
    {
      CfFramesAt(data, 0, j);
    }
  }

  /** A payload of at most 7 bytes goes out as one Single Frame: length in
      byte 0, the payload, zero padding to 8 bytes; nothing is awaited. */
  lemma SendShort(data: seq<byte>, events: seq<RxEvent>, rxId: nat)
    requires |data| <= 7
    ensures var t := SendSpec(data, events, rxId);
      t.result == Ok(()) && t.rest == events && |t.sent| == 1
      && var f := t.sent[0];
      |f| == 8 && f[0] == |data| && f[1..1 + |data|] == data
      && forall i :: 1 + |data| <= i < 8 ==> f[i] == 0
  {
  }

  /** ((n >> 8) & 0xF) << 8 | (n & 0xFF) keeps n modulo 4096. */
  lemma TwelveBitLength(n: nat)
    ensures ((n / 256) % 16) * 256 + n % 256 == n % 4096
  {
    var a := n / 256;
    var b := n % 256;
    var c := a % 16;
    var d := a / 16;
    assert n == 256 * a + b;
    assert a == 16 * d + c;
    assert n == 4096 * d + (256 * c + b);
    DivModUnique(n, 4096, d, 256 * c + b);
  }

  /** A longer payload starts with a First Frame: PCI type 1, the length's
      high nibble and low byte, then the first six payload bytes. The
      12-bit length field holds |data| mod 4096, so it is exact only up to
      4095 bytes. */
  lemma {:induction false} SendFirstFrame(data: seq<byte>, events: seq<RxEvent>, rxId: nat)
    requires |data| >= 8
    ensures var t := SendSpec(data, events, rxId);
      |t.sent| >= 1
      && var f := t.sent[0];
      |f| == 8 && f[0] / 16 == 1 && f[0] % 16 == (|data| / 256) % 16
      && f[1] == |data| % 256 && f[2..] == data[..6]
      && FfLength(f) == |data| % 4096
      && (FfLength(f) == |data| <==> |data| <= 4095)
  {
    var f := FirstFrame(data);
    TwelveBitLength(|data|);
    assert FfLength(f) == |data| % 4096;
    if |data| > 4095 {
      assert |data| % 4096 < 4096;
    } else {
      DivModUnique(|data|, 4096, 0, |data|);
    }
  }

  /** When the frame received after the First Frame is not a Flow Control
      (high nibble other than 3), sending stops with an error after the
      First Frame. */
  lemma NonFlowControlRejected(data: seq<byte>, events: seq<RxEvent>, rxId: nat)
    requires |data| >= 8 && Await(events, rxId).Got?
    requires var d := Await(events, rxId).data; |d| > 0 && d[0] / 16 != 3
    ensures SendSpec(data, events, rxId)
      == Trace(Err(ExpectedFlowControl), [FirstFrame(data)], Await(events, rxId).rest)
  {
  }

  /** Frames the sender accepts as Flow Control: non-empty, type nibble 3.
      Only their first byte is looked at after the first one. */
  predicate AllFlowControl(fcs: seq<seq<byte>>)
  {
    forall i :: 0 <= i < |fcs| ==> |fcs[i]| > 0 && fcs[i][0] / 16 == 3
  }

  lemma DivStep(x: nat, bs: nat)
    requires bs >= 1
    ensures (bs + x) / bs == 1 + x / bs && (bs + x) % bs == x % bs
  {
    DivModUnique(bs + x, bs, x / bs + 1, x % bs);
  }

  lemma CfFramesStep(data: seq<byte>, k: nat)
    requires 6 + 7 * k < |data|
    ensures CfFrames(data, k) == [ConsecutiveFrame(data, k)] + CfFrames(data, k + 1)
  {
  }

  /** A Consecutive Frame that does not complete its block is sent without
      waiting. */
  lemma CfSpecInBlock(data: seq<byte>, bs: nat, k: nat, blk: nat, events: seq<RxEvent>, rxId: nat)
    requires 6 + 7 * k < |data| && blk + 1 < bs
    ensures CfSpec(data, bs, k, blk, events, rxId)
      == Prepend([ConsecutiveFrame(data, k)], CfSpec(data, bs, k + 1, blk + 1, events, rxId))
  {
  }

  /** A Consecutive Frame that completes its block is followed by a wait
      for the next Flow Control, which starts a new block. */
  lemma CfSpecBlockEnd(data: seq<byte>, bs: nat, k: nat, blk: nat, fcs: seq<seq<byte>>, tail: seq<RxEvent>, rxId: nat)
    requires 6 + 7 * k < |data| && blk + 1 >= bs && |fcs| > 0 && AllFlowControl(fcs)
    ensures CfSpec(data, bs, k, blk, Deliver(rxId, fcs) + tail, rxId)
      == Prepend([ConsecutiveFrame(data, k)], CfSpec(data, bs, k + 1, 0, Deliver(rxId, fcs[1..]) + tail, rxId))
  {
    DeliverHead(rxId, fcs, tail);
    assert |fcs[0]| > 0 && IsFlowControl(fcs[0]);
  }

  /** ... and when no Flow Control comes, the transfer times out. */
  lemma CfSpecBlockEndTimeout(data: seq<byte>, bs: nat, k: nat, blk: nat, rxId: nat)
    requires 6 + 7 * k < |data| && blk + 1 >= bs
    ensures CfSpec(data, bs, k, blk, [], rxId) == Trace(Err(Timeout), [ConsecutiveFrame(data, k)], [])
  {
  }

  lemma AllFlowControlTail(fcs: seq<seq<byte>>)
    requires |fcs| > 0 && AllFlowControl(fcs)
    ensures AllFlowControl(fcs[1..])
  {
    assert forall i :: 0 <= i < |fcs| - 1 ==> fcs[1..][i] == fcs[i + 1];
  }

  /** How many Flow Controls the sender waits for while it sends `n` more
      Consecutive Frames, `blk` frames of the current block being out: one
      after every frame that completes a block of `bs`. */
  function FcNeeded(n: nat, blk: nat, bs: nat): nat
    decreases n
  {
    if n == 0 then 0
    else if blk + 1 >= bs then 1 + FcNeeded(n - 1, 0, bs)
    else FcNeeded(n - 1, blk + 1, bs)
  }

  /** Whether the last of `n` more Consecutive Frames completes a block. */
  predicate LastCompletesBlock(n: nat, blk: nat, bs: nat)
    decreases n
  {
    n >= 1
    && if n == 1 then blk + 1 >= bs
       else LastCompletesBlock(n - 1, if blk + 1 >= bs then 0 else blk + 1, bs)
  }

  /** One Flow Control per completed block: (blk + n) / bs of them. */
  lemma {:induction false} FcNeededCount(n: nat, blk: nat, bs: nat)
    requires 1 <= bs && blk < bs
    ensures FcNeeded(n, blk, bs) == (blk + n) / bs
    decreases n
  {
    if n == 0 {
      DivModUnique(blk, bs, 0, blk);
    } else if blk + 1 >= bs {
      FcNeededCount(n - 1, 0, bs);
      DivStep(n - 1, bs);
    } else {
      FcNeededCount(n - 1, blk + 1, bs);
    }
  }

  /** The last frame completes a block exactly when blk + n is a multiple
      of the block size. */
  lemma {:induction false} LastCompletesBlockMod(n: nat, blk: nat, bs: nat)
    requires 1 <= bs && blk < bs && n >= 1
    ensures LastCompletesBlock(n, blk, bs) <==> (blk + n) % bs == 0
    decreases n
  {
    if n == 1 {
      if blk + 1 < bs {
        DivModUnique(blk + 1, bs, 0, blk + 1);
      } else {
        DivModUnique(blk + 1, bs, 1, 0);
      }
    } else if blk + 1 >= bs {
      LastCompletesBlockMod(n - 1, 0, bs);
      DivStep(n - 1, bs);
    } else {
      LastCompletesBlockMod(n - 1, blk + 1, bs);
    }
  }

  /** A block completed by the last frame is one more Flow Control. */
  lemma {:induction false} LastCompletesNeedsFc(n: nat, blk: nat, bs: nat)
    requires LastCompletesBlock(n, blk, bs)
    ensures FcNeeded(n, blk, bs) >= 1
    decreases n
  {
    if n > 1 && blk + 1 < bs {
      LastCompletesNeedsFc(n - 1, blk + 1, bs);
    }
  }

  /** From the k-th Consecutive Frame on, with `blk` frames of the current
      block already out, the sender awaits one Flow Control every time a
      block of `bs` frames is complete (also after the last frame), and
      whatever those Flow Controls carry beyond their type nibble, the
      block size stays `bs`. */
  lemma {:induction false} CfSpecWithFlowControl(data: seq<byte>, bs: nat, k: nat, blk: nat,
    fcs: seq<seq<byte>>, tail: seq<RxEvent>, rxId: nat)
    requires AllFlowControl(fcs) && |fcs| == FcNeeded(|CfFrames(data, k)|, blk, bs)
    ensures CfSpec(data, bs, k, blk, Deliver(rxId, fcs) + tail, rxId) == Trace(Ok(()), CfFrames(data, k), tail)
    decreases |data| - 7 * k
  {
    if 6 + 7 * k >= |data| {
      assert |fcs| == 0;
      assert Deliver(rxId, fcs) + tail == tail;
    } else {
      CfFramesStep(data, k);
      if blk + 1 >= bs {
        CfSpecBlockEnd(data, bs, k, blk, fcs, tail, rxId);
        AllFlowControlTail(fcs);
        CfSpecWithFlowControl(data, bs, k + 1, 0, fcs[1..], tail, rxId);
      } else {
        CfSpecInBlock(data, bs, k, blk, Deliver(rxId, fcs) + tail, rxId);
        CfSpecWithFlowControl(data, bs, k + 1, blk + 1, fcs, tail, rxId);
      }
    }
  }

  /** With a receiver that answers every First Frame and every completed
      block with a Flow Control, a long payload goes out as exactly
      `Segments(data)`: the First Frame and then all Consecutive Frames.
      The first Flow Control's block size (0 read as 255) governs the
      whole transfer; 1 + CfCount / bs Flow Controls are consumed. */
  lemma SendWithFlowControl(data: seq<byte>, fcs: seq<seq<byte>>, tail: seq<RxEvent>, rxId: nat)
    requires |data| >= 8 && |fcs| >= 1 && |fcs[0]| >= 3 && AllFlowControl(fcs)
    requires |fcs| == 1 + CfCount(|data|) / BlockSize(fcs[0][1])
    ensures SendSpec(data, Deliver(rxId, fcs) + tail, rxId) == Trace(Ok(()), Segments(data), tail)
  {
    var bs := BlockSize(fcs[0][1]);
    CfFramesCount(data, 0);
    FcNeededCount(CfCount(|data|), 0, bs);
    DeliverHead(rxId, fcs, tail);
    AllFlowControlTail(fcs);
    CfSpecWithFlowControl(data, bs, 0, 0, fcs[1..], tail, rxId);
  }

  /** The sender still waits for a Flow Control after the last Consecutive
      Frame when it completes a block: with one Flow Control fewer than
      that, the transfer ends in a timeout although every frame was sent. */
  lemma {:induction false} CfSpecMissingLastFlowControl(data: seq<byte>, bs: nat, k: nat, blk: nat,
    fcs: seq<seq<byte>>, rxId: nat)
    requires AllFlowControl(fcs) && LastCompletesBlock(|CfFrames(data, k)|, blk, bs)
    requires |fcs| + 1 == FcNeeded(|CfFrames(data, k)|, blk, bs)
    ensures CfSpec(data, bs, k, blk, Deliver(rxId, fcs), rxId) == Trace(Err(Timeout), CfFrames(data, k), [])
    decreases |data| - 7 * k
  {
    assert 6 + 7 * k < |data|;
    var r' := |CfFrames(data, k + 1)|;
    CfFramesStep(data, k);
    if blk + 1 >= bs {
      if r' == 0 {
        assert Deliver(rxId, fcs) == [];
        assert CfFrames(data, k + 1) == [];
        CfSpecBlockEndTimeout(data, bs, k, blk, rxId);
      } else {
        LastCompletesNeedsFc(r', 0, bs);
        CfSpecBlockEnd(data, bs, k, blk, fcs, [], rxId);
        assert Deliver(rxId, fcs) + [] == Deliver(rxId, fcs);
        assert Deliver(rxId, fcs[1..]) + [] == Deliver(rxId, fcs[1..]);
        AllFlowControlTail(fcs);
        CfSpecMissingLastFlowControl(data, bs, k + 1, 0, fcs[1..], rxId);
      }
    } else {
      CfSpecInBlock(data, bs, k, blk, Deliver(rxId, fcs), rxId);
      CfSpecMissingLastFlowControl(data, bs, k + 1, blk + 1, fcs, rxId);
    }
  }

  lemma FlowControlAfterLastBlock(data: seq<byte>, fcs: seq<seq<byte>>, rxId: nat)
    requires |data| >= 8 && |fcs| >= 1 && |fcs[0]| >= 3 && AllFlowControl(fcs)
    requires CfCount(|data|) % BlockSize(fcs[0][1]) == 0
    requires |fcs| == CfCount(|data|) / BlockSize(fcs[0][1])
    ensures SendSpec(data, Deliver(rxId, fcs), rxId) == Trace(Err(Timeout), Segments(data), [])
  {
    var bs := BlockSize(fcs[0][1]);
    CfFramesCount(data, 0);
    CfCountBound(|data|, 0);
    FcNeededCount(CfCount(|data|), 0, bs);
    LastCompletesBlockMod(CfCount(|data|), 0, bs);
    DeliverHead(rxId, fcs, []);
    assert Deliver(rxId, fcs) + [] == Deliver(rxId, fcs);
    AllFlowControlTail(fcs);
    CfSpecMissingLastFlowControl(data, bs, 0, 0, fcs[1..], rxId);
  }

  // ---------------------------------------------------------------------
  // Receiver
  // ---------------------------------------------------------------------

  /** A Single Frame yields exactly pci & 0x0F bytes from index 1. */
  lemma ReceiveSingle(events: seq<RxEvent>, rxId: nat)
    requires Await(events, rxId).Got?
    requires var d := Await(events, rxId).data; |d| > 0 && d[0] / 16 == 0 && 1 + d[0] % 16 <= |d|
    ensures var d := Await(events, rxId).data; var t := RecvSpec(events, rxId);
      t.result.Ok? && |t.result.value| == d[0] % 16
      && (forall i :: 0 <= i < |t.result.value| ==> t.result.value[i] == d[1 + i])
      && t.sent == []
  {
  }

  /** PCI types other than 0 and 1 are refused, and nothing is sent. */
  lemma ReceiveUnsupported(events: seq<RxEvent>, rxId: nat)
    requires Await(events, rxId).Got?
    requires var d := Await(events, rxId).data; |d| > 0 && d[0] / 16 >= 2
    ensures RecvSpec(events, rxId) == Trace(Err(UnsupportedFrameType), [], Await(events, rxId).rest)
  {
  }

  /** The receiver's Consecutive Frame loop sends nothing, and when it
      succeeds from a buffer no longer than the declared length, the
      result is the buffer extended to exactly that length. */
  lemma {:induction false} ReassembleFacts(len: nat, buf: seq<byte>, esn: nat, events: seq<RxEvent>, rxId: nat)
    ensures Reassemble(len, buf, esn, events, rxId).sent == []
    ensures var t := Reassemble(len, buf, esn, events, rxId);
      |buf| <= len && t.result.Ok? ==> |t.result.value| == len && t.result.value[..|buf|] == buf
    ensures |Reassemble(len, buf, esn, events, rxId).rest| <= |events|
    decreases len - |buf|
  {
    if |buf| < len {
      match Await(events, rxId)
      case TimedOut(_) =>
      case Got(c, rest) =>
        if |c| > 0 && c[0] / 16 == 2 && c[0] % 16 == esn && 1 + Min(7, len - |buf|) <= |c| {
          var nb := buf + c[1..1 + Min(7, len - |buf|)];
          ReassembleFacts(len, nb, (esn + 1) % 16, rest, rxId);
          var t := Reassemble(len, nb, (esn + 1) % 16, rest, rxId);
          if t.result.Ok? {
            assert t.result.value[..|nb|] == nb;
            assert t.result.value[..|buf|] == nb[..|buf|];
          }
        }
    }
  }

  /** A successful receive consumes at least one event and sends at most
      the one Flow Control; so a loop of receives on a finite script ends. */
  lemma ReceiveConsumes(events: seq<RxEvent>, rxId: nat)
    ensures var t := RecvSpec(events, rxId);
      (t.result.Ok? ==> |t.rest| < |events|) && |t.rest| <= |events|
      && (t.sent == [] || t.sent == [FlowControlCts])
  {
    match Await(events, rxId)
    case TimedOut(_) =>
    case Got(d, rest) =>
      if |d| >= 8 && d[0] / 16 == 1 {
        ReassembleFacts(FfLength(d), d[2..8], 1, rest, rxId);
      }
  }

  /** A First Frame is answered by exactly one Flow Control
      [0x30, 0, 0, 0, 0, 0, 0, 0] (clear to send, no block limit, no
      separation time), whatever follows; with a declared length of at
      least 6, a successful reassembly has exactly that length and begins
      with the First Frame's six data bytes. */
  lemma ReceiveFirstFrame(events: seq<RxEvent>, rxId: nat)
    requires Await(events, rxId).Got?
    requires var d := Await(events, rxId).data; |d| >= 8 && d[0] / 16 == 1
    ensures var d := Await(events, rxId).data; var t := RecvSpec(events, rxId);
      t.sent == [FlowControlCts]
      && (FfLength(d) >= 6 && t.result.Ok? ==>
            |t.result.value| == FfLength(d) && t.result.value[..6] == d[2..8])
  {
    var d := Await(events, rxId).data;
    ReassembleFacts(FfLength(d), d[2..8], 1, Await(events, rxId).rest, rxId);
  }

  /** A First Frame declaring fewer than six bytes still yields the six data
      bytes it carries: the buffer starts with them and the loop does not
      run. */
  lemma ReceiveShortFirstFrame(events: seq<RxEvent>, rxId: nat)
    requires Await(events, rxId).Got?
    requires var d := Await(events, rxId).data; |d| >= 8 && d[0] / 16 == 1 && FfLength(d) < 6
    ensures var d := Await(events, rxId).data;
      RecvSpec(events, rxId) == Trace(Ok(d[2..8]), [FlowControlCts], Await(events, rxId).rest)
  {
  }

  /** A Consecutive Frame out of sequence is an error. */
  lemma ReassembleWrongSequence(len: nat, buf: seq<byte>, esn: nat, events: seq<RxEvent>, rxId: nat)
    requires |buf| < len && Await(events, rxId).Got?
    requires var c := Await(events, rxId).data; |c| > 0 && c[0] / 16 == 2 && c[0] % 16 != esn
    ensures Reassemble(len, buf, esn, events, rxId) == Trace(Err(WrongSequence), [], Await(events, rxId).rest)
  {
  }

  /** The receiver takes the k-th Consecutive Frame the sender produced
      and appends its data bytes. */
  lemma ReassembleStep(data: seq<byte>, k: nat, tail: seq<RxEvent>, id: nat)
    requires |data| >= 8 && 6 + 7 * k < |data|
    ensures var next := 6 + 7 * k + Min(7, |data| - (6 + 7 * k));
      Reassemble(|data|, data[..6 + 7 * k], (k + 1) % 16, Deliver(id, CfFrames(data, k)) + tail, id)
      == Reassemble(|data|, data[..next], (k + 2) % 16, Deliver(id, CfFrames(data, k + 1)) + tail, id)
  {
    var n := |data|;
    var c := ConsecutiveFrame(data, k);
    var frames := CfFrames(data, k);
    CfFramesStep(data, k);
    assert frames[0] == c && frames[1..] == CfFrames(data, k + 1);
    DeliverHead(id, frames, tail);
    var chunk := Min(7, n - (6 + 7 * k));
    assert c[1..1 + chunk] == Chunk(data, k);
    assert data[..6 + 7 * k] + c[1..1 + chunk] == data[..6 + 7 * k + chunk];
    SnStep(k);
    assert ((k + 1) % 16 + 1) % 16 == (k + 2) % 16;
  }

  /** The receiver collects the Consecutive Frames the sender produced,
      from the k-th on, into the rest of the payload. */
  lemma {:induction false} ReassembleSent(data: seq<byte>, k: nat, tail: seq<RxEvent>, id: nat)
    requires |data| >= 8 && 6 + 7 * k <= |data|
    ensures Reassemble(|data|, data[..6 + 7 * k], (k + 1) % 16, Deliver(id, CfFrames(data, k)) + tail, id)
      == Trace(Ok(data), [], tail)
    decreases |data| - 7 * k
  {
    var n := |data|;
    if 6 + 7 * k == n {
      assert data[..6 + 7 * k] == data;
      assert Deliver(id, CfFrames(data, k)) + tail == tail;
    } else {
      ReassembleStep(data, k, tail, id);
      var next := 6 + 7 * k + Min(7, n - (6 + 7 * k));
      if 6 + 7 * (k + 1) <= n {
        var k' := k + 1;
        assert next == 6 + 7 * k' && k + 2 == k' + 1;
        ReassembleSent(data, k', tail, id);
      } else {
        assert data[..next] == data;
        assert CfFrames(data, k + 1) == [];
        assert Deliver(id, CfFrames(data, k + 1)) + tail == tail;
        assert Reassemble(n, data, (k + 2) % 16, tail, id) == Trace(Ok(data), [], tail);
      }
    }
  }

  /** Round trip: the frames `SendIsoTp` produces for a payload of up to
      4095 bytes, delivered to `ReceiveIsoTp`, give back the payload; the
      receiver answers a First Frame with one Flow Control. */
  lemma RoundTrip(data: seq<byte>, tail: seq<RxEvent>, id: nat)
    requires |data| <= 4095
    ensures RecvSpec(Deliver(id, Segments(data)) + tail, id)
      == Trace(Ok(data), if |data| <= 7 then [] else [FlowControlCts], tail)
  {
    var segs := Segments(data);
    DeliverHead(id, segs, tail);
    if |data| <= 7 {
      assert Deliver(id, segs[1..]) + tail == tail;
      assert SingleFrame(data)[1..1 + |data|] == data;
    } else {
      var f := FirstFrame(data);
      SendFirstFrame(data, [], id);
      assert f[2..8] == data[..6 + 7 * 0];
      assert segs[1..] == CfFrames(data, 0);
      ReassembleSent(data, 0, tail, id);
    }
  }

  /** End to end: what the sender puts on the bus, given the Flow Controls
      it needs, is what the receiver turns back into the payload. */
  lemma SendThenReceive(data: seq<byte>, fcs: seq<seq<byte>>, id: nat)
    requires 8 <= |data| <= 4095 && |fcs| >= 1 && |fcs[0]| >= 3 && AllFlowControl(fcs)
    requires |fcs| == 1 + CfCount(|data|) / BlockSize(fcs[0][1])
    ensures var s := SendSpec(data, Deliver(id, fcs), id);
      s.result == Ok(()) && RecvSpec(Deliver(id, s.sent), id).result == Ok(data)
  {
    SendWithFlowControl(data, fcs, [], id);
    assert Deliver(id, fcs) + [] == Deliver(id, fcs);
    RoundTrip(data, [], id);
    assert Deliver(id, Segments(data)) + [] == Deliver(id, Segments(data));
  }
}
