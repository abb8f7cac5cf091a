/** What `FlashManager` guarantees, stated over the functions of module
    `Flashing`: the blocks of a segment cover its padded data, the block
    counter restarts for every segment, the retry rules of blocks and
    files, the failures that end the sequence before any file is flashed,
    and the ECU reset that comes only after the last file. */
module FlashingProperties {
  import opened Bits
  import opened Wrappers
  import opened FlashScript
  import opened Flashing
  import IntelHex
  import Security
  import UdsService

  // ---------------------------------------------------------------------
  // Blocks
  // ---------------------------------------------------------------------

  /** The data cut into pieces of `blockSize` bytes, the last one shorter. */
  function Chunks(data: seq<byte>, blockSize: nat): seq<seq<byte>>
    requires blockSize > 0
    decreases |data|
  {
    if |data| == 0 then []
    else if |data| <= blockSize then [data]
    else [data[..blockSize]] + Chunks(data[blockSize..], blockSize)
  }

  function Concat(cs: seq<seq<byte>>): seq<byte>
  {
    if |cs| == 0 then [] else cs[0] + Concat(cs[1..])
  }

  lemma {:induction false} ChunksConcat(data: seq<byte>, blockSize: nat)
    requires blockSize > 0
    ensures Concat(Chunks(data, blockSize)) == data
    ensures forall i :: 0 <= i < |Chunks(data, blockSize)| - 1 ==> |Chunks(data, blockSize)[i]| == blockSize
    decreases |data|
  {
    var cs := Chunks(data, blockSize);
    if |data| > blockSize {
      var rest := Chunks(data[blockSize..], blockSize);
      ChunksConcat(data[blockSize..], blockSize);
      assert cs[1..] == rest;
      assert data == data[..blockSize] + data[blockSize..];
    } else if |data| > 0 {
      assert cs[1..] == [];
    }
  }

  lemma {:induction false} ChunksCount(data: seq<byte>, blockSize: nat)
    requires blockSize > 0
    ensures |Chunks(data, blockSize)| == TotalBlocks(|data|, blockSize)
    decreases |data|
  {
    var len := |data|;
    if len == 0 {
      DivModUnique(blockSize - 1, blockSize, 0, blockSize - 1);
    } else if len <= blockSize {
      DivModUnique(len + blockSize - 1, blockSize, 1, len - 1);
    } else {
      ChunksCount(data[blockSize..], blockSize);
      var q := (len - 1) / blockSize;
      var r := (len - 1) % blockSize;
      DivModUnique(len - 1, blockSize, q, r);
      assert len + blockSize - 1 == (q + 1) * blockSize + r;
      DivModUnique(len + blockSize - 1, blockSize, q + 1, r);
    }
  }

  lemma {:induction false} BlockAtIsChunk(data: seq<byte>, blockSize: nat, i: nat)
    requires blockSize > 0 && i < TotalBlocks(|data|, blockSize)
    ensures i * blockSize < |data| && i < |Chunks(data, blockSize)|
    ensures BlockAt(data, i, blockSize) == Chunks(data, blockSize)[i]
    decreases i
  {
    ChunksCount(data, blockSize);
    BlockStartsInside(|data|, blockSize, i);
    if i > 0 {
      var j := i - 1;
      MulLe(1, i, blockSize);
      ChunksCount(data[blockSize..], blockSize);
      assert Chunks(data, blockSize)[i] == Chunks(data[blockSize..], blockSize)[j];
      BlockAtIsChunk(data[blockSize..], blockSize, j);
      MulSucc(j, blockSize);
      var offset := j * blockSize;
      var m := Min(blockSize, |data| - blockSize - offset);
      assert BlockAt(data[blockSize..], j, blockSize) == data[blockSize..][offset .. offset + m];
      SliceOfSuffix(data, blockSize, offset, m);
      assert i * blockSize == blockSize + offset;
      assert BlockAt(data, i, blockSize) == data[blockSize + offset .. blockSize + offset + m];
    }
  }

  lemma SliceOfSuffix(data: seq<byte>, a: nat, b: nat, m: nat)
    requires a + b + m <= |data|
    ensures data[a..][b .. b + m] == data[a + b .. a + b + m]
  {
  }

  lemma MulSucc(j: nat, blockSize: nat)
    ensures (j + 1) * blockSize == j * blockSize + blockSize
  {
  }

  /** With a positive block size (`maxBlockLen` > 2) the blocks are the
      data cut into `blockSize` pieces: there are ceil(len / blockSize) of
      them, all but the last are full, and together they are the data. */
  lemma BlocksCoverData(data: seq<byte>, blockSize: nat)
    requires blockSize > 0
    ensures |Chunks(data, blockSize)| == TotalBlocks(|data|, blockSize)
    ensures forall i :: 0 <= i < TotalBlocks(|data|, blockSize) ==>
      i * blockSize < |data| && BlockAt(data, i, blockSize) == Chunks(data, blockSize)[i]
    ensures forall i :: 0 <= i < |Chunks(data, blockSize)| - 1 ==> |Chunks(data, blockSize)[i]| == blockSize
    ensures Concat(Chunks(data, blockSize)) == data
  {
    ChunksCount(data, blockSize);
    ChunksConcat(data, blockSize);
    forall i | 0 <= i < TotalBlocks(|data|, blockSize)
      ensures i * blockSize < |data| && BlockAt(data, i, blockSize) == Chunks(data, blockSize)[i]
    {
      BlockAtIsChunk(data, blockSize, i);
    }
  }

  /** A maximum block length of 2 divides by zero; one of 1 gives a block
      size of -1 and a count of 2 - len, so data of 2 bytes or more is not
      sent at all (the segment goes on to RequestTransferExit) and shorter
      data fails on a negative array length. */
  lemma ShortWindows(s: Script, data: seq<byte>)
    ensures Transfer(s, data, 2) == After(Threw(DivideByZero), s)
    ensures TotalBlocks(|data|, -1) == 2 - |data|
    ensures |data| >= 2 ==> Transfer(s, data, 1) == After(Returned(true), s)
    ensures |data| < 2 ==> Transfer(s, data, 1) == After(Threw(Overflow), s)
  {
    assert TotalBlocks(|data|, -1) == TruncDiv(|data| - 2, -1);
  }

  // ---------------------------------------------------------------------
  // One block
  // ---------------------------------------------------------------------

  /** The first attempt fails on any code but 0x00 (0x73 included) and on
      an exception the loop catches. */
  predicate FirstFails(o: Outcome<byte>)
  {
    if o.Returned? then o.value != 0x00 else Caught(o.fault)
  }

  /** The second attempt succeeds on 0x00 and on 0x73. */
  predicate RetrySucceeds(o: Outcome<byte>)
  {
    o == Returned(0x00) || o == Returned(0x73)
  }

  predicate RetryFails(o: Outcome<byte>)
  {
    if o.Returned? then !RetrySucceeds(o) else Caught(o.fault)
  }

  /** The TransferData calls one block makes: two when the first attempt
      fails, one otherwise. */
  function Tries(s: Script, counter: byte, block: seq<byte>): seq<Call>
  {
    var tx := TransferData(counter, block);
    if FirstFails(Head(s.nrcs)) then [tx, tx] else [tx]
  }

  lemma BlockRetryLog(s: Script, counter: byte, block: seq<byte>)
    ensures SendBlock(s, counter, block).script.log == s.log + Tries(s, counter, block)
  {
    var tx := TransferData(counter, block);
    var t := Nrc(s, tx);
    SecondAttemptLog(t.script, counter, block);
    assert t.script.log + [tx] == s.log + [tx, tx];
    if FirstFails(Head(s.nrcs)) {
      assert SendBlock(s, counter, block).script == SendBlockFrom(t.script, counter, block, 1).script;
    } else {
      assert SendBlock(s, counter, block).script == t.script;
    }
  }

  /** The retry makes exactly one more TransferData call. */
  lemma SecondAttemptLog(s: Script, counter: byte, block: seq<byte>)
    ensures SendBlockFrom(s, counter, block, 1).script.log == s.log + [TransferData(counter, block)]
  {
    var t := Nrc(s, TransferData(counter, block));
    assert SendBlockFrom(t.script, counter, block, 2) == After(Returned(false), t.script);
  }

  lemma BlockRetryOutcome(s: Script, counter: byte, block: seq<byte>)
    ensures var first := Head(s.nrcs);
      var second := Head(Tail(s.nrcs));
      var r := SendBlock(s, counter, block);
      (r.outcome == Returned(true) <==> first == Returned(0x00) || (FirstFails(first) && RetrySucceeds(second)))
      && (r.outcome == Returned(false) <==> FirstFails(first) && RetryFails(second))
  {
    var t := Nrc(s, TransferData(counter, block));
    assert Head(t.script.nrcs) == Head(Tail(s.nrcs));
    SecondAttemptOutcome(t.script, counter, block);
    if t.outcome.Returned? {
      assert SendBlock(s, counter, block).outcome
        == if t.outcome.value == 0x00 then Returned(true)
           else SendBlockFrom(t.script, counter, block, 1).outcome;
    } else {
      assert SendBlock(s, counter, block).outcome
        == if Caught(t.outcome.fault) then SendBlockFrom(t.script, counter, block, 1).outcome
           else Threw(t.outcome.fault);
    }
  }

  /** The retry succeeds on 0x00 or 0x73 and returns false on any other
      code or a caught exception. */
  lemma SecondAttemptOutcome(s: Script, counter: byte, block: seq<byte>)
    ensures var r := SendBlockFrom(s, counter, block, 1);
      (r.outcome == Returned(true) <==> RetrySucceeds(Head(s.nrcs)))
      && (r.outcome == Returned(false) <==> RetryFails(Head(s.nrcs)))
  {
    var t := Nrc(s, TransferData(counter, block));
    assert SendBlockFrom(t.script, counter, block, 2) == After(Returned(false), t.script);
  }

  /** Each block gets at most two TransferData calls with the same counter
      and data; it succeeds on 0x00 at once or, after a failed first
      attempt, on 0x00 or 0x73; two failures give `false`; any other
      exception passes through. */
  lemma BlockRetry(s: Script, counter: byte, block: seq<byte>)
    ensures var first := Head(s.nrcs);
      var second := Head(Tail(s.nrcs));
      var r := SendBlock(s, counter, block);
      var tx := TransferData(counter, block);
      (r.outcome == Returned(true) <==> first == Returned(0x00) || (FirstFails(first) && RetrySucceeds(second)))
      && (r.outcome == Returned(false) <==> FirstFails(first) && RetryFails(second))
      && r.script.log == s.log + (if FirstFails(first) then [tx, tx] else [tx])
  {
    BlockRetryLog(s, counter, block);
    BlockRetryOutcome(s, counter, block);
  }

  /** The calls the block loop makes from block `i` on: block after block,
      each sent once or twice as TransferData with counter (i + 1) mod 256
      and the block's bytes. */
  predicate BlockRun(calls: seq<Call>, data: seq<byte>, blockSize: nat, i: nat)
    requires blockSize > 0
    decreases |calls|
  {
    |calls| == 0
    || (i < TotalBlocks(|data|, blockSize)
        && (BlockStartsInside(|data|, blockSize, i);
            calls[0] == TransferData(Counter(i), BlockAt(data, i, blockSize)))
        && (BlockRun(calls[1..], data, blockSize, i + 1)
            || (|calls| >= 2 && calls[1] == calls[0] && BlockRun(calls[2..], data, blockSize, i + 1))))
  }

  lemma BlockRunCons(sent: seq<Call>, rest: seq<Call>, data: seq<byte>, blockSize: nat, i: nat)
    requires blockSize > 0 && i < TotalBlocks(|data|, blockSize) && i * blockSize < |data|
    requires var tx := TransferData(Counter(i), BlockAt(data, i, blockSize));
      sent == [tx] || sent == [tx, tx]
    requires BlockRun(rest, data, blockSize, i + 1)
    ensures BlockRun(sent + rest, data, blockSize, i)
  {
    var calls := sent + rest;
    if |sent| == 1 {
      assert calls[1..] == rest;
    } else {
      assert calls[2..] == rest;
    }
  }

  lemma {:induction false} BlocksLog(s: Script, data: seq<byte>, blockSize: nat, i: nat)
    requires blockSize > 0
    ensures var r := SendBlocksFrom(s, data, blockSize, i);
      s.log <= r.script.log && BlockRun(r.script.log[|s.log|..], data, blockSize, i)
    decreases TotalBlocks(|data|, blockSize) - i
  {
    var r := SendBlocksFrom(s, data, blockSize, i);
    if i >= TotalBlocks(|data|, blockSize) {
      assert r.script.log[|s.log|..] == [];
    } else {
      SendBlocksStep(s, data, blockSize, i);
      var block := BlockAt(data, i, blockSize);
      var b := SendBlock(s, Counter(i), block);
      var sent := Tries(s, Counter(i), block);
      BlockRetryLog(s, Counter(i), block);
      var rest: seq<Call> := [];
      if b.outcome == Returned(true) {
        BlocksLog(b.script, data, blockSize, i + 1);
        rest := r.script.log[|b.script.log|..];
      }
      LogSplit(s.log, sent, b.script.log, r.script.log);
      BlockRunCons(sent, rest, data, blockSize, i);
    }
  }

  lemma LogSplit(log: seq<Call>, sent: seq<Call>, mid: seq<Call>, whole: seq<Call>)
    requires mid == log + sent && mid <= whole
    ensures log <= whole && whole[|log|..] == sent + whole[|mid|..]
  {
    assert whole == mid + whole[|mid|..];
  }

  /** The calls one segment makes once RequestDownload granted a block
      size: the block run from block 0, so that the counter starts again
      at 1 for every segment, then RequestTransferExit when every block
      went through. */
  predicate SegmentRun(calls: seq<Call>, data: seq<byte>, blockSize: nat)
    requires blockSize > 0
  {
    BlockRun(calls, data, blockSize, 0)
    || (|calls| >= 1 && calls[|calls| - 1] == RequestTransferExit
        && BlockRun(calls[..|calls| - 1], data, blockSize, 0))
  }

  /** A segment once RequestDownload granted more than 2 bytes: the block
      loop, then RequestTransferExit if every block went through. */
  lemma SegmentUnfold(s: Script, seg: IntelHex.Segment)
    requires Head(s.windows).Returned? && Head(s.windows).value > 2
    ensures var data := Pad(seg.data);
      var d := Window(s, RequestDownload(seg.start, |data|));
      var t := SendBlocksFrom(d.script, data, Head(s.windows).value - 2, 0);
      d.script.log == s.log + [RequestDownload(seg.start, |data|)]
      && SendSegment(s, seg) == if t.outcome != Returned(true) then t else Flag(t.script, RequestTransferExit)
  {
  }

  lemma ExitAppended(t: After<bool>, base: seq<Call>, data: seq<byte>, blockSize: nat)
    requires blockSize > 0
    requires base <= t.script.log && BlockRun(t.script.log[|base|..], data, blockSize, 0)
    ensures var r := if t.outcome != Returned(true) then t else Flag(t.script, RequestTransferExit);
      base <= r.script.log && SegmentRun(r.script.log[|base|..], data, blockSize)
  {
    var run := t.script.log[|base|..];
    if t.outcome == Returned(true) {
      var calls := (t.script.log + [RequestTransferExit])[|base|..];
      assert calls == run + [RequestTransferExit];
      assert calls[..|calls| - 1] == run;
    }
  }

  /** A segment whose RequestDownload grants more than 2 bytes: the
      download request for the padded length, then the segment's run. */
  lemma SegmentLog(s: Script, seg: IntelHex.Segment)
    requires Head(s.windows).Returned? && Head(s.windows).value > 2
    ensures var data := Pad(seg.data);
      var r := SendSegment(s, seg);
      s.log + [RequestDownload(seg.start, |data|)] <= r.script.log
      && SegmentRun(r.script.log[|s.log| + 1..], data, Head(s.windows).value - 2)
  {
    var data := Pad(seg.data);
    var d := Window(s, RequestDownload(seg.start, |data|));
    SegmentUnfold(s, seg);
    BlocksLog(d.script, data, Head(s.windows).value - 2, 0);
    ExitAppended(SendBlocksFrom(d.script, data, Head(s.windows).value - 2, 0), d.script.log, data, Head(s.windows).value - 2);
  }

  /** A RequestDownload answered with 0 fails the file at once: that
      request is the only call made. */
  lemma DownloadRefusedFailsFile(s: Script, lines: seq<string>)
    requires IntelHex.ParseSpec(lines).Ok? && |IntelHex.ParseSpec(lines).value| > 0
    requires Head(s.windows) == Returned(0)
    ensures var seg := IntelHex.ParseSpec(lines).value[0];
      var r := FlashHexFile(s, lines);
      r.outcome == Returned(false)
      && r.script == s.(windows := s.windows[1..], log := s.log + [RequestDownload(seg.start, |Pad(seg.data)|)])
  {
  }

  // ---------------------------------------------------------------------
  // One file
  // ---------------------------------------------------------------------

  function Repeat(c: Call, n: nat): (cs: seq<Call>)
    ensures |cs| == n && forall j :: 0 <= j < n ==> cs[j] == c
  {
    seq(n, _ => c)
  }

  lemma LogRepeat(log: seq<Call>, c: Call, n: nat)
    requires n > 0
    ensures log + [c] + Repeat(c, n - 1) == log + Repeat(c, n)
  {
  }

  /** A plain `false` is not counted: after `n` refused downloads, for any
      `n`, the file loop is still at its first attempt, with no session or
      security renewal in between. */
  lemma {:induction false} RefusalsAreNotCounted(s: Script, lines: seq<string>, key1: Security.Block,
                                                 decrypt: Security.Decryptor, n: nat)
    requires IntelHex.ParseSpec(lines).Ok? && |IntelHex.ParseSpec(lines).value| > 0
    requires n <= |s.windows| && forall j :: 0 <= j < n ==> s.windows[j] == Returned(0)
    ensures var seg := IntelHex.ParseSpec(lines).value[0];
      var rd := RequestDownload(seg.start, |Pad(seg.data)|);
      FlashFile(s, lines, key1, decrypt)
      == FlashFile(s.(windows := s.windows[n..], log := s.log + Repeat(rd, n)), lines, key1, decrypt)
    decreases n
  {
    var seg := IntelHex.ParseSpec(lines).value[0];
    var rd := RequestDownload(seg.start, |Pad(seg.data)|);
    if n == 0 {
      assert s.windows[0..] == s.windows && s.log + Repeat(rd, 0) == s.log;
    } else {
      var s' := s.(windows := s.windows[1..], log := s.log + [rd]);
      DownloadRefusedFailsFile(s, lines);
      FileAttemptsStep(s, lines, key1, decrypt, 0);
      assert FlashFile(s, lines, key1, decrypt) == FlashFile(s', lines, key1, decrypt);
      RefusalsAreNotCounted(s', lines, key1, decrypt, n - 1);
      assert s'.windows[n - 1..] == s.windows[n..];
      LogRepeat(s.log, rd, n);
    }
  }

  lemma AppendThree(log: seq<Call>, a: Call, b: Call, c: Call)
    ensures log + [a] + [b] + [c] == log + [a, b, c]
  {
  }

  /** An ECU that answers nothing: three attempts, each one an exception;
      the first is the download request alone, the two retries renew the
      session first, which times out. */
  lemma SilentEcuGivesUp(s: Script, lines: seq<string>, key1: Security.Block, decrypt: Security.Decryptor)
    requires Pending(s) == 0
    requires IntelHex.ParseSpec(lines).Ok? && |IntelHex.ParseSpec(lines).value| > 0
    ensures var seg := IntelHex.ParseSpec(lines).value[0];
      var cs := ChangeSession(UdsService.ExtendedSession);
      FlashFile(s, lines, key1, decrypt)
      == Verdict(false, s.(log := s.log + [RequestDownload(seg.start, |Pad(seg.data)|), cs, cs]))
  {
    var seg := IntelHex.ParseSpec(lines).value[0];
    var cs := ChangeSession(UdsService.ExtendedSession);
    var s1 := s.(log := s.log + [RequestDownload(seg.start, |Pad(seg.data)|)]);
    var s2 := s1.(log := s1.log + [cs]);
    var s3 := s2.(log := s2.log + [cs]);
    FileAttemptsStep(s, lines, key1, decrypt, 0);
    assert Attempt(s, lines, key1, decrypt, 0) == After(Threw(Timeout), s1);
    FileAttemptsStep(s1, lines, key1, decrypt, 1);
    assert Attempt(s1, lines, key1, decrypt, 1) == After(Threw(Timeout), s2);
    FileAttemptsStep(s2, lines, key1, decrypt, 2);
    assert Attempt(s2, lines, key1, decrypt, 2) == After(Threw(Timeout), s3);
    AppendThree(s.log, RequestDownload(seg.start, |Pad(seg.data)|), cs, cs);
  }

  /** Before a retry, session and security are renewed but their answers
      are ignored: a refused session or a rejected key does not stop the
      attempt, only an exception does. */
  lemma RenewIgnoresRefusals(s: Script, key1: Security.Block, decrypt: Security.Decryptor)
    requires Head(s.flags).Returned? && Head(s.seeds).Returned?
    requires UsableSeed(Head(s.seeds).value) ==> Head(Tail(s.flags)).Returned?
    ensures Reauthenticate(s, key1, decrypt).outcome == Returned(())
  {
    var c := Flag(s, ChangeSession(UdsService.ExtendedSession));
    assert Head(c.script.flags) == Head(Tail(s.flags));
  }

  // ---------------------------------------------------------------------
  // The sequence
  // ---------------------------------------------------------------------

  const Woken: seq<Outcome<()>> := [Returned(()), Returned(()), Returned(())]
  const WakeupCalls: seq<Call> := [TesterPresent(true), TesterPresent(true), TesterPresent(true)]

  lemma WakeupDone(s: Script)
    requires |s.acks| >= 3 && s.acks[..3] == Woken
    ensures Wakeup(s, 3) == After(Returned(()), s.(acks := s.acks[3..], log := s.log + WakeupCalls))
  {
    var t1 := Ack(s, TesterPresent(true));
    var t2 := Ack(t1.script, TesterPresent(true));
    var t3 := Ack(t2.script, TesterPresent(true));
    assert t1.outcome == Returned(()) && t2.outcome == Returned(()) && t3.outcome == Returned(());
    assert Wakeup(t3.script, 0) == After(Returned(()), t3.script);
    assert t3.script.acks == s.acks[3..];
    assert t3.script.log == s.log + WakeupCalls;
  }

  /** An empty directory fails before any UDS call. */
  lemma EmptyDirectory(s: Script, key1: Security.Block, decrypt: Security.Decryptor)
    ensures FlashSpec(s, [], key1, decrypt) == Verdict(false, s)
  {
    assert SortByPath([]) == [];
  }

  /** A refused Extended session fails the sequence after the wake-up. */
  lemma SessionRefused(s: Script, listing: seq<HexFile>, key1: Security.Block, decrypt: Security.Decryptor)
    requires |listing| > 0 && |s.acks| >= 3 && s.acks[..3] == Woken
    requires |s.flags| > 0 && s.flags[0] == Returned(false)
    ensures FlashSpec(s, listing, key1, decrypt)
      == Verdict(false, s.(acks := s.acks[3..], flags := s.flags[1..],
                           log := s.log + WakeupCalls + [ChangeSession(UdsService.ExtendedSession)]))
  {
    WakeupDone(s);
  }

  /** A null or empty seed fails the sequence before any key is sent. */
  lemma SeedMissing(s: Script, listing: seq<HexFile>, key1: Security.Block, decrypt: Security.Decryptor)
    requires |listing| > 0 && |s.acks| >= 3 && s.acks[..3] == Woken
    requires |s.flags| > 0 && s.flags[0] == Returned(true)
    requires |s.seeds| > 0 && s.seeds[0].Returned? && !UsableSeed(s.seeds[0].value)
    ensures FlashSpec(s, listing, key1, decrypt)
      == Verdict(false, s.(acks := s.acks[3..], flags := s.flags[1..], seeds := s.seeds[1..],
                           log := s.log + WakeupCalls + [ChangeSession(UdsService.ExtendedSession), RequestSeed(1)]))
  {
    WakeupDone(s);
    var w := s.(acks := s.acks[3..], log := s.log + WakeupCalls);
    var c := Flag(w, ChangeSession(UdsService.ExtendedSession));
    var q := Seed(c.script, RequestSeed(1));
    assert q.script == w.(flags := s.flags[1..], seeds := s.seeds[1..],
                          log := w.log + [ChangeSession(UdsService.ExtendedSession)] + [RequestSeed(1)]);
    assert w.log + [ChangeSession(UdsService.ExtendedSession)] + [RequestSeed(1)]
      == s.log + WakeupCalls + [ChangeSession(UdsService.ExtendedSession), RequestSeed(1)];
    assert Unlock(w, key1, decrypt) == After(Returned(false), q.script);
  }

  /** A rejected key fails the sequence; the key sent is the level-1 key
      for the seed received. */
  lemma KeyRejected(s: Script, listing: seq<HexFile>, key1: Security.Block, decrypt: Security.Decryptor)
    requires |listing| > 0 && |s.acks| >= 3 && s.acks[..3] == Woken
    requires |s.flags| >= 2 && s.flags[0] == Returned(true) && s.flags[1] == Returned(false)
    requires Head(s.seeds).Returned? && UsableSeed(Head(s.seeds).value)
    ensures var key := KeyFor(key1, decrypt, Head(s.seeds).value.value);
      FlashSpec(s, listing, key1, decrypt)
      == Verdict(false, s.(acks := s.acks[3..], flags := s.flags[2..], seeds := s.seeds[1..],
                           log := s.log + WakeupCalls
                                  + [ChangeSession(UdsService.ExtendedSession), RequestSeed(1), SendKey(1, key)]))
  {
    WakeupDone(s);
    assert s.flags[1..][1..] == s.flags[2..];
    AppendThree(s.log + WakeupCalls, ChangeSession(UdsService.ExtendedSession), RequestSeed(1),
                SendKey(1, KeyFor(key1, decrypt, Head(s.seeds).value.value)));
  }

  /** The script after files j to k-1 all succeeded in turn, starting from
      `s`; `None` once one of them failed. */
  function FlashedFrom(s: Script, files: seq<HexFile>, j: nat, k: nat, key1: Security.Block, decrypt: Security.Decryptor): Option<Script>
    requires j <= k <= |files|
    decreases k - j
  {
    if j == k then Some(s)
    else
      var f := FlashFile(s, files[j].lines, key1, decrypt);
      if f.ok then FlashedFrom(f.script, files, j + 1, k, key1, decrypt) else None
  }

  lemma {:induction false} FilesRunInOrder(s: Script, files: seq<HexFile>, j: nat, k: nat, key1: Security.Block, decrypt: Security.Decryptor)
    requires j <= k <= |files| && FlashedFrom(s, files, j, k, key1, decrypt).Some?
    ensures FlashFilesFrom(s, files, j, key1, decrypt)
      == FlashFilesFrom(FlashedFrom(s, files, j, k, key1, decrypt).value, files, k, key1, decrypt)
    decreases k - j
  {
    if j < k {
      var f := FlashFile(s, files[j].lines, key1, decrypt);
      FilesRunInOrder(f.script, files, j + 1, k, key1, decrypt);
    }
  }

  /** Files are flashed in order, and the first one that fails ends the
      loop with `false`: the script is the one that file left, so no later
      file is touched. */
  lemma StopsAtFirstFailure(t: Script, files: seq<HexFile>, k: nat, key1: Security.Block, decrypt: Security.Decryptor)
    requires k < |files| && FlashedFrom(t, files, 0, k, key1, decrypt).Some?
    requires !FlashFile(FlashedFrom(t, files, 0, k, key1, decrypt).value, files[k].lines, key1, decrypt).ok
    ensures FlashFilesFrom(t, files, 0, key1, decrypt)
      == FlashFile(FlashedFrom(t, files, 0, k, key1, decrypt).value, files[k].lines, key1, decrypt)
  {
    FilesRunInOrder(t, files, 0, k, key1, decrypt);
  }

  /** The ECU reset is requested once exactly when the wake-up, session,
      security and every file succeeded, and never otherwise; its outcome
      is ignored unless it throws. `true` needs all of it. */
  lemma ResetOnlyAfterEveryFile(s: Script, listing: seq<HexFile>, key1: Security.Block, decrypt: Security.Decryptor)
    ensures var v := FlashSpec(s, listing, key1, decrypt);
      var files := SortByPath(listing);
      var p := Prepare(s, key1, decrypt);
      var reached := |files| > 0 && p.outcome == Returned(true)
                     && FlashFilesFrom(p.script, files, 0, key1, decrypt).ok;
      Resets(v.script.log) == Resets(s.log) + (if reached then 1 else 0)
      && (v.ok <==> reached && Head(FlashFilesFrom(p.script, files, 0, key1, decrypt).script.acks).Returned?)
  {
  }
}
