/** `FlashManager`: flashes every Intel HEX file of a directory into an
    ECU over UDS. After a wake-up, the Extended session, SecurityAccess and
    the disabling of DTC setting and communication, each file is parsed
    into segments; each segment is padded to a multiple of 128 bytes with
    0xCC, announced with RequestDownload, sent in TransferData blocks of
    the ECU's maximum block length less two, and closed with
    RequestTransferExit. A block is tried at most twice; a file is tried
    again (after renewing session and security) when an exception escapes
    it, at most three times. An ECU reset ends a successful sequence.

    The functions below state that behaviour over a `Script` of ECU
    answers; the `FlashManager` class carries it out step by step and is
    proved to agree with them. */
module Flashing {
  import opened Bits
  import opened Wrappers
  import opened FlashScript
  import IntelHex
  import Security
  import AppConfig
  import HexText
  import UdsService

  const BlockAlign: nat := 128
  const PadByte: byte := 0xCC

  /** `UdsConstants.DtcSettingOff`. */
  const DtcSettingOff: byte := 0x02
  /** `UdsConstants.DisableRxAndTx`. */
  const DisableRxAndTx: byte := 0x03
  /** `UdsConstants.NetworkManagementAndNormalCommunicationMessages`. */
  const NetworkManagementAndNormal: byte := 0x03
  /** `UdsConstants.SoftReset`. */
  const SoftReset: byte := 0x03

  /** The bounds of the two retry loops. */
  const FileAttempts: nat := 3
  const BlockAttempts: nat := 2

  /** One `*.hex` file of the directory: its path and its lines. */
  datatype HexFile = HexFile(path: string, lines: seq<string>)

  /** The end of a loop that handles every exception itself. */
  datatype Verdict = Verdict(ok: bool, script: Script)

  // ---------------------------------------------------------------------
  // The file list: `Directory.GetFiles(...).OrderBy(f => f)`
  // ---------------------------------------------------------------------

  /** `a` sorts at or before `b`, comparing character codes. */
  predicate NoLater(a: string, b: string)
    decreases |a|
  {
    |a| == 0 || (|b| > 0 && (a[0] < b[0] || (a[0] == b[0] && NoLater(a[1..], b[1..]))))
  }

  lemma {:induction false} NoLaterTotal(a: string, b: string)
    ensures NoLater(a, b) || NoLater(b, a)
    decreases |a|
  {
    if |a| > 0 && |b| > 0 && a[0] == b[0] {
      NoLaterTotal(a[1..], b[1..]);
    }
  }

  predicate SortedByPath(fs: seq<HexFile>)
  {
    forall i :: 0 < i < |fs| ==> NoLater(fs[i - 1].path, fs[i].path)
  }

  /** `f` placed before the first file it does not sort after. */
  function Insert(f: HexFile, fs: seq<HexFile>): (r: seq<HexFile>)
    ensures |r| == |fs| + 1 && multiset(r) == multiset(fs) + multiset{f}
    ensures r[0] == f || (|fs| > 0 && r[0] == fs[0])
    ensures SortedByPath(fs) ==> SortedByPath(r)
  {
    if |fs| == 0 || NoLater(f.path, fs[0].path) then [f] + fs
    else
      NoLaterTotal(f.path, fs[0].path);
      assert fs == [fs[0]] + fs[1..];
      var rest := Insert(f, fs[1..]);
      SortedCons(fs[0], rest);
      [fs[0]] + rest
  }

  /** A file that sorts no later than the head of a sorted list extends it. */
  lemma SortedCons(f: HexFile, fs: seq<HexFile>)
    ensures SortedByPath(fs) && (|fs| == 0 || NoLater(f.path, fs[0].path)) ==> SortedByPath([f] + fs)
  {
    if SortedByPath(fs) && (|fs| == 0 || NoLater(f.path, fs[0].path)) {
      var r := [f] + fs;
      forall i | 0 < i < |r|
        ensures NoLater(r[i - 1].path, r[i].path)
      {
        if i > 1 {
          assert r[i - 1] == fs[i - 2] && r[i] == fs[i - 1];
        }
      }
    }
  }

  /** `OrderBy(f => f)`: a stable sort by path. */
  function SortByPath(fs: seq<HexFile>): (r: seq<HexFile>)
    ensures SortedByPath(r)
    ensures |r| == |fs| && multiset(r) == multiset(fs)
  {
    if |fs| == 0 then []
    else
      assert fs == [fs[0]] + fs[1..];
      Insert(fs[0], SortByPath(fs[1..]))
  }

  // ---------------------------------------------------------------------
  // Padding and blocks
  // ---------------------------------------------------------------------

  /** The segment data extended to the next multiple of 128 bytes with
      0xCC; data already aligned is left as it is. */
  function Pad(data: seq<byte>): (padded: seq<byte>)
    ensures |padded| % BlockAlign == 0
    ensures |data| <= |padded| < |data| + BlockAlign
    ensures padded[..|data|] == data
    ensures forall i :: |data| <= i < |padded| ==> padded[i] == PadByte
    ensures |data| % BlockAlign == 0 ==> padded == data
  {
    if |data| % BlockAlign != 0 then
      var padLen := BlockAlign - |data| % BlockAlign;
      DivModUnique(|data| + padLen, BlockAlign, |data| / BlockAlign + 1, 0);
      data + Fill(PadByte, padLen)
    else data
  }

  function Abs(x: int): nat
  {
    if x < 0 then -x else x
  }

  /** C#'s `/` on `int`: the quotient rounded toward zero. */
  function TruncDiv(a: int, b: int): int
    requires b != 0
  {
    if (a < 0) == (b < 0) then Abs(a) / Abs(b) else -(Abs(a) / Abs(b))
  }

  /** `(data.Length + blockSize - 1) / blockSize`. */
  function TotalBlocks(len: nat, blockSize: int): int
    requires blockSize != 0
  {
    TruncDiv(len + blockSize - 1, blockSize)
  }

  function Min(a: int, b: int): int
  {
    if a < b then a else b
  }

  /** For a positive block size the count is the ceiling of len / blockSize:
      enough blocks to cover the data, and no block that starts past it. */
  lemma TotalBlocksIsCeiling(len: nat, blockSize: nat)
    requires blockSize > 0
    ensures var t := TotalBlocks(len, blockSize);
      t >= 0 && t * blockSize >= len && t * blockSize < len + blockSize
  {
    var a := len + blockSize - 1;
    var t := a / blockSize;
    assert TotalBlocks(len, blockSize) == t;
    assert a == t * blockSize + a % blockSize;
  }

  lemma BlockStartsInside(len: nat, blockSize: nat, i: nat)
    requires blockSize > 0 && i < TotalBlocks(len, blockSize)
    ensures i * blockSize < len
  {
    TotalBlocksIsCeiling(len, blockSize);
    var t := TotalBlocks(len, blockSize);
    MulLe(i, t - 1, blockSize);
    assert (t - 1) * blockSize == t * blockSize - blockSize;
  }

  lemma MulLe(a: nat, b: nat, c: nat)
    requires a <= b
    ensures a * c <= b * c
  {
  }

  /** Block `i`: `data[i * blockSize ..]`, at most `blockSize` bytes. */
  function BlockAt(data: seq<byte>, i: nat, blockSize: nat): (block: seq<byte>)
    requires blockSize > 0 && i * blockSize < |data|
    ensures 0 < |block| <= blockSize
  {
    var offset := i * blockSize;
    data[offset .. offset + Min(blockSize, |data| - offset)]
  }

  /** The block sequence counter: `(byte)((i + 1) % 256)`. */
  function Counter(i: nat): byte
  {
    (i + 1) % 256
  }

  // ---------------------------------------------------------------------
  // One block: the `blockRetry` loop
  // ---------------------------------------------------------------------

  /** The exceptions the block loop catches: timeouts, cancellations, and
      any exception whose message mentions "NRC". */
  predicate Caught(f: Fault)
  {
    f.Timeout? || f.Cancelled? || (f.Other? && f.mentionsNrc)
  }

  /** The rest of the block loop once `attempt` attempts have failed:
      0x00 succeeds, 0x73 succeeds on a retry, any other code throws an
      "NRC ..." exception that is caught, and two failures end the loop
      with `false`. */
  function SendBlockFrom(s: Script, counter: byte, block: seq<byte>, attempt: nat): (r: After<bool>)
    ensures Spent(s, r.script)
    decreases BlockAttempts - attempt
  {
    if attempt >= BlockAttempts then After(Returned(false), s)
    else
      var t := Nrc(s, TransferData(counter, block));
      match t.outcome
      case Returned(code) =>
        if code == 0x00 || (code == 0x73 && attempt > 0) then After(Returned(true), t.script)
        else SendBlockFrom(t.script, counter, block, attempt + 1)
      case Threw(f) =>
        if Caught(f) then SendBlockFrom(t.script, counter, block, attempt + 1)
        else After(Threw(f), t.script)
  }

  function SendBlock(s: Script, counter: byte, block: seq<byte>): After<bool>
  {
    SendBlockFrom(s, counter, block, 0)
  }

  // ---------------------------------------------------------------------
  // One segment, one file
  // ---------------------------------------------------------------------

  /** Blocks `i` and on, until one fails or throws. */
  function SendBlocksFrom(s: Script, data: seq<byte>, blockSize: nat, i: nat): (r: After<bool>)
    requires blockSize > 0
    ensures Spent(s, r.script)
    decreases TotalBlocks(|data|, blockSize) - i
  {
    if i >= TotalBlocks(|data|, blockSize) then After(Returned(true), s)
    else
      BlockStartsInside(|data|, blockSize, i);
      var b := SendBlock(s, Counter(i), BlockAt(data, i, blockSize));
      if b.outcome != Returned(true) then b
      else SendBlocksFrom(b.script, data, blockSize, i + 1)
  }

  /** One turn of the block loop. */
  lemma SendBlocksStep(s: Script, data: seq<byte>, blockSize: nat, i: nat)
    requires blockSize > 0 && i < TotalBlocks(|data|, blockSize)
    ensures 0 <= i * blockSize < |data|
    ensures var b := SendBlock(s, Counter(i), BlockAt(data, i, blockSize));
      SendBlocksFrom(s, data, blockSize, i)
      == if b.outcome != Returned(true) then b else SendBlocksFrom(b.script, data, blockSize, i + 1)
  {
    BlockStartsInside(|data|, blockSize, i);
    MulLe(0, i, blockSize);
  }

  /** The transfer after RequestDownload granted `maxBlockLen`: with a
      block size of 0 the block count divides by zero; with a negative one
      (`maxBlockLen` 1) the count is 2 - len, so no block is sent unless the
      data is shorter than 2 bytes, whose first block has a negative
      length. */
  function Transfer(s: Script, data: seq<byte>, maxBlockLen: Word16): (r: After<bool>)
    ensures Spent(s, r.script)
  {
    var blockSize := maxBlockLen - 2;
    if blockSize == 0 then After(Threw(DivideByZero), s)
    else if blockSize < 0 then
      if TotalBlocks(|data|, blockSize) > 0 then After(Threw(Overflow), s)
      else After(Returned(true), s)
    else SendBlocksFrom(s, data, blockSize, 0)
  }

  /** One segment: pad, RequestDownload, the blocks, RequestTransferExit. */
  function SendSegment(s: Script, seg: IntelHex.Segment): (r: After<bool>)
    ensures Spent(s, r.script)
    ensures r.outcome == Returned(false) ==> Pending(r.script) < Pending(s)
  {
    var data := Pad(seg.data);
    var d := Window(s, RequestDownload(seg.start, |data|));
    match d.outcome
    case Threw(f) => After(Threw(f), d.script)
    case Returned(maxBlockLen) =>
      if maxBlockLen == 0 then After(Returned(false), d.script)
      else
        var t := Transfer(d.script, data, maxBlockLen);
        if t.outcome != Returned(true) then t
        else Flag(t.script, RequestTransferExit)
  }

  /** Segments `k` and on, until one fails or throws. */
  function SendSegmentsFrom(s: Script, segs: seq<IntelHex.Segment>, k: nat): (r: After<bool>)
    requires k <= |segs|
    ensures Spent(s, r.script)
    ensures r.outcome == Returned(false) ==> Pending(r.script) < Pending(s)
    decreases |segs| - k
  {
    if k == |segs| then After(Returned(true), s)
    else
      var g := SendSegment(s, segs[k]);
      if g.outcome != Returned(true) then g
      else SendSegmentsFrom(g.script, segs, k + 1)
  }

  /** `FlashHexFileAsync`: parse the file, then every segment in order. */
  function FlashHexFile(s: Script, lines: seq<string>): (r: After<bool>)
    ensures Spent(s, r.script)
    ensures r.outcome == Returned(false) ==> Pending(r.script) < Pending(s)
  {
    var segs := IntelHex.ParseSpec(lines);
    if segs.Err? then After(Threw(BadHexFile), s)
    else SendSegmentsFrom(s, segs.value, 0)
  }

  // ---------------------------------------------------------------------
  // Session and security
  // ---------------------------------------------------------------------

  /** `_security.GenerateKey(seed, 1)` with a 16-byte level-1 key. */
  function KeyFor(key1: Security.Block, decrypt: Security.Decryptor, seed: seq<byte>): Security.Block
  {
    decrypt(key1, Security.NormaliseSeed(seed))
  }

  /** A seed the sequence can use: not null and not empty. */
  predicate UsableSeed(seed: Option<seq<byte>>)
  {
    seed.Some? && |seed.value| > 0
  }

  /** The retry preamble: Extended session, seed, and the key when a seed
      came; every result is ignored, only exceptions pass through. */
  function Reauthenticate(s: Script, key1: Security.Block, decrypt: Security.Decryptor): (r: After<()>)
    ensures Spent(s, r.script)
  {
    var c := Flag(s, ChangeSession(UdsService.ExtendedSession));
    if c.outcome.Threw? then After(Threw(c.outcome.fault), c.script)
    else
      var q := Seed(c.script, RequestSeed(1));
      match q.outcome
      case Threw(f) => After(Threw(f), q.script)
      case Returned(seed) =>
        if UsableSeed(seed) then
          var k := Flag(q.script, SendKey(1, KeyFor(key1, decrypt, seed.value)));
          if k.outcome.Threw? then After(Threw(k.outcome.fault), k.script)
          else After(Returned(()), k.script)
        else After(Returned(()), q.script)
  }

  /** One pass of the file loop's `try` block. */
  function Attempt(s: Script, lines: seq<string>, key1: Security.Block, decrypt: Security.Decryptor, retry: nat): (r: After<bool>)
    ensures Spent(s, r.script)
    ensures r.outcome == Returned(false) ==> Pending(r.script) < Pending(s)
  {
    if retry > 0 then
      var a := Reauthenticate(s, key1, decrypt);
      if a.outcome.Threw? then After(Threw(a.outcome.fault), a.script)
      else FlashHexFile(a.script, lines)
    else FlashHexFile(s, lines)
  }

  /** The rest of the file loop at `retryCount` = `retry`: an exception
      counts an attempt, a plain `false` does not. */
  function FileAttemptsFrom(s: Script, lines: seq<string>, key1: Security.Block, decrypt: Security.Decryptor, retry: nat): (v: Verdict)
    ensures Spent(s, v.script)
    decreases FileAttempts - retry, Pending(s)
  {
    if retry >= FileAttempts then Verdict(false, s)
    else
      var a := Attempt(s, lines, key1, decrypt, retry);
      match a.outcome
      case Threw(_) => FileAttemptsFrom(a.script, lines, key1, decrypt, retry + 1)
      case Returned(ok) =>
        if ok then Verdict(true, a.script)
        else FileAttemptsFrom(a.script, lines, key1, decrypt, retry)
  }

  /** One turn of the file loop. */
  lemma FileAttemptsStep(s: Script, lines: seq<string>, key1: Security.Block, decrypt: Security.Decryptor, retry: nat)
    requires retry < FileAttempts
    ensures var a := Attempt(s, lines, key1, decrypt, retry);
      (a.outcome == Returned(false) ==> Pending(a.script) < Pending(s))
      && FileAttemptsFrom(s, lines, key1, decrypt, retry)
         == match a.outcome
            case Threw(_) => FileAttemptsFrom(a.script, lines, key1, decrypt, retry + 1)
            case Returned(ok) =>
              if ok then Verdict(true, a.script) else FileAttemptsFrom(a.script, lines, key1, decrypt, retry)
  {
  }

  function FlashFile(s: Script, lines: seq<string>, key1: Security.Block, decrypt: Security.Decryptor): Verdict
  {
    FileAttemptsFrom(s, lines, key1, decrypt, 0)
  }

  // ---------------------------------------------------------------------
  // The whole sequence
  // ---------------------------------------------------------------------

  /** `n` TesterPresent calls. */
  function Wakeup(s: Script, n: nat): (r: After<()>)
    ensures Spent(s, r.script)
    decreases n
  {
    if n == 0 then After(Returned(()), s)
    else
      var t := Ack(s, TesterPresent(true));
      if t.outcome.Threw? then t else Wakeup(t.script, n - 1)
  }

  /** Steps 0 to 4: wake-up, Extended session, SecurityAccess level 1, DTC
      setting off, communication off. `Returned(false)` is a refusal. */
  function Prepare(s: Script, key1: Security.Block, decrypt: Security.Decryptor): (r: After<bool>)
    ensures Spent(s, r.script)
  {
    var w := Wakeup(s, 3);
    if w.outcome.Threw? then After(Threw(w.outcome.fault), w.script)
    else
      var u := Unlock(w.script, key1, decrypt);
      SpentTrans(s, w.script, u.script);
      if u.outcome != Returned(true) then u
      else
        var t := Silence(u.script);
        SpentTrans(s, u.script, t.script);
        t
  }

  /** Steps 1 and 2: the Extended session, then the seed and the key of
      SecurityAccess level 1. */
  function Unlock(s: Script, key1: Security.Block, decrypt: Security.Decryptor): (r: After<bool>)
    ensures Spent(s, r.script)
  {
    var c := Flag(s, ChangeSession(UdsService.ExtendedSession));
    if c.outcome != Returned(true) then c
    else
      var q := Seed(c.script, RequestSeed(1));
      match q.outcome
      case Threw(f) => After(Threw(f), q.script)
      case Returned(seed) =>
        if !UsableSeed(seed) then After(Returned(false), q.script)
        else Flag(q.script, SendKey(1, KeyFor(key1, decrypt, seed.value)))
  }

  /** Steps 3 and 4: DTC setting off, then communication off. */
  function Silence(s: Script): (r: After<bool>)
    ensures Spent(s, r.script)
  {
    var d := Ack(s, ControlDtcSetting(DtcSettingOff));
    if d.outcome.Threw? then After(Threw(d.outcome.fault), d.script)
    else
      var m := Ack(d.script, CommunicationControl(DisableRxAndTx, NetworkManagementAndNormal));
      if m.outcome.Threw? then After(Threw(m.outcome.fault), m.script)
      else After(Returned(true), m.script)
  }

  /** Files `k` and on, until one fails. */
  function FlashFilesFrom(s: Script, files: seq<HexFile>, k: nat, key1: Security.Block, decrypt: Security.Decryptor): (v: Verdict)
    requires k <= |files|
    ensures Spent(s, v.script)
    decreases |files| - k
  {
    if k == |files| then Verdict(true, s)
    else
      var f := FlashFile(s, files[k].lines, key1, decrypt);
      if !f.ok then f
      else FlashFilesFrom(f.script, files, k + 1, key1, decrypt)
  }

  /** `FlashAsync`: false for an empty directory, a refusal or an exception
      in steps 0 to 4, or a file that does not succeed; otherwise the ECU
      reset is sent and its outcome ignored, even an exception thrown by
      it turns the result into `false`. */
  function FlashSpec(s: Script, listing: seq<HexFile>, key1: Security.Block, decrypt: Security.Decryptor): (v: Verdict)
    ensures s.log <= v.script.log && Pending(v.script) <= Pending(s)
    ensures v.ok ==> |v.script.log| > 0 && v.script.log[|v.script.log| - 1] == EcuReset(SoftReset)
  {
    var files := SortByPath(listing);
    if |files| == 0 then Verdict(false, s)
    else
      var p := Prepare(s, key1, decrypt);
      if p.outcome != Returned(true) then Verdict(false, p.script)
      else
        var v := FilesThenReset(p.script, files, key1, decrypt);
        PrefixTrans(s.log, p.script.log, v.script.log);
        v
  }

  /** Steps 5 and 6: every file in order, then the ECU reset when all of
      them succeeded. */
  function FilesThenReset(s: Script, files: seq<HexFile>, key1: Security.Block, decrypt: Security.Decryptor): (v: Verdict)
    ensures s.log <= v.script.log && Pending(v.script) <= Pending(s)
    ensures v.ok ==> |v.script.log| > 0 && v.script.log[|v.script.log| - 1] == EcuReset(SoftReset)
  {
    var f := FlashFilesFrom(s, files, 0, key1, decrypt);
    if !f.ok then f
    else
      var e := Reset(f.script);
      PrefixSnoc(s.log, f.script.log, EcuReset(SoftReset));
      e
  }

  lemma PrefixTrans(a: seq<Call>, b: seq<Call>, c: seq<Call>)
    requires a <= b && b <= c
    ensures a <= c
  {
    assert c[..|a|] == c[..|b|][..|a|];
  }

  lemma PrefixSnoc(a: seq<Call>, b: seq<Call>, c: Call)
    requires a <= b
    ensures a <= b + [c]
  {
    assert (b + [c])[..|a|] == b[..|a|];
  }

  /** Step 6: the ECU reset, whose result is ignored; only an exception
      turns the verdict into `false`. */
  function Reset(s: Script): (v: Verdict)
    ensures v.script.log == s.log + [EcuReset(SoftReset)] && Pending(v.script) <= Pending(s)
  {
    var e := Ack(s, EcuReset(SoftReset));
    Verdict(e.outcome.Returned?, e.script)
  }

  /** The keys the constructor installs: a configured level replaces the
      default key, a level missing from the table keeps it, and a malformed
      entry makes `GetAesKey` throw. */
  function ConfiguredKey(aes: map<string, seq<string>>, level: int, default: seq<byte>): (r: Result<seq<byte>, HexText.ParseError>)
    ensures r.Ok? && HexText.Decimal(level) in aes ==> |r.value| == 16
    ensures HexText.Decimal(level) !in aes ==> r == Ok(default)
  {
    var name := HexText.Decimal(level);
    if name !in aes then Ok(default) else AppConfig.AesKeySpec(aes[name])
  }

  // ---------------------------------------------------------------------
  // The class
  // ---------------------------------------------------------------------

  class FlashManager {
    const uds: ScriptedUds
    const security: Security.SecurityAlgorithm

    /** Both keys are AES-128 keys: the defaults are, and `GetAesKey`
        only returns 16-byte keys. */
    predicate Valid()
      reads security
    {
      |security.aesKeyLevel1| == 16 && |security.aesKeyLevel2| == 16
    }

    function Key1(): Security.Block
      reads security
      requires Valid()
    {
      security.aesKeyLevel1
    }

    constructor WithKeys(uds: ScriptedUds, key1: seq<byte>, key2: seq<byte>)
      ensures this.uds == uds && fresh(security)
      ensures security.aesKeyLevel1 == key1 && security.aesKeyLevel2 == key2
    {
      this.uds := uds;
      var sec := new Security.SecurityAlgorithm();
      sec.SetKeys(key1, key2);
      security := sec;
    }

    /** `new FlashManager(uds, config)`: the keys of levels 1 and 2 come
        from the configuration when it has them; a malformed key makes the
        constructor throw. */
    static method Create(uds: ScriptedUds, config: Option<AppConfig.FlashConfig>) returns (r: Result<FlashManager, HexText.ParseError>)
      ensures config.None? ==>
        r.Ok? && r.value.security.aesKeyLevel1 == Security.DefaultKeyLevel1
        && r.value.security.aesKeyLevel2 == Security.DefaultKeyLevel2
      ensures config.Some? ==>
        var k1 := ConfiguredKey(config.value.aes, 1, Security.DefaultKeyLevel1);
        var k2 := ConfiguredKey(config.value.aes, 2, Security.DefaultKeyLevel2);
        (r.Ok? <==> k1.Ok? && k2.Ok?)
        && (r.Ok? ==> r.value.security.aesKeyLevel1 == k1.value && r.value.security.aesKeyLevel2 == k2.value)
      ensures r.Ok? ==> r.value.uds == uds && fresh(r.value.security) && r.value.Valid()
    {
      var key1, key2 := Security.DefaultKeyLevel1, Security.DefaultKeyLevel2;
      if config.Some? {
        var k1 := config.value.GetAesKey(1);
        if k1.Err? {
          return Err(k1.error);
        }
        if k1.value.Some? {
          key1 := k1.value.value;
        }
        var k2 := config.value.GetAesKey(2);
        if k2.Err? {
          return Err(k2.error);
        }
        if k2.value.Some? {
          key2 := k2.value.value;
        }
      }
      var m := new FlashManager.WithKeys(uds, key1, key2);
      return Ok(m);
    }

    /** The padding of `FlashHexFileAsync`: a new array, the data copied
        in, and the tail filled with 0xCC. */
    static method PadData(data: seq<byte>) returns (padded: seq<byte>)
      ensures padded == Pad(data)
    {
      if |data| % BlockAlign == 0 {
        return data;
      }
      var padLen := BlockAlign - |data| % BlockAlign;
      var buffer := new byte[|data| + padLen];
      forall i | 0 <= i < |data| {
        buffer[i] := data[i];
      }
      for i := 0 to padLen
        invariant buffer[..|data|] == data
        invariant forall j :: |data| <= j < |data| + i ==> buffer[j] == PadByte
      {
        buffer[|data| + i] := PadByte;
      }
      padded := buffer[..];
      assert padded == data + Fill(PadByte, padLen);
    }

    /** `key = _security.GenerateKey(seed, 1)`. */
    method GenerateKey(seed: seq<byte>, decrypt: Security.Decryptor) returns (key: Security.Block)
      requires Valid()
      ensures key == KeyFor(Key1(), decrypt, seed)
    {
      var k := security.GenerateKey(seed, 1, decrypt);
      key := k.value;
    }

    /** The `blockRetry` loop for one block. */
    method SendBlockData(counter: byte, block: seq<byte>) returns (r: Outcome<bool>)
      modifies uds
      ensures After(r, uds.script) == SendBlock(old(uds.script), counter, block)
    {
      var blockRetry := 0;
      var blockSuccess := false;
      while blockRetry < BlockAttempts && !blockSuccess
        invariant 0 <= blockRetry <= BlockAttempts
        invariant blockSuccess ==> SendBlock(old(uds.script), counter, block) == After(Returned(true), uds.script)
        invariant !blockSuccess ==>
          SendBlock(old(uds.script), counter, block) == SendBlockFrom(uds.script, counter, block, blockRetry)
        decreases BlockAttempts - blockRetry, if blockSuccess then 0 else 1
      {
        var nrc := uds.NrcCall(TransferData(counter, block));
        match nrc {
          case Returned(code) =>
            if code == 0x00 {
              blockSuccess := true;
            } else if code == 0x73 && blockRetry > 0 {
              // the ECU already holds this block: the earlier reply was lost
              blockSuccess := true;
            } else {
              // `throw new Exception("NRC ...")`, caught by the filter below
              blockRetry := blockRetry + 1;
            }
          case Threw(f) =>
            if Caught(f) {
              blockRetry := blockRetry + 1;
            } else {
              return Threw(f);
            }
        }
      }
      return Returned(blockSuccess);
    }

    /** The `for (i < totalBlocks)` loop for a positive block size. */
    method SendBlocks(data: seq<byte>, blockSize: nat) returns (r: Outcome<bool>)
      requires blockSize > 0
      modifies uds
      ensures After(r, uds.script) == SendBlocksFrom(old(uds.script), data, blockSize, 0)
    {
      var totalBlocks := TotalBlocks(|data|, blockSize);
      TotalBlocksIsCeiling(|data|, blockSize);
      var i := 0;
      while i < totalBlocks
        invariant 0 <= i <= totalBlocks
        invariant SendBlocksFrom(old(uds.script), data, blockSize, 0) == SendBlocksFrom(uds.script, data, blockSize, i)
      {
        ghost var before := uds.script;
        SendBlocksStep(before, data, blockSize, i);
        var offset := i * blockSize;
        var length := Min(blockSize, |data| - offset);
        var blockData := data[offset .. offset + length];
        assert blockData == BlockAt(data, i, blockSize);
        var sent := SendBlockData(Counter(i), blockData);
        if sent != Returned(true) {
          return sent;
        }
        i := i + 1;
      }
      return Returned(true);
    }

    /** The transfer once RequestDownload granted `maxBlockLen`. */
    method TransferBlocks(data: seq<byte>, maxBlockLen: Word16) returns (r: Outcome<bool>)
      modifies uds
      ensures After(r, uds.script) == Transfer(old(uds.script), data, maxBlockLen)
    {
      var blockSize := maxBlockLen - 2;
      if blockSize == 0 {
        return Threw(DivideByZero);
      }
      if blockSize < 0 {
        // The first block, if the count lets the loop start, has the
        // negative length `Min(blockSize, data.Length)`.
        if TotalBlocks(|data|, blockSize) > 0 {
          return Threw(Overflow);
        }
        return Returned(true);
      }
      r := SendBlocks(data, blockSize);
    }

    /** RequestDownload, the block loop and RequestTransferExit for one
        segment. */
    method SendSegmentData(seg: IntelHex.Segment) returns (r: Outcome<bool>)
      modifies uds
      ensures After(r, uds.script) == SendSegment(old(uds.script), seg)
    {
      var data := PadData(seg.data);
      var maxBlockLen := uds.WindowCall(RequestDownload(seg.start, |data|));
      if maxBlockLen.Threw? {
        return Threw(maxBlockLen.fault);
      }
      if maxBlockLen.value == 0 {
        return Returned(false);
      }
      var sent := TransferBlocks(data, maxBlockLen.value);
      if sent != Returned(true) {
        return sent;
      }
      var exit := uds.FlagCall(RequestTransferExit);
      return exit;
    }

    /** `FlashHexFileAsync`. */
    method FlashHexFileData(lines: seq<string>) returns (r: Outcome<bool>)
      modifies uds
      ensures After(r, uds.script) == FlashHexFile(old(uds.script), lines)
    {
      var segments := IntelHex.Parse(IntelHex.SumRule, lines);
      if segments.Err? {
        return Threw(BadHexFile);
      }
      var segs := segments.value;
      for k := 0 to |segs|
        invariant FlashHexFile(old(uds.script), lines) == SendSegmentsFrom(uds.script, segs, k)
      {
        var ok := SendSegmentData(segs[k]);
        if ok != Returned(true) {
          return ok;
        }
      }
      return Returned(true);
    }

    /** Session and security again before a retry; results ignored. */
    method Renew(decrypt: Security.Decryptor) returns (r: Outcome<()>)
      requires Valid()
      modifies uds
      ensures After(r, uds.script) == Reauthenticate(old(uds.script), Key1(), decrypt)
    {
      var changed := uds.FlagCall(ChangeSession(UdsService.ExtendedSession));
      if changed.Threw? {
        return Threw(changed.fault);
      }
      var s := uds.SeedCall(RequestSeed(1));
      if s.Threw? {
        return Threw(s.fault);
      }
      if UsableSeed(s.value) {
        var k := GenerateKey(s.value.value, decrypt);
        var sent := uds.FlagCall(SendKey(1, k));
        if sent.Threw? {
          return Threw(sent.fault);
        }
      }
      return Returned(());
    }

    /** The `try` block of the file loop. */
    method AttemptFile(lines: seq<string>, retryCount: nat, decrypt: Security.Decryptor) returns (attempt: Outcome<bool>)
      requires Valid()
      modifies uds
      ensures After(attempt, uds.script) == Attempt(old(uds.script), lines, Key1(), decrypt, retryCount)
    {
      if retryCount > 0 {
        var renewed := Renew(decrypt);
        if renewed.Threw? {
          return Threw(renewed.fault);
        }
      }
      attempt := FlashHexFileData(lines);
    }

    /** The `retryCount` loop for one file. */
    method FlashFileData(lines: seq<string>, decrypt: Security.Decryptor) returns (fileSuccess: bool)
      requires Valid()
      modifies uds
      ensures Verdict(fileSuccess, uds.script) == FlashFile(old(uds.script), lines, Key1(), decrypt)
    {
      ghost var key := Key1();
      ghost var spec := FlashFile(uds.script, lines, key, decrypt);
      var retryCount := 0;
      fileSuccess := false;
      while retryCount < FileAttempts && !fileSuccess
        invariant 0 <= retryCount <= FileAttempts
        invariant fileSuccess ==> spec == Verdict(true, uds.script)
        invariant !fileSuccess ==> spec == FileAttemptsFrom(uds.script, lines, key, decrypt, retryCount)
        decreases FileAttempts - retryCount, if fileSuccess then 0 else 1, Pending(uds.script)
      {
        ghost var before := uds.script;
        ghost var a := Attempt(before, lines, key, decrypt, retryCount);
        FileAttemptsStep(before, lines, key, decrypt, retryCount);
        var attempt := AttemptFile(lines, retryCount, decrypt);
        assert attempt == a.outcome && uds.script == a.script;
        match attempt {
          case Threw(_) =>
            assert spec == FileAttemptsFrom(uds.script, lines, key, decrypt, retryCount + 1);
            retryCount := retryCount + 1;
          case Returned(ok) =>
            assert !ok ==> spec == FileAttemptsFrom(uds.script, lines, key, decrypt, retryCount);
            fileSuccess := ok;
        }
      }
    }

    /** Steps 0 to 4 of `FlashAsync`. */
    method PrepareEcu(decrypt: Security.Decryptor) returns (r: Outcome<bool>)
      requires Valid()
      modifies uds
      ensures After(r, uds.script) == Prepare(old(uds.script), Key1(), decrypt)
    {
      for i := 0 to 3
        invariant Wakeup(old(uds.script), 3) == Wakeup(uds.script, 3 - i)
      {
        var t := uds.AckCall(TesterPresent(true));
        if t.Threw? {
          return Threw(t.fault);
        }
      }
      var changed := uds.FlagCall(ChangeSession(UdsService.ExtendedSession));
      if changed != Returned(true) {
        return changed;
      }
      var seed := uds.SeedCall(RequestSeed(1));
      if seed.Threw? {
        return Threw(seed.fault);
      }
      if !UsableSeed(seed.value) {
        return Returned(false);
      }
      var key := GenerateKey(seed.value.value, decrypt);
      var accepted := uds.FlagCall(SendKey(1, key));
      if accepted != Returned(true) {
        return accepted;
      }
      var dtc := uds.AckCall(ControlDtcSetting(DtcSettingOff));
      if dtc.Threw? {
        return Threw(dtc.fault);
      }
      var comm := uds.AckCall(CommunicationControl(DisableRxAndTx, NetworkManagementAndNormal));
      if comm.Threw? {
        return Threw(comm.fault);
      }
      return Returned(true);
    }

    /** `FlashAsync` over the directory listing. */
    method Flash(listing: seq<HexFile>, decrypt: Security.Decryptor) returns (ok: bool)
      requires Valid()
      modifies uds
      ensures Verdict(ok, uds.script) == FlashSpec(old(uds.script), listing, Key1(), decrypt)
    {
      var hexFiles := SortByPath(listing);
      if |hexFiles| == 0 {
        return false;
      }
      var prepared := PrepareEcu(decrypt);
      if prepared != Returned(true) {
        return false;
      }
      ghost var ready := uds.script;
      for k := 0 to |hexFiles|
        invariant FlashFilesFrom(ready, hexFiles, 0, Key1(), decrypt)
          == FlashFilesFrom(uds.script, hexFiles, k, Key1(), decrypt)
      {
        var fileSuccess := FlashFileData(hexFiles[k].lines, decrypt);
        if !fileSuccess {
          return false;
        }
      }
      var reset := uds.AckCall(EcuReset(SoftReset));
      return reset.Returned?;
    }
  }
}
