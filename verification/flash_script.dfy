/** The UDS client as `FlashManager` uses it. The request methods it calls
    (`TesterPresentAsync`, `ChangeSessionAsync`, the SecurityAccess pair,
    `ControlDtcSettingAsync`, `CommunicationControlAsync`,
    `RequestDownloadAsync`, `TransferDataAsync`, `RequestTransferExitAsync`,
    `EcuResetAsync`) are not part of this model: every call is logged and
    answered from a script of outcomes, one queue per result type. A queue
    that has run dry answers with a timeout, as a silent ECU does. */
module FlashScript {
  import opened Bits
  import opened Wrappers

  /** `ushort`. */
  type Word16 = n: nat | n < 0x1_0000

  /** The exceptions that reach `FlashManager`, told apart as far as its
      handlers tell them apart. */
  datatype Fault =
    | Timeout                   // TimeoutException
    | Cancelled                 // OperationCanceledException, TaskCanceledException
    | Other(mentionsNrc: bool)  // any other exception; whether its message contains "NRC"
    | BadHexFile                // what the Intel HEX parser throws on a malformed line
    | DivideByZero              // `/ blockSize` with a block size of 0
    | Overflow                  // `new byte[length]` with a negative length

  /** A call that returned `value`, or one that threw. */
  datatype Outcome<T> = Returned(value: T) | Threw(fault: Fault)

  /** The requests `FlashManager` makes, with the arguments it passes. */
  datatype Call =
    | TesterPresent(argument: bool)  // the boolean FlashManager passes
    | ChangeSession(session: byte)
    | RequestSeed(level: nat)
    | SendKey(level: nat, key: seq<byte>)
    | ControlDtcSetting(setting: byte)
    | CommunicationControl(control: byte, communication: byte)
    | RequestDownload(address: nat, size: nat)
    | TransferData(counter: byte, block: seq<byte>)
    | RequestTransferExit
    | EcuReset(resetType: byte)

  /** The scripted ECU: the outcomes still to be given, per result type, and
      the calls made so far, oldest first. */
  datatype Script = Script(
    acks: seq<Outcome<()>>,                  // calls whose result is discarded
    flags: seq<Outcome<bool>>,               // ChangeSession, SendKey, RequestTransferExit
    seeds: seq<Outcome<Option<seq<byte>>>>,  // RequestSeed; None is a null array
    windows: seq<Outcome<Word16>>,           // RequestDownload: the maximum block length
    nrcs: seq<Outcome<byte>>,                // TransferData: 0, or the negative response code
    log: seq<Call>)

  /** A call's outcome together with the script after it. */
  datatype After<T> = After(outcome: Outcome<T>, script: Script)

  /** The number of scripted outcomes not yet given. */
  function Pending(s: Script): nat
  {
    |s.acks| + |s.flags| + |s.seeds| + |s.windows| + |s.nrcs|
  }

  /** The number of ECU resets in a log. */
  function Resets(log: seq<Call>): nat
  {
    if |log| == 0 then 0
    else Resets(log[..|log| - 1]) + (if log[|log| - 1].EcuReset? then 1 else 0)
  }

  lemma ResetsSnoc(log: seq<Call>, c: Call)
    ensures Resets(log + [c]) == Resets(log) + (if c.EcuReset? then 1 else 0)
  {
    assert (log + [c])[..|log|] == log;
  }

  /** `t` is `s` after some calls other than an ECU reset: no outcome was
      added and the log only grew. */
  predicate Spent(s: Script, t: Script)
  {
    Pending(t) <= Pending(s) && s.log <= t.log && Resets(t.log) == Resets(s.log)
  }

  /** Calls made one after the other spend the script one after the other. */
  lemma SpentTrans(a: Script, b: Script, c: Script)
    requires Spent(a, b) && Spent(b, c)
    ensures Spent(a, c)
  {
    assert c.log[..|a.log|] == c.log[..|b.log|][..|a.log|];
  }

  /** The next outcome of a queue; a timeout once it is empty. */
  function Head<T>(q: seq<Outcome<T>>): (o: Outcome<T>)
    ensures |q| == 0 ==> o == Threw(Timeout)
    ensures |q| > 0 ==> o == q[0]
  {
    if |q| == 0 then Threw(Timeout) else q[0]
  }

  function Tail<T>(q: seq<Outcome<T>>): (t: seq<Outcome<T>>)
    ensures |q| > 0 ==> t == q[1..]
    ensures |q| == 0 ==> t == []
  {
    if |q| == 0 then [] else q[1..]
  }

  /** A call that returned consumed one scripted outcome; every call is
      logged. */
  predicate OneCall<T>(s: Script, c: Call, r: After<T>)
  {
    r.script.log == s.log + [c]
    && Resets(r.script.log) == Resets(s.log) + (if c.EcuReset? then 1 else 0)
    && Pending(r.script) <= Pending(s)
    && (r.outcome.Returned? ==> Pending(r.script) == Pending(s) - 1)
  }

  function Ack(s: Script, c: Call): (r: After<()>)
    ensures OneCall(s, c, r)
    ensures !c.EcuReset? ==> Spent(s, r.script)
  {
    ResetsSnoc(s.log, c);
    After(Head(s.acks), s.(acks := Tail(s.acks), log := s.log + [c]))
  }

  function Flag(s: Script, c: Call): (r: After<bool>)
    ensures OneCall(s, c, r)
    ensures !c.EcuReset? ==> Spent(s, r.script)
  {
    ResetsSnoc(s.log, c);
    After(Head(s.flags), s.(flags := Tail(s.flags), log := s.log + [c]))
  }

  function Seed(s: Script, c: Call): (r: After<Option<seq<byte>>>)
    ensures OneCall(s, c, r)
    ensures !c.EcuReset? ==> Spent(s, r.script)
  {
    ResetsSnoc(s.log, c);
    After(Head(s.seeds), s.(seeds := Tail(s.seeds), log := s.log + [c]))
  }

  function Window(s: Script, c: Call): (r: After<Word16>)
    ensures OneCall(s, c, r)
    ensures !c.EcuReset? ==> Spent(s, r.script)
  {
    ResetsSnoc(s.log, c);
    After(Head(s.windows), s.(windows := Tail(s.windows), log := s.log + [c]))
  }

  function Nrc(s: Script, c: Call): (r: After<byte>)
    ensures OneCall(s, c, r)
    ensures !c.EcuReset? ==> Spent(s, r.script)
  {
    ResetsSnoc(s.log, c);
    After(Head(s.nrcs), s.(nrcs := Tail(s.nrcs), log := s.log + [c]))
  }

  /** The client object: its script is the state the calls change. */
  class ScriptedUds {
    var script: Script

    constructor (initial: Script)
      ensures script == initial
    {
      script := initial;
    }

    method AckCall(c: Call) returns (r: Outcome<()>)
      modifies this
      ensures After(r, script) == Ack(old(script), c)
    {
      var a := Ack(script, c);
      r, script := a.outcome, a.script;
    }

    method FlagCall(c: Call) returns (r: Outcome<bool>)
      modifies this
      ensures After(r, script) == Flag(old(script), c)
    {
      var a := Flag(script, c);
      r, script := a.outcome, a.script;
    }

    method SeedCall(c: Call) returns (r: Outcome<Option<seq<byte>>>)
      modifies this
      ensures After(r, script) == Seed(old(script), c)
    {
      var a := Seed(script, c);
      r, script := a.outcome, a.script;
    }

    method WindowCall(c: Call) returns (r: Outcome<Word16>)
      modifies this
      ensures After(r, script) == Window(old(script), c)
    {
      var a := Window(script, c);
      r, script := a.outcome, a.script;
    }

    method NrcCall(c: Call) returns (r: Outcome<byte>)
      modifies this
      ensures After(r, script) == Nrc(old(script), c)
    {
      var a := Nrc(script, c);
      r, script := a.outcome, a.script;
    }
  }
}
