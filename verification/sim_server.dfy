/** The simulator server's response rules: which configured rules answer a
    received frame and what each one queues, how a frame's ID selects its
    parser, and how the hex strings of the configuration become bytes. */
module SimServer {
  import opened Bits
  import opened Wrappers
  import PyText
  import HexText

  /** A configured signal value: a number, or a formula string that the
      server evaluates before encoding. */
  datatype SignalValue = Number(n: int) | Formula(expr: string)

  /** A `respond:` entry of the configuration. */
  datatype ResponseRule = ResponseRule(
    name: string,
    requestId: int,
    requestMask: Option<seq<byte>>,
    requestData: Option<seq<byte>>,
    respSignals: map<string, SignalValue>,
    rawCanId: Option<int>,
    rawData: Option<seq<byte>>)

  /** What answering a frame puts on the way out: the rule's signals handed
      to the encoders, or a raw frame put on the transmit queue. */
  datatype Response =
    | SignalUpdate(rule: string, signals: map<string, SignalValue>)
    | RawFrame(canId: int, data: seq<byte>)

  // ---------------------------------------------------------------------
  // The payload filter
  // ---------------------------------------------------------------------

  function And(a: byte, b: byte): (r: byte)
  {
    ((a as bv8) & (b as bv8)) as byte
  }

  /** `(b + bytes(8))[:8]`: zero-padded or cut to eight bytes. */
  function Fit8(b: seq<byte>): (r: seq<byte>)
    ensures |r| == 8
    ensures forall i :: 0 <= i < 8 ==> r[i] == if i < |b| then b[i] else 0
  {
    (b + Zeros(8))[..8]
  }

  /** `bytes(x & m for x, m in zip(xs, mask))`: as long as the shorter of
      the two. */
  function MaskedZip(xs: seq<byte>, mask: seq<byte>): (r: seq<byte>)
    ensures |r| == if |xs| < |mask| then |xs| else |mask|
  {
    var n := if |xs| < |mask| then |xs| else |mask|;
    seq(n, i requires 0 <= i < n => And(xs[i], mask[i]))
  }

  /** The payload test of a rule: with both a mask and request data
      configured, the masked frame bytes must equal the masked request
      bytes; otherwise every payload passes. */
  predicate PayloadMatches(rule: ResponseRule, data: seq<byte>)
  {
    if rule.requestMask.Some? && rule.requestData.Some? then
      var mask := Fit8(rule.requestMask.value);
      var rdat := Fit8(rule.requestData.value);
      MaskedZip(data, mask) == MaskedZip(rdat, mask)
    else
      true
  }

  /** Byte i of a configured pattern once padded to eight bytes. */
  function PaddedAt(b: seq<byte>, i: nat): byte
  {
    if i < |b| then b[i] else 0
  }

  /** The filter in plain terms: with both parts configured, a frame
      passes iff it has at least eight bytes and each of its first eight
      bytes agrees with the request byte on every bit the mask sets (mask
      and data read as zero past their ends); later bytes are ignored. */
  lemma PayloadMatchesIff(rule: ResponseRule, data: seq<byte>)
    requires rule.requestMask.Some? && rule.requestData.Some?
    ensures var m := rule.requestMask.value; var q := rule.requestData.value;
      PayloadMatches(rule, data) <==>
        |data| >= 8 && forall i :: 0 <= i < 8 ==> And(data[i], PaddedAt(m, i)) == And(PaddedAt(q, i), PaddedAt(m, i))
  {
    var m := rule.requestMask.value;
    var q := rule.requestData.value;
    var mask := Fit8(m);
    var rdat := Fit8(q);
    var lhs := MaskedZip(data, mask);
    var rhs := MaskedZip(rdat, mask);
    if |data| >= 8 {
      if forall i :: 0 <= i < 8 ==> And(data[i], PaddedAt(m, i)) == And(PaddedAt(q, i), PaddedAt(m, i)) {
        assert lhs == rhs by {
          forall i | 0 <= i < 8
            ensures lhs[i] == rhs[i]
          {
            assert mask[i] == PaddedAt(m, i) && rdat[i] == PaddedAt(q, i);
          }
        }
      }
      if lhs == rhs {
        forall i | 0 <= i < 8
          ensures And(data[i], PaddedAt(m, i)) == And(PaddedAt(q, i), PaddedAt(m, i))
        {
          assert lhs[i] == rhs[i];
        }
      }
    } else {
      assert |lhs| != |rhs|;
    }
  }

  /** A frame shorter than eight bytes never passes a filtering rule. */
  lemma ShortFramesNeverMatch(rule: ResponseRule, data: seq<byte>)
    requires rule.requestMask.Some? && rule.requestData.Some? && |data| < 8
    ensures !PayloadMatches(rule, data)
  {
    PayloadMatchesIff(rule, data);
  }

  /** An all-zero mask lets every frame of eight bytes or more pass. */
  lemma ZeroMaskMatchesLongFrames(rule: ResponseRule, data: seq<byte>)
    requires rule.requestMask == Some(Zeros(8)) && rule.requestData.Some? && |data| >= 8
    ensures PayloadMatches(rule, data)
  {
    var q := rule.requestData.value;
    forall i | 0 <= i < 8
      ensures And(data[i], PaddedAt(Zeros(8), i)) == And(PaddedAt(q, i), PaddedAt(Zeros(8), i))
    {
      assert PaddedAt(Zeros(8), i) == 0;
    }
    PayloadMatchesIff(rule, data);
  }

  // ---------------------------------------------------------------------
  // _maybe_respond
  // ---------------------------------------------------------------------

  /** What one rule contributes for a received frame. */
  function Reaction(rule: ResponseRule, canId: int, data: seq<byte>): (r: seq<Response>)
    ensures |r| <= 1
  {
    if canId != rule.requestId || !PayloadMatches(rule, data) then []
    else if |rule.respSignals| > 0 then [SignalUpdate(rule.name, rule.respSignals)]
    else if rule.rawCanId.Some? && rule.rawData.Some? then [RawFrame(rule.rawCanId.value, rule.rawData.value)]
    else []
  }

  /** What all rules contribute, in configuration order. */
  function Responses(rules: seq<ResponseRule>, canId: int, data: seq<byte>): seq<Response>
  {
    if |rules| == 0 then []
    else Responses(rules[..|rules| - 1], canId, data) + Reaction(rules[|rules| - 1], canId, data)
  }

  /** A rule answers only frames with its own request ID. */
  lemma OtherIdsNoReaction(rule: ResponseRule, canId: int, data: seq<byte>)
    requires canId != rule.requestId
    ensures Reaction(rule, canId, data) == []
  {
  }

  /** Without both a mask and request data the payload is not looked at. */
  lemma OneSidedFilterIgnored(rule: ResponseRule, data: seq<byte>, other: seq<byte>)
    requires rule.requestMask.None? || rule.requestData.None?
    ensures Reaction(rule, rule.requestId, data) == Reaction(rule, rule.requestId, other)
  {
  }

  /** A rule with signals answers with them, whatever raw frame it also
      names; a raw frame goes out only from a rule without signals that
      names both its ID and its data. */
  lemma SignalsWin(rule: ResponseRule, canId: int, data: seq<byte>)
    requires canId == rule.requestId && PayloadMatches(rule, data)
    ensures |rule.respSignals| > 0 ==> Reaction(rule, canId, data) == [SignalUpdate(rule.name, rule.respSignals)]
    ensures (exists i, d :: Reaction(rule, canId, data) == [RawFrame(i, d)]) <==>
      |rule.respSignals| == 0 && rule.rawCanId.Some? && rule.rawData.Some?
  {
    if |rule.respSignals| == 0 && rule.rawCanId.Some? && rule.rawData.Some? {
      assert Reaction(rule, canId, data) == [RawFrame(rule.rawCanId.value, rule.rawData.value)];
    }
  }

  /** The rules do not stop one another: the answer to a list of rules is
      the answer to its first part followed by the answer to the rest. */
  lemma {:induction false} ResponsesAppend(a: seq<ResponseRule>, b: seq<ResponseRule>, canId: int, data: seq<byte>)
    ensures Responses(a + b, canId, data) == Responses(a, canId, data) + Responses(b, canId, data)
    decreases |b|
  {
    if |b| > 0 {
      var last := b[|b| - 1];
      var front := b[..|b| - 1];
      assert (a + b)[..|a + b| - 1] == a + front;
      ResponsesAppend(a, front, canId, data);
    } else {
      assert a + b == a;
    }
  }

  /** Every matching rule fires, in its place: nothing before it and
      nothing after it is skipped because it answered. */
  lemma EveryMatchFires(rules: seq<ResponseRule>, i: nat, canId: int, data: seq<byte>)
    requires i < |rules|
    ensures Responses(rules, canId, data)
      == Responses(rules[..i], canId, data) + Reaction(rules[i], canId, data) + Responses(rules[i + 1..], canId, data)
  {
    assert rules == rules[..i] + [rules[i]] + rules[i + 1..];
    ResponsesAppend(rules[..i] + [rules[i]], rules[i + 1..], canId, data);
    ResponsesAppend(rules[..i], [rules[i]], canId, data);
    assert [rules[i]][..0] == [];
  }

  /** The simulator's configured rules and its transmit side. */
  class Server {
    const rules: seq<ResponseRule>
    var txQueue: seq<Response>

    constructor (rules: seq<ResponseRule>)
      ensures this.rules == rules && txQueue == []
    {
      this.rules := rules;
      txQueue := [];
    }

    /** `_maybe_respond(can_id, data)`: every rule that answers the frame
        queues its response, in configuration order. */
    method MaybeRespond(canId: int, data: seq<byte>)
      modifies this
      ensures txQueue == old(txQueue) + Responses(rules, canId, data)
    {
      ghost var before := txQueue;
      for k := 0 to |rules|
        invariant txQueue == before + Responses(rules[..k], canId, data)
      {
        var rule := rules[k];
        assert rules[..k + 1][..k] == rules[..k];
        if canId != rule.requestId {
          continue;
        }
        if rule.requestMask.Some? && rule.requestData.Some? {
          var mask := Fit8(rule.requestMask.value);
          var rdat := Fit8(rule.requestData.value);
          if MaskedZip(data, mask) != MaskedZip(rdat, mask) {
            continue;
          }
        }
        if |rule.respSignals| > 0 {
          txQueue := txQueue + [SignalUpdate(rule.name, rule.respSignals)];
        } else if rule.rawCanId.Some? && rule.rawData.Some? {
          txQueue := txQueue + [RawFrame(rule.rawCanId.value, rule.rawData.value)];
        }
      }
      assert rules[..|rules|] == rules;
    }
  }

  // ---------------------------------------------------------------------
  // _choose_parser
  // ---------------------------------------------------------------------

  /** `parsers_by_id.get(can_id) or parsers_by_id.get(None)`: the parser
      registered for the ID, else the default one (a parser object is
      always true). */
  function ChooseParser<P>(parsers: map<Option<int>, P>, canId: int): (r: Option<P>)
    ensures Some(canId) in parsers ==> r == Some(parsers[Some(canId)])
    ensures Some(canId) !in parsers && None in parsers ==> r == Some(parsers[None])
    ensures r.None? <==> Some(canId) !in parsers && None !in parsers
  {
    if Some(canId) in parsers then Some(parsers[Some(canId)])
    else if None in parsers then Some(parsers[None])
    else None
  }

  // ---------------------------------------------------------------------
  // _hx
  // ---------------------------------------------------------------------

  /** The characters `bytes.fromhex` skips between byte pairs: space, tab,
      line feed, vertical tab, form feed and carriage return. */
  predicate IsAsciiWhite(c: char)
  {
    c == ' ' || ('\t' <= c <= '\r')
  }

  /** `bytes.fromhex(s)`: pairs of hex digits, white space allowed before
      each pair and at the end but not inside one; None where Python
      raises ValueError. */
  function FromHex(s: string): (r: Option<seq<byte>>)
    ensures r.Some? ==> 2 * |r.value| <= |s|
  {
    if |s| == 0 then Some([])
    else if IsAsciiWhite(s[0]) then FromHex(s[1..])
    else if |s| >= 2 && HexText.IsHexDigit(s[0]) && HexText.IsHexDigit(s[1]) then
      match FromHex(s[2..])
      case None => None
      case Some(rest) => Some([16 * HexText.DigitValue(s[0]) + HexText.DigitValue(s[1])] + rest)
    else None
  }

  /** `s.replace(" ", "")`. */
  function RemoveSpaces(s: string): (t: string)
    ensures |t| <= |s| && forall i :: 0 <= i < |t| ==> t[i] != ' '
  {
    if |s| == 0 then ""
    else if s[0] == ' ' then RemoveSpaces(s[1..])
    else [s[0]] + RemoveSpaces(s[1..])
  }

  /** `_hx(s)`: absent stays absent; otherwise the string, stripped and
      with its spaces removed, read by `bytes.fromhex`. The inner None is
      the ValueError a malformed string raises. */
  function Hx(s: Option<string>): Option<Option<seq<byte>>>
  {
    match s
    case None => None
    case Some(text) => Some(FromHex(RemoveSpaces(PyText.Strip(text))))
  }

  lemma {:induction false} RemoveSpacesNoOp(s: string)
    requires forall i :: 0 <= i < |s| ==> s[i] != ' '
    ensures RemoveSpaces(s) == s
    decreases |s|
  {
    if |s| > 0 {
      RemoveSpacesNoOp(s[1..]);
      assert s == [s[0]] + s[1..];
    }
  }

  lemma HexCharPlain(d: nat)
    requires d < 16
    ensures HexText.IsHexDigit(HexText.HexChar(d)) && HexText.DigitValue(HexText.HexChar(d)) == d
    ensures !IsAsciiWhite(HexText.HexChar(d)) && !PyText.IsSpace(HexText.HexChar(d))
  {
  }

  /** Every character of the uppercase hex text is a hex digit. */
  lemma {:induction false} HexBytesDigits(data: seq<byte>, i: nat)
    requires i < 2 * |data|
    ensures HexText.IsHexDigit(HexText.HexBytes(data)[i])
    ensures !IsAsciiWhite(HexText.HexBytes(data)[i]) && !PyText.IsSpace(HexText.HexBytes(data)[i])
    decreases |data|
  {
    var s := HexText.HexBytes(data);
    var b := data[0];
    if i < 2 {
      HexCharPlain(b / 16);
      HexCharPlain(b % 16);
      assert s[i] == HexText.Hex2(b)[i];
    } else {
      HexBytesDigits(data[1..], i - 2);
      assert s[i] == HexText.HexBytes(data[1..])[i - 2];
    }
  }

  /** `bytes.fromhex` reads back the hex text of a byte string. */
  lemma {:induction false} FromHexOfHexBytes(data: seq<byte>)
    ensures FromHex(HexText.HexBytes(data)) == Some(data)
    decreases |data|
  {
    if |data| > 0 {
      var b := data[0];
      var s := HexText.HexBytes(data);
      HexCharPlain(b / 16);
      HexCharPlain(b % 16);
      assert s[0] == HexText.HexChar(b / 16) && s[1] == HexText.HexChar(b % 16);
      assert s[2..] == HexText.HexBytes(data[1..]);
      FromHexOfHexBytes(data[1..]);
      assert data == [b] + data[1..];
    }
  }

  /** A configured hex string written as `HexBytes` prints it gives the
      same bytes back. */
  lemma HxRoundTrip(data: seq<byte>)
    ensures Hx(Some(HexText.HexBytes(data))) == Some(Some(data))
  {
    var s := HexText.HexBytes(data);
    if |s| > 0 {
      HexBytesDigits(data, 0);
      HexBytesDigits(data, |s| - 1);
    }
    assert PyText.StripStart(s) == s;
    assert PyText.StripEnd(s) == s;
    forall i | 0 <= i < |s|
      ensures s[i] != ' '
    {
      HexBytesDigits(data, i);
    }
    RemoveSpacesNoOp(s);
    FromHexOfHexBytes(data);
  }

  /** Spaces inside a byte pair are accepted, because they are removed
      before `bytes.fromhex` sees the text ... */
  lemma SplitPairAccepted()
    ensures Hx(Some(" 1 2 ")) == Some(Some([0x12]))
  {
    var padded, inner := " 1 2 ", "1 2 ";
    assert PyText.IsSpace(padded[0]) && padded[1..] == inner;
    assert !PyText.IsSpace(inner[0]);
    assert PyText.StripStart(inner) == inner;
    assert PyText.Strip(padded) == PyText.StripEnd(inner);
    assert inner[..3] == "1 2";
    assert PyText.StripEnd("1 2") == "1 2";
    assert "1 2"[1..] == " 2" && " 2"[1..] == "2" && "2"[1..] == "";
    assert RemoveSpaces("2") == "2";
    assert RemoveSpaces("1 2") == "12";
    var twelve := "12";
    assert !IsAsciiWhite(twelve[0]) && HexText.IsHexDigit(twelve[0]) && HexText.IsHexDigit(twelve[1]);
    assert HexText.DigitValue(twelve[0]) == 1 && HexText.DigitValue(twelve[1]) == 2;
    assert twelve[2..] == "" && FromHex("") == Some([]);
    assert FromHex(twelve) == Some([0x12] + []);
    assert [0x12] + [] == [0x12];
  }

  /** ... while `bytes.fromhex` alone rejects them. */
  lemma SplitPairRejected()
    ensures FromHex("1 2").None?
  {
    var text := "1 2";
    assert !IsAsciiWhite(text[0]) && !HexText.IsHexDigit(text[1]);
  }
}
