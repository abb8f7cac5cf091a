/** Negative Response Codes of ISO 14229-1 (Annex A.1) as the tool knows
    them (`UdsNrc` and `UdsNrcExtensions`), with the two response
    classifiers every caller uses. The C# enum is backed by a byte, so a
    cast turns any byte into a `UdsNrc`; the datatype below has the fifteen
    named codes and `Unlisted` for every other byte. */
module UdsNrc {
  import opened Bits
  import opened HexText

  datatype Nrc =
    | GeneralReject
    | ServiceNotSupported
    | SubFunctionNotSupported
    | IncorrectMessageLength
    | BusyRepeatRequest
    | ConditionsNotCorrect
    | RequestSequenceError
    | RequestOutOfRange
    | SecurityAccessDenied
    | InvalidKey
    | ExceededNumberOfAttempts
    | RequiredTimeDelayNotExpired
    | ResponsePending
    | SubFunctionNotSupportedInActiveSession
    | ServiceNotSupportedInActiveSession
    | Unlisted(code: byte)
  {
    /** `Unlisted` never carries a code that has a name. */
    predicate Valid()
    {
      Unlisted? ==> !IsListed(code)
    }
  }

  /** The fifteen codes the name table knows. */
  predicate IsListed(b: byte)
  {
    b == 0x10 || b == 0x11 || b == 0x12 || b == 0x13 || b == 0x21 || b == 0x22 || b == 0x24
    || b == 0x31 || b == 0x33 || b == 0x35 || b == 0x36 || b == 0x37 || b == 0x78 || b == 0x7E || b == 0x7F
  }

  /** `(byte)n`. */
  function Code(n: Nrc): byte
  {
    match n
    case GeneralReject => 0x10
    case ServiceNotSupported => 0x11
    case SubFunctionNotSupported => 0x12
    case IncorrectMessageLength => 0x13
    case BusyRepeatRequest => 0x21
    case ConditionsNotCorrect => 0x22
    case RequestSequenceError => 0x24
    case RequestOutOfRange => 0x31
    case SecurityAccessDenied => 0x33
    case InvalidKey => 0x35
    case ExceededNumberOfAttempts => 0x36
    case RequiredTimeDelayNotExpired => 0x37
    case ResponsePending => 0x78
    case SubFunctionNotSupportedInActiveSession => 0x7E
    case ServiceNotSupportedInActiveSession => 0x7F
    case Unlisted(c) => c
  }

  /** `(UdsNrc)b`: every byte is a `UdsNrc`. */
  function OfByte(b: byte): (n: Nrc)
    ensures n.Valid() && Code(n) == b
  {
    if b == 0x10 then GeneralReject
    else if b == 0x11 then ServiceNotSupported
    else if b == 0x12 then SubFunctionNotSupported
    else if b == 0x13 then IncorrectMessageLength
    else if b == 0x21 then BusyRepeatRequest
    else if b == 0x22 then ConditionsNotCorrect
    else if b == 0x24 then RequestSequenceError
    else if b == 0x31 then RequestOutOfRange
    else if b == 0x33 then SecurityAccessDenied
    else if b == 0x35 then InvalidKey
    else if b == 0x36 then ExceededNumberOfAttempts
    else if b == 0x37 then RequiredTimeDelayNotExpired
    else if b == 0x78 then ResponsePending
    else if b == 0x7E then SubFunctionNotSupportedInActiveSession
    else if b == 0x7F then ServiceNotSupportedInActiveSession
    else Unlisted(b)
  }

  /** The cast and the code are inverse: a `UdsNrc` is its byte. */
  lemma CodeRoundTrip(n: Nrc)
    requires n.Valid()
    ensures OfByte(Code(n)) == n
  {
  }

  function UnknownName(b: byte): string
  {
    "Unknown NRC (0x" + Hex2(b) + ")"
  }

  /** `UdsNrcExtensions.AsString(this UdsNrc n)`: a switch on the code. */
  function AsString(n: Nrc): string
  {
    var c := Code(n);
    if c == 0x10 then "GeneralReject (0x10)"
    else if c == 0x11 then "ServiceNotSupported (0x11)"
    else if c == 0x12 then "SubFunctionNotSupported (0x12)"
    else if c == 0x13 then "IncorrectMessageLength (0x13)"
    else if c == 0x21 then "BusyRepeatRequest (0x21)"
    else if c == 0x22 then "ConditionsNotCorrect (0x22)"
    else if c == 0x24 then "RequestSequenceError (0x24)"
    else if c == 0x31 then "RequestOutOfRange (0x31)"
    else if c == 0x33 then "SecurityAccessDenied (0x33)"
    else if c == 0x35 then "InvalidKey (0x35)"
    else if c == 0x36 then "ExceededNumberOfAttempts (0x36)"
    else if c == 0x37 then "RequiredTimeDelayNotExpired (0x37)"
    else if c == 0x78 then "ResponsePending (0x78)"
    else if c == 0x7E then "SubFunctionNotSupportedInActiveSession (0x7E)"
    else if c == 0x7F then "ServiceNotSupportedInActiveSession (0x7F)"
    else UnknownName(c)
  }

  /** `UdsNrcExtensions.AsString(byte nrcRaw)`: the name of the cast; the
      "Unknown NRC" form is used exactly for the bytes without a name. */
  function AsStringOfByte(b: byte): (s: string)
    ensures !IsListed(b) <==> s == UnknownName(b)
  {
    UnknownOnlyUnlisted(b);
    AsString(OfByte(b))
  }

  lemma UnknownOnlyUnlisted(b: byte)
    ensures !IsListed(b) <==> AsString(OfByte(b)) == UnknownName(b)
  {
    if IsListed(b) {
      OfByteListed(b);
      ListedNameCarriesCode(OfByte(b));
    }
  }

  predicate EndsWith(s: string, suffix: string)
  {
    |suffix| <= |s| && s[|s| - |suffix|..] == suffix
  }

  /** Every name, listed or not, ends with its own code in `X2` form. */
  lemma NameCarriesCode(n: Nrc)
    ensures EndsWith(AsString(n), " (0x" + Hex2(Code(n)) + ")")
  {
    var m := OfByte(Code(n));
    assert AsString(n) == AsString(m);
    if m.Unlisted? {
      assert AsString(n) == "Unknown NRC" + (" (0x" + Hex2(Code(n)) + ")");
      EndsWithConcat("Unknown NRC", " (0x" + Hex2(Code(n)) + ")");
    } else {
      ListedNameCarriesCode(m);
    }
  }

  /** A named code's text starts with its name (never "Unknown") and ends
      with its code. */
  lemma ListedNameCarriesCode(n: Nrc)
    requires !n.Unlisted?
    ensures EndsWith(AsString(n), " (0x" + Hex2(Code(n)) + ")")
    ensures AsString(n)[0] != 'U'
  {
    if n.GeneralReject? || n.ServiceNotSupported? {
      NamesCarryCodes1(n);
    } else if n.SubFunctionNotSupported? || n.IncorrectMessageLength? {
      NamesCarryCodes2(n);
    } else if n.BusyRepeatRequest? || n.ConditionsNotCorrect? {
      NamesCarryCodes3(n);
    } else if n.RequestSequenceError? || n.RequestOutOfRange? {
      NamesCarryCodes4(n);
    } else if n.SecurityAccessDenied? || n.InvalidKey? {
      NamesCarryCodes5(n);
    } else if n.ExceededNumberOfAttempts? || n.RequiredTimeDelayNotExpired? {
      NamesCarryCodes6(n);
    } else if n.ResponsePending? || n.SubFunctionNotSupportedInActiveSession? {
      NamesCarryCodes7(n);
    } else {
      NamesCarryCodes8(n);
    }
  }

  lemma NamesCarryCodes1(n: Nrc)
    requires n.GeneralReject? || n.ServiceNotSupported?
    ensures EndsWith(AsString(n), " (0x" + Hex2(Code(n)) + ")")
    ensures AsString(n)[0] != 'U'
  {
    match n
    case GeneralReject =>
      assert AsString(n) == "GeneralReject" + (" (0x" + Hex2(Code(n)) + ")");
      EndsWithConcat("GeneralReject", " (0x" + Hex2(Code(n)) + ")");
    case ServiceNotSupported =>
      assert AsString(n) == "ServiceNotSupported" + (" (0x" + Hex2(Code(n)) + ")");
      EndsWithConcat("ServiceNotSupported", " (0x" + Hex2(Code(n)) + ")");
  }

  lemma NamesCarryCodes2(n: Nrc)
    requires n.SubFunctionNotSupported? || n.IncorrectMessageLength?
    ensures EndsWith(AsString(n), " (0x" + Hex2(Code(n)) + ")")
    ensures AsString(n)[0] != 'U'
  {
    match n
    case SubFunctionNotSupported =>
      assert AsString(n) == "SubFunctionNotSupported" + (" (0x" + Hex2(Code(n)) + ")");
      EndsWithConcat("SubFunctionNotSupported", " (0x" + Hex2(Code(n)) + ")");
    case IncorrectMessageLength =>
      assert AsString(n) == "IncorrectMessageLength" + (" (0x" + Hex2(Code(n)) + ")");
      EndsWithConcat("IncorrectMessageLength", " (0x" + Hex2(Code(n)) + ")");
  }

  lemma NamesCarryCodes3(n: Nrc)
    requires n.BusyRepeatRequest? || n.ConditionsNotCorrect?
    ensures EndsWith(AsString(n), " (0x" + Hex2(Code(n)) + ")")
    ensures AsString(n)[0] != 'U'
  {
    match n
    case BusyRepeatRequest =>
      assert AsString(n) == "BusyRepeatRequest" + (" (0x" + Hex2(Code(n)) + ")");
      EndsWithConcat("BusyRepeatRequest", " (0x" + Hex2(Code(n)) + ")");
    case ConditionsNotCorrect =>
      assert AsString(n) == "ConditionsNotCorrect" + (" (0x" + Hex2(Code(n)) + ")");
      EndsWithConcat("ConditionsNotCorrect", " (0x" + Hex2(Code(n)) + ")");
  }

  lemma NamesCarryCodes4(n: Nrc)
    requires n.RequestSequenceError? || n.RequestOutOfRange?
    ensures EndsWith(AsString(n), " (0x" + Hex2(Code(n)) + ")")
    ensures AsString(n)[0] != 'U'
  {
    match n
    case RequestSequenceError =>
      assert AsString(n) == "RequestSequenceError" + (" (0x" + Hex2(Code(n)) + ")");
      EndsWithConcat("RequestSequenceError", " (0x" + Hex2(Code(n)) + ")");
    case RequestOutOfRange =>
      assert AsString(n) == "RequestOutOfRange" + (" (0x" + Hex2(Code(n)) + ")");
      EndsWithConcat("RequestOutOfRange", " (0x" + Hex2(Code(n)) + ")");
  }

  lemma NamesCarryCodes5(n: Nrc)
    requires n.SecurityAccessDenied? || n.InvalidKey?
    ensures EndsWith(AsString(n), " (0x" + Hex2(Code(n)) + ")")
    ensures AsString(n)[0] != 'U'
  {
    match n
    case SecurityAccessDenied =>
      assert AsString(n) == "SecurityAccessDenied" + (" (0x" + Hex2(Code(n)) + ")");
      EndsWithConcat("SecurityAccessDenied", " (0x" + Hex2(Code(n)) + ")");
    case InvalidKey =>
      assert AsString(n) == "InvalidKey" + (" (0x" + Hex2(Code(n)) + ")");
      EndsWithConcat("InvalidKey", " (0x" + Hex2(Code(n)) + ")");
  }

  lemma NamesCarryCodes6(n: Nrc)
    requires n.ExceededNumberOfAttempts? || n.RequiredTimeDelayNotExpired?
    ensures EndsWith(AsString(n), " (0x" + Hex2(Code(n)) + ")")
    ensures AsString(n)[0] != 'U'
  {
    match n
    case ExceededNumberOfAttempts =>
      assert AsString(n) == "ExceededNumberOfAttempts" + (" (0x" + Hex2(Code(n)) + ")");
      EndsWithConcat("ExceededNumberOfAttempts", " (0x" + Hex2(Code(n)) + ")");
    case RequiredTimeDelayNotExpired =>
      assert AsString(n) == "RequiredTimeDelayNotExpired" + (" (0x" + Hex2(Code(n)) + ")");
      EndsWithConcat("RequiredTimeDelayNotExpired", " (0x" + Hex2(Code(n)) + ")");
  }

  lemma NamesCarryCodes7(n: Nrc)
    requires n.ResponsePending? || n.SubFunctionNotSupportedInActiveSession?
    ensures EndsWith(AsString(n), " (0x" + Hex2(Code(n)) + ")")
    ensures AsString(n)[0] != 'U'
  {
    match n
    case ResponsePending =>
      assert AsString(n) == "ResponsePending" + (" (0x" + Hex2(Code(n)) + ")");
      EndsWithConcat("ResponsePending", " (0x" + Hex2(Code(n)) + ")");
    case SubFunctionNotSupportedInActiveSession =>
      assert AsString(n) == "SubFunctionNotSupportedInActiveSession" + (" (0x" + Hex2(Code(n)) + ")");
      EndsWithConcat("SubFunctionNotSupportedInActiveSession", " (0x" + Hex2(Code(n)) + ")");
  }

  lemma NamesCarryCodes8(n: Nrc)
    requires n.ServiceNotSupportedInActiveSession?
    ensures EndsWith(AsString(n), " (0x" + Hex2(Code(n)) + ")")
    ensures AsString(n)[0] != 'U'
  {
    match n
    case ServiceNotSupportedInActiveSession =>
      assert AsString(n) == "ServiceNotSupportedInActiveSession" + (" (0x" + Hex2(Code(n)) + ")");
      EndsWithConcat("ServiceNotSupportedInActiveSession", " (0x" + Hex2(Code(n)) + ")");
  }

  lemma EndsWithConcat(p: string, q: string)
    ensures EndsWith(p + q, q)
  {
    assert (p + q)[|p|..] == q;
  }

  /** A listed code is never `Unlisted` after the cast. */
  lemma OfByteListed(b: byte)
    requires IsListed(b)
    ensures !OfByte(b).Unlisted?
  {
  }

  /** Different codes never share a name. */
  lemma NamesDistinct(a: Nrc, b: Nrc)
    requires AsString(a) == AsString(b)
    ensures Code(a) == Code(b)
  {
    NameCarriesCode(a);
    NameCarriesCode(b);
    SameSuffixSameCode(AsString(a), Code(a), Code(b));
  }

  lemma SameSuffixSameCode(s: string, c: byte, d: byte)
    requires EndsWith(s, " (0x" + Hex2(c) + ")") && EndsWith(s, " (0x" + Hex2(d) + ")")
    ensures c == d
  {
    CodeInSuffix(s, c);
    CodeInSuffix(s, d);
    Hex2Injective(c, d);
  }

  /** The two characters before the closing parenthesis are the code. */
  lemma CodeInSuffix(s: string, c: byte)
    requires EndsWith(s, " (0x" + Hex2(c) + ")")
    ensures |s| >= 3 && s[|s| - 3..|s| - 1] == Hex2(c)
  {
    var t := " (0x" + Hex2(c) + ")";
    assert s[|s| - |t|..] == t;
    assert s[|s| - 3..|s| - 1] == t[4..6];
  }

  /** `IsPositive`: the response's first byte is the request SID + 0x40,
      truncated to a byte. */
  predicate IsPositive(requestSid: byte, resp: seq<byte>)
  {
    |resp| > 0 && resp[0] == (requestSid + 0x40) % 256
  }

  /** The three outputs of `TryParseNrc`. */
  datatype NrcParse = NrcParse(ok: bool, nrc: Nrc, requestSid: byte)

  /** `TryParseNrc`: a negative response is `7F <request SID> <NRC>`. */
  function TryParseNrc(resp: seq<byte>): (p: NrcParse)
    ensures p.nrc.Valid()
  {
    if |resp| >= 3 && resp[0] == 0x7F then NrcParse(true, OfByte(resp[2]), resp[1])
    else NrcParse(false, OfByte(0), 0)
  }

  /** Parsing succeeds exactly on `7F sid nrc ...` and then reports the two
      bytes; on failure both outputs are 0 (`default`). */
  lemma TryParseNrcContract(resp: seq<byte>)
    ensures var p := TryParseNrc(resp);
      (p.ok <==> |resp| >= 3 && resp[0] == 0x7F)
      && (p.ok ==> Code(p.nrc) == resp[2] && p.requestSid == resp[1])
      && (!p.ok ==> Code(p.nrc) == 0 && p.requestSid == 0)
  {
  }

  /** A negative response built from a request SID and a code parses back
      to both, whatever trails it. */
  lemma NegativeResponseRoundTrip(sid: byte, n: Nrc, trailing: seq<byte>)
    requires n.Valid()
    ensures TryParseNrc([0x7F, sid, Code(n)] + trailing) == NrcParse(true, n, sid)
  {
    CodeRoundTrip(n);
  }

  /** A response can be both "positive" and a parseable negative response
      only for request SID 0x3F, whose SID + 0x40 is 0x7F. */
  lemma PositiveAndNegativeOnlyFor3F(sid: byte, resp: seq<byte>)
    ensures IsPositive(sid, resp) && TryParseNrc(resp).ok <==> sid == 0x3F && |resp| >= 3 && resp[0] == 0x7F
  {
  }
}
