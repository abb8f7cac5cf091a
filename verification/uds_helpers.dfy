/** `UdsHelpers`: a second copy of the response classifiers and of the NRC
    name table, written against the named members of the canonical `Nrc`. */
module UdsHelpers {
  import opened Bits
  import opened UdsNrc

  predicate IsPositive(requestSid: byte, resp: seq<byte>)
  {
    |resp| > 0 && resp[0] == (requestSid + 0x40) % 256
  }

  function TryParseNrc(resp: seq<byte>): NrcParse
  {
    if |resp| >= 3 && resp[0] == 0x7F then NrcParse(true, OfByte(resp[2]), resp[1])
    else NrcParse(false, OfByte(0), 0)
  }

  /** `UdsHelpers.AsString`: a switch on the named members. */
  function AsString(n: Nrc): string
  {
    match n
    case GeneralReject => "GeneralReject (0x10)"
    case ServiceNotSupported => "ServiceNotSupported (0x11)"
    case SubFunctionNotSupported => "SubFunctionNotSupported (0x12)"
    case IncorrectMessageLength => "IncorrectMessageLength (0x13)"
    case BusyRepeatRequest => "BusyRepeatRequest (0x21)"
    case ConditionsNotCorrect => "ConditionsNotCorrect (0x22)"
    case RequestSequenceError => "RequestSequenceError (0x24)"
    case RequestOutOfRange => "RequestOutOfRange (0x31)"
    case SecurityAccessDenied => "SecurityAccessDenied (0x33)"
    case InvalidKey => "InvalidKey (0x35)"
    case ExceededNumberOfAttempts => "ExceededNumberOfAttempts (0x36)"
    case RequiredTimeDelayNotExpired => "RequiredTimeDelayNotExpired (0x37)"
    case ResponsePending => "ResponsePending (0x78)"
    case SubFunctionNotSupportedInActiveSession => "SubFunctionNotSupportedInActiveSession (0x7E)"
    case ServiceNotSupportedInActiveSession => "ServiceNotSupportedInActiveSession (0x7F)"
    case Unlisted(c) => UnknownName(c)
  }

  /** The two `IsPositive` copies agree on every input. */
  lemma SameIsPositive(requestSid: byte, resp: seq<byte>)
    ensures IsPositive(requestSid, resp) == UdsNrc.IsPositive(requestSid, resp)
  {
  }

  /** The two `TryParseNrc` copies agree on every input. */
  lemma SameTryParseNrc(resp: seq<byte>)
    ensures TryParseNrc(resp) == UdsNrc.TryParseNrc(resp)
  {
  }

  /** The two name tables agree on every `UdsNrc` value, including the
      "Unknown NRC (0xXX)" fallback. */
  lemma SameAsString(n: Nrc)
    requires n.Valid()
    ensures AsString(n) == UdsNrc.AsString(n)
  {
    if n.Unlisted? {
      SameUnknown(n.code);
    } else {
      SameListed(n);
    }
  }

  lemma SameUnknown(c: byte)
    requires !IsListed(c)
    ensures AsString(Unlisted(c)) == UdsNrc.AsString(Unlisted(c))
  {
  }

  lemma SameListed(n: Nrc)
    requires !n.Unlisted?
    ensures AsString(n) == UdsNrc.AsString(n)
  {
    if n.GeneralReject? || n.ServiceNotSupported? || n.SubFunctionNotSupported? {
      SameListed1(n);
    } else if n.IncorrectMessageLength? || n.BusyRepeatRequest? || n.ConditionsNotCorrect? {
      SameListed2(n);
    } else if n.RequestSequenceError? || n.RequestOutOfRange? || n.SecurityAccessDenied? {
      SameListed3(n);
    } else if n.InvalidKey? || n.ExceededNumberOfAttempts? || n.RequiredTimeDelayNotExpired? {
      SameListed4(n);
    } else {
      SameListed5(n);
    }
  }

  lemma SameListed1(n: Nrc)
    requires n.GeneralReject? || n.ServiceNotSupported? || n.SubFunctionNotSupported?
    ensures AsString(n) == UdsNrc.AsString(n)
  {
  }

  lemma SameListed2(n: Nrc)
    requires n.IncorrectMessageLength? || n.BusyRepeatRequest? || n.ConditionsNotCorrect?
    ensures AsString(n) == UdsNrc.AsString(n)
  {
  }

  lemma SameListed3(n: Nrc)
    requires n.RequestSequenceError? || n.RequestOutOfRange? || n.SecurityAccessDenied?
    ensures AsString(n) == UdsNrc.AsString(n)
  {
  }

  lemma SameListed4(n: Nrc)
    requires n.InvalidKey? || n.ExceededNumberOfAttempts? || n.RequiredTimeDelayNotExpired?
    ensures AsString(n) == UdsNrc.AsString(n)
  {
  }

  lemma SameListed5(n: Nrc)
    requires n.ResponsePending? || n.SubFunctionNotSupportedInActiveSession? || n.ServiceNotSupportedInActiveSession?
    ensures AsString(n) == UdsNrc.AsString(n)
  {
  }
}
