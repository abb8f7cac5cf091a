/** `UdsClient`: three UDS requests of ISO 14229-1 over the ISO-TP client
    (DiagnosticSessionControl 0x10, ReadDataByIdentifier 0x22,
    ClearDiagnosticInformation 0x14) and the "response pending" (NRC 0x78)
    loop that keeps receiving, without resending, while the ECU asks for
    more time. An ISO-TP failure, which the C# code raises as an exception,
    is an `Err` result here. */
module UdsClient {
  import opened Bits
  import opened Wrappers
  import opened CanTransport
  import opened IsoTp
  import opened IsoTpProperties
  import UdsNrc

  /** `UdsRequestOptions` without the timeout and the cancellation token. */
  datatype RequestOptions = RequestOptions(handleResponsePending: bool)

  /** `Ensure`: a missing options record means the defaults, which handle
      response-pending. */
  function Ensure(options: Option<RequestOptions>): (o: RequestOptions)
    ensures options.None? ==> o.handleResponsePending
    ensures options.Some? ==> o == options.value
  {
    if options.Some? then options.value else RequestOptions(true)
  }

  /** `7F sid 78 ...`: the ECU accepted request `sid` and is still busy. */
  predicate IsPending(sid: byte, resp: seq<byte>)
  {
    |resp| >= 3 && resp[0] == 0x7F && resp[1] == sid && resp[2] == 0x78
  }

  /** A pending response is exactly a negative response to `sid` whose
      code is ResponsePending. */
  lemma PendingIsNrc78(sid: byte, resp: seq<byte>)
    ensures IsPending(sid, resp) <==>
      var p := UdsNrc.TryParseNrc(resp);
      p.ok && p.requestSid == sid && p.nrc == UdsNrc.ResponsePending
  {
    if |resp| >= 3 && resp[0] == 0x7F {
      assert UdsNrc.Code(UdsNrc.OfByte(resp[2])) == resp[2];
    }
  }

  /** The pending loop: starting from response `resp`, receive again while
      it is pending for `sid`. A receive failure ends it. */
  function PendingLoop(resp: seq<byte>, sid: byte, events: seq<RxEvent>, rxId: nat): Trace<seq<byte>>
    decreases |events|
  {
    if !IsPending(sid, resp) then Trace(Ok(resp), [], events)
    else
      var t := RecvSpec(events, rxId);
      ReceiveConsumes(events, rxId);
      if t.result.Err? then t
      else Prepend(t.sent, PendingLoop(t.result.value, sid, t.rest, rxId))
  }

  /** Positive response to DiagnosticSessionControl: `50 sub`. */
  predicate SessionAccepted(sub: byte, resp: seq<byte>)
  {
    |resp| >= 2 && resp[0] == 0x50 && resp[1] == sub
  }

  /** Positive response to ClearDiagnosticInformation: `54`. */
  predicate DtcCleared(resp: seq<byte>)
  {
    |resp| >= 1 && resp[0] == 0x54
  }

  /** `ChangeSessionAsync`: one request, one response, no pending loop. */
  function ChangeSessionSpec(sub: byte, events: seq<RxEvent>, rxId: nat): Trace<bool>
  {
    var t := RequestSpec([0x10, sub], events, rxId);
    var accepted := if t.result.Ok? then Ok(SessionAccepted(sub, t.result.value)) else Err(t.result.error);
    Trace(accepted, t.sent, t.rest)
  }

  /** `ReadDidAsync`. */
  /** A request whose response-pending answers are waited out when the
      options ask for it: the shape `ReadDidAsync` and `ClearDtcAsync`
      share. */
  function PendingRequestSpec(payload: seq<byte>, sid: byte, opt: RequestOptions, events: seq<RxEvent>, rxId: nat): Trace<seq<byte>>
  {
    var t := RequestSpec(payload, events, rxId);
    if t.result.Err? || !opt.handleResponsePending then t
    else Prepend(t.sent, PendingLoop(t.result.value, sid, t.rest, rxId))
  }

  function ReadDidSpec(high: byte, low: byte, opt: RequestOptions, events: seq<RxEvent>, rxId: nat): Trace<seq<byte>>
  {
    PendingRequestSpec([0x22, high, low], 0x22, opt, events, rxId)
  }

  /** `ClearDtcAsync` (group of all DTCs, FF FF FF). */
  function ClearDtcSpec(opt: RequestOptions, events: seq<RxEvent>, rxId: nat): Trace<bool>
  {
    var f := PendingRequestSpec([0x14, 0xFF, 0xFF, 0xFF], 0x14, opt, events, rxId);
    var cleared := if f.result.Ok? then Ok(DtcCleared(f.result.value)) else Err(f.result.error);
    Trace(cleared, f.sent, f.rest)
  }

  /** A request of at most 7 bytes goes out as one Single Frame, then the
      response is received. */
  lemma RequestShort(payload: seq<byte>, events: seq<RxEvent>, rxId: nat)
    requires |payload| <= 7
    ensures RequestSpec(payload, events, rxId) == Prepend([SingleFrame(payload)], RecvSpec(events, rxId))
  {
  }

  /** The pending loop returns the first response that is not pending for
      `sid`, so any other response, negative ones included, is returned as
      it is; and it only ever sends Flow Controls, never the request again. */
  lemma {:induction false} PendingLoopFacts(resp: seq<byte>, sid: byte, events: seq<RxEvent>, rxId: nat)
    ensures var t := PendingLoop(resp, sid, events, rxId);
      (t.result.Ok? ==> !IsPending(sid, t.result.value))
      && (forall i :: 0 <= i < |t.sent| ==> t.sent[i] == FlowControlCts)
      && |t.rest| <= |events|
    decreases |events|
  {
    if IsPending(sid, resp) {
      var u := RecvSpec(events, rxId);
      ReceiveConsumes(events, rxId);
      if u.result.Ok? {
        PendingLoopFacts(u.result.value, sid, u.rest, rxId);
      }
    }
  }

  /** The session request is the Single Frame 02 10 sub; the answer is
      "accepted" exactly for a positive response echoing the sub-function,
      and a response-pending answer is not waited out: it reads as "not
      accepted" and nothing more is received. */
  lemma ChangeSessionContract(sub: byte, events: seq<RxEvent>, rxId: nat)
    ensures var t := ChangeSessionSpec(sub, events, rxId); var u := RecvSpec(events, rxId);
      t.sent == [[0x02, 0x10, sub, 0, 0, 0, 0, 0]] + u.sent && t.rest == u.rest
      && t.result == (if u.result.Ok? then Ok(SessionAccepted(sub, u.result.value)) else Err(u.result.error))
    ensures var u := RecvSpec(events, rxId);
      u.result.Ok? && IsPending(0x10, u.result.value) ==> ChangeSessionSpec(sub, events, rxId).result == Ok(false)
  {
    RequestShort([0x10, sub], events, rxId);
    assert SingleFrame([0x10, sub]) == [0x02, 0x10, sub, 0, 0, 0, 0, 0];
  }

  /** Accepting a session is the positive-response test for 0x10 plus the
      echo of the sub-function. */
  lemma SessionAcceptedIsPositive(sub: byte, resp: seq<byte>)
    ensures SessionAccepted(sub, resp) <==> UdsNrc.IsPositive(0x10, resp) && |resp| >= 2 && resp[1] == sub
  {
  }

  /** ReadDataByIdentifier sends 03 22 high low and afterwards only Flow
      Controls; without response-pending handling it returns the first
      response, pending or not; with it, never a pending one. */
  lemma ReadDidContract(high: byte, low: byte, opt: RequestOptions, events: seq<RxEvent>, rxId: nat)
    ensures var t := ReadDidSpec(high, low, opt, events, rxId);
      |t.sent| >= 1 && t.sent[0] == [0x03, 0x22, high, low, 0, 0, 0, 0]
      && (forall i :: 1 <= i < |t.sent| ==> t.sent[i] == FlowControlCts)
    ensures !opt.handleResponsePending ==> ReadDidSpec(high, low, opt, events, rxId) == RequestSpec([0x22, high, low], events, rxId)
    ensures var t := ReadDidSpec(high, low, opt, events, rxId);
      opt.handleResponsePending && t.result.Ok? ==> !IsPending(0x22, t.result.value)
  {
    RequestShort([0x22, high, low], events, rxId);
    assert SingleFrame([0x22, high, low]) == [0x03, 0x22, high, low, 0, 0, 0, 0];
    var u := RecvSpec(events, rxId);
    ReceiveConsumes(events, rxId);
    if u.result.Ok? {
      PendingLoopFacts(u.result.value, 0x22, u.rest, rxId);
    }
  }

  /** A pending answer followed by the real one: the client returns the
      real one, having sent the request once. */
  lemma ReadDidAfterPending(high: byte, low: byte, answer: seq<byte>, tail: seq<RxEvent>, rxId: nat)
    requires |answer| <= 7 && !IsPending(0x22, answer)
    ensures ReadDidSpec(high, low, RequestOptions(true),
        Deliver(rxId, [SingleFrame([0x7F, 0x22, 0x78]), SingleFrame(answer)]) + tail, rxId)
      == Trace(Ok(answer), [SingleFrame([0x22, high, low])], tail)
  {
    var later := Deliver(rxId, [SingleFrame(answer)]) + tail;
    assert Deliver(rxId, [SingleFrame([0x7F, 0x22, 0x78]), SingleFrame(answer)]) + tail
      == Deliver(rxId, Segments([0x7F, 0x22, 0x78])) + later;
    var events := Deliver(rxId, Segments([0x7F, 0x22, 0x78])) + later;
    RoundTrip([0x7F, 0x22, 0x78], later, rxId);
    assert later == Deliver(rxId, Segments(answer)) + tail;
    RoundTrip(answer, tail, rxId);
    RequestShort([0x22, high, low], events, rxId);
    assert PendingLoop(answer, 0x22, tail, rxId) == Trace(Ok(answer), [], tail);
    assert PendingLoop([0x7F, 0x22, 0x78], 0x22, later, rxId) == Trace(Ok(answer), [], tail);
  }

  /** ClearDiagnosticInformation sends 04 14 FF FF FF, loops only on
      7F 14 78 and reports success exactly for a positive response. */
  lemma ClearDtcContract(opt: RequestOptions, events: seq<RxEvent>, rxId: nat)
    ensures var t := ClearDtcSpec(opt, events, rxId);
      |t.sent| >= 1 && t.sent[0] == [0x04, 0x14, 0xFF, 0xFF, 0xFF, 0, 0, 0]
      && (forall i :: 1 <= i < |t.sent| ==> t.sent[i] == FlowControlCts)
    ensures var u := RecvSpec(events, rxId);
      u.result.Ok? && !IsPending(0x14, u.result.value) ==>
        ClearDtcSpec(opt, events, rxId)
          == Trace(Ok(DtcCleared(u.result.value)), [SingleFrame([0x14, 0xFF, 0xFF, 0xFF])] + u.sent, u.rest)
  {
    RequestShort([0x14, 0xFF, 0xFF, 0xFF], events, rxId);
    assert SingleFrame([0x14, 0xFF, 0xFF, 0xFF]) == [0x04, 0x14, 0xFF, 0xFF, 0xFF, 0, 0, 0];
    var u := RecvSpec(events, rxId);
    ReceiveConsumes(events, rxId);
    if u.result.Ok? {
      PendingLoopFacts(u.result.value, 0x14, u.rest, rxId);
      assert u.sent + [] == u.sent;
    }
  }

  /** Clearing succeeded exactly when the final response is positive for
      0x14. */
  lemma DtcClearedIsPositive(resp: seq<byte>)
    ensures DtcCleared(resp) <==> UdsNrc.IsPositive(0x14, resp)
  {
  }

  /** One turn of the pending loop, with the frames `acc` sent so far and
      `whole` the loop's trace from its start: a failed receive ends the
      loop with its error, a successful one continues from its response. */
  lemma PendingStep(acc: seq<seq<byte>>, resp: seq<byte>, sid: byte, events: seq<RxEvent>, rxId: nat, whole: Trace<seq<byte>>)
    requires IsPending(sid, resp)
    requires Prepend(acc, PendingLoop(resp, sid, events, rxId)) == whole
    ensures var t := RecvSpec(events, rxId);
      (t.result.Err? ==> whole == Trace(t.result, acc + t.sent, t.rest))
      && (t.result.Ok? ==>
            (Prepend(acc + t.sent, PendingLoop(t.result.value, sid, t.rest, rxId)) == whole
             && |t.rest| < |events|))
  {
    var t := RecvSpec(events, rxId);
    ReceiveConsumes(events, rxId);
    if t.result.Ok? {
      PrependPrepend(acc, t.sent, PendingLoop(t.result.value, sid, t.rest, rxId));
    }
  }

  /** A response that is not pending ends the loop with it. */
  lemma PendingDone(acc: seq<seq<byte>>, resp: seq<byte>, sid: byte, events: seq<RxEvent>, rxId: nat)
    requires !IsPending(sid, resp)
    ensures Prepend(acc, PendingLoop(resp, sid, events, rxId)) == Trace(Ok(resp), acc, events)
  {
    assert acc + [] == acc;
  }

  /** With response-pending handling on and a request that got an answer,
      the pending loop starts from that answer. */
  lemma PendingRequestLoops(payload: seq<byte>, sid: byte, opt: RequestOptions, events: seq<RxEvent>, rxId: nat)
    requires RequestSpec(payload, events, rxId).result.Ok? && opt.handleResponsePending
    ensures var t := RequestSpec(payload, events, rxId);
      PendingRequestSpec(payload, sid, opt, events, rxId)
      == Prepend(t.sent, PendingLoop(t.result.value, sid, t.rest, rxId))
  {
  }

  class Client {
    const iso: IsoTpClient

    constructor (iso: IsoTpClient)
      ensures this.iso == iso
    {
      this.iso := iso;
    }

    method ChangeSession(session: byte, options: Option<RequestOptions>) returns (r: Result<bool, TpError>)
      modifies iso.can
      ensures var t := ChangeSessionSpec(session, old(iso.can.incoming), iso.rxId);
        r == t.result && iso.can.incoming == t.rest && iso.can.sent == old(iso.can.sent) + Tagged(iso.txId, t.sent)
    {
      var resp := iso.RequestAsync([0x10, session]);
      if resp.Err? {
        return Err(resp.error);
      }
      return Ok(|resp.value| >= 2 && resp.value[0] == 0x50 && resp.value[1] == session);
    }

    method ReadDid(high: byte, low: byte, options: Option<RequestOptions>) returns (r: Result<seq<byte>, TpError>)
      modifies iso.can
      ensures var t := ReadDidSpec(high, low, Ensure(options), old(iso.can.incoming), iso.rxId);
        r == t.result && iso.can.incoming == t.rest && iso.can.sent == old(iso.can.sent) + Tagged(iso.txId, t.sent)
    {
      r := RequestWithPending([0x22, high, low], 0x22, Ensure(options));
    }

    method ClearDtc(options: Option<RequestOptions>) returns (r: Result<bool, TpError>)
      modifies iso.can
      ensures var t := ClearDtcSpec(Ensure(options), old(iso.can.incoming), iso.rxId);
        r == t.result && iso.can.incoming == t.rest && iso.can.sent == old(iso.can.sent) + Tagged(iso.txId, t.sent)
    {
      var resp := RequestWithPending([0x14, 0xFF, 0xFF, 0xFF], 0x14, Ensure(options));
      if resp.Err? {
        return Err(resp.error);
      }
      return Ok(|resp.value| >= 1 && resp.value[0] == 0x54);
    }

    /** Send the request, then, if the options ask for it, keep receiving
        while the answer is response-pending for `sid`. */
    method RequestWithPending(payload: seq<byte>, sid: byte, opt: RequestOptions) returns (r: Result<seq<byte>, TpError>)
      modifies iso.can
      ensures var t := PendingRequestSpec(payload, sid, opt, old(iso.can.incoming), iso.rxId);
        r == t.result && iso.can.incoming == t.rest && iso.can.sent == old(iso.can.sent) + Tagged(iso.txId, t.sent)
    {
      ghost var t := RequestSpec(payload, old(iso.can.incoming), iso.rxId);
      var resp := iso.RequestAsync(payload);
      if resp.Err? || !opt.handleResponsePending {
        return resp;
      }
      PendingRequestLoops(payload, sid, opt, old(iso.can.incoming), iso.rxId);
      ghost var sentMid := iso.can.sent;
      r := ReceiveWhilePending(sid, resp.value);
      ghost var p := PendingLoop(t.result.value, sid, t.rest, iso.rxId);
      SentInStages(old(iso.can.sent), sentMid, iso.can.sent, iso.txId, t.sent, p.sent);
    }

    /** The `while (7F sid 78) resp = ReceiveOnlyAsync()` loop shared by
        `ReadDidAsync` and `ClearDtcAsync`. */
    method ReceiveWhilePending(sid: byte, first: seq<byte>) returns (r: Result<seq<byte>, TpError>)
      modifies iso.can
      ensures var t := PendingLoop(first, sid, old(iso.can.incoming), iso.rxId);
        r == t.result && iso.can.incoming == t.rest && iso.can.sent == old(iso.can.sent) + Tagged(iso.txId, t.sent)
    {
      var resp := first;
      ghost var acc: seq<seq<byte>> := [];
      assert acc + PendingLoop(first, sid, iso.can.incoming, iso.rxId).sent
        == PendingLoop(first, sid, iso.can.incoming, iso.rxId).sent;
      while |resp| >= 3 && resp[0] == 0x7F && resp[1] == sid && resp[2] == 0x78
        invariant Prepend(acc, PendingLoop(resp, sid, iso.can.incoming, iso.rxId))
          == PendingLoop(first, sid, old(iso.can.incoming), iso.rxId)
        invariant iso.can.sent == old(iso.can.sent) + Tagged(iso.txId, acc)
        decreases |iso.can.incoming|
      {
        ghost var before := iso.can.incoming;
        ghost var t := RecvSpec(before, iso.rxId);
        PendingStep(acc, resp, sid, before, iso.rxId, PendingLoop(first, sid, old(iso.can.incoming), iso.rxId));
        ghost var sentBefore := iso.can.sent;
        var next := iso.ReceiveOnlyAsync();
        SentInStages(old(iso.can.sent), sentBefore, iso.can.sent, iso.txId, acc, t.sent);
        if next.Err? {
          return Err(next.error);
        }
        acc := acc + t.sent;
        resp := next.value;
      }
      PendingDone(acc, resp, sid, iso.can.incoming, iso.rxId);
      return Ok(resp);
    }
  }
}
