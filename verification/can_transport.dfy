/** The CAN transport seen by the ISO-TP client (`ICanTransport`): frames go
    out through `SendAsync` and come in through `ReceiveAsync`, which waits
    for a frame with the expected identifier, drops frames with any other
    identifier, and throws `TimeoutException` when nothing suitable arrives.
    The driver behind it is replaced by a scripted queue of bus events and a
    log of sent frames. */
module CanTransport {
  import opened Bits
  import opened Wrappers

  datatype Frame = Frame(id: nat, data: seq<byte>)

  /** What the bus offers next: a frame, or a quiet period long enough for
      the pending receive to time out. */
  datatype RxEvent = Arrive(frame: Frame) | Silence

  /** Outcome of one receive: the data of the frame taken, or a timeout;
      either way, what is left of the event queue. */
  datatype Delivery = Got(data: seq<byte>, rest: seq<RxEvent>) | TimedOut(rest: seq<RxEvent>)

  /** Events are only consumed from the front: what is left is a suffix. */
  predicate IsSuffix(rest: seq<RxEvent>, events: seq<RxEvent>)
  {
    |rest| <= |events| && rest == events[|events| - |rest|..]
  }

  /** The receive contract of `ICanTransport`: skip frames for other
      identifiers, deliver the first one for `id`, time out on a quiet bus. */
  function Await(events: seq<RxEvent>, id: nat): (d: Delivery)
    ensures |d.rest| <= |events|
    ensures d.Got? ==> |d.rest| < |events|
    decreases |events|
  {
    if |events| == 0 then TimedOut([])
    else match events[0]
      case Silence => TimedOut(events[1..])
      case Arrive(f) =>
        if f.id == id then Got(f.data, events[1..]) else Await(events[1..], id)
  }

  /** A receive only consumes events from the front of the queue, and what
      it delivers is the data of a frame for `id` that was on the bus. */
  lemma {:induction false} AwaitTakesFromFront(events: seq<RxEvent>, id: nat)
    ensures IsSuffix(Await(events, id).rest, events)
    ensures Await(events, id).Got? ==> Arrive(Frame(id, Await(events, id).data)) in events
    decreases |events|
  {
    if |events| > 0 && events[0].Arrive? && events[0].frame.id != id {
      AwaitTakesFromFront(events[1..], id);
      var d := Await(events[1..], id);
      assert events[1..][|events[1..]| - |d.rest|..] == events[|events| - |d.rest|..];
      if d.Got? {
        assert Arrive(Frame(id, d.data)) in events[1..];
      }
    }
  }

  /** A frame for `id` at the head of the queue is delivered at once. */
  lemma AwaitHead(f: seq<byte>, id: nat, tail: seq<RxEvent>)
    ensures Await([Arrive(Frame(id, f))] + tail, id) == Got(f, tail)
  {
    assert ([Arrive(Frame(id, f))] + tail)[1..] == tail;
  }

  /** Frames for other identifiers in front of the awaited one are dropped. */
  lemma {:induction false} AwaitSkipsOthers(others: seq<Frame>, id: nat, tail: seq<RxEvent>)
    requires forall i :: 0 <= i < |others| ==> others[i].id != id
    ensures Await(Arrivals(others) + tail, id) == Await(tail, id)
    decreases |others|
  {
    if |others| > 0 {
      var es := Arrivals(others) + tail;
      assert Arrivals(others) == [Arrive(others[0])] + Arrivals(others[1..]);
      assert es[0] == Arrive(others[0]);
      assert es[1..] == Arrivals(others[1..]) + tail;
      assert Await(es, id) == Await(es[1..], id);
      AwaitSkipsOthers(others[1..], id, tail);
    } else {
      assert Arrivals(others) + tail == tail;
    }
  }

  /** The events of a run of frames arriving back to back. */
  function Arrivals(frames: seq<Frame>): (es: seq<RxEvent>)
    ensures |es| == |frames|
    ensures forall i :: 0 <= i < |frames| ==> es[i] == Arrive(frames[i])
  {
    if |frames| == 0 then [] else [Arrive(frames[0])] + Arrivals(frames[1..])
  }

  /** The driver stand-in: what the bus will offer, and what was sent. */
  class ScriptedTransport {
    var incoming: seq<RxEvent>
    var sent: seq<Frame>

    constructor (script: seq<RxEvent>)
      ensures incoming == script && sent == []
    {
      incoming := script;
      sent := [];
    }

    /** `SendAsync`: the frame is appended to the bus log. */
    method Send(id: nat, data: seq<byte>)
      modifies this
      ensures sent == old(sent) + [Frame(id, data)]
      ensures incoming == old(incoming)
    {
      sent := sent + [Frame(id, data)];
    }

    /** `ReceiveAsync(expected, timeout)`: polls the bus, dropping frames
        for other identifiers; `None` stands for the thrown timeout. */
    method Receive(expected: nat) returns (r: Option<seq<byte>>)
      modifies this
      ensures var d := Await(old(incoming), expected);
        incoming == d.rest && (r.Some? <==> d.Got?) && (r.Some? ==> r.value == d.data)
      ensures sent == old(sent)
    {
      while true
        invariant Await(incoming, expected) == Await(old(incoming), expected)
        invariant sent == old(sent)
        decreases |incoming|
      {
        if |incoming| == 0 {
          return None;
        }
        var head := incoming[0];
        incoming := incoming[1..];
        match head {
          case Silence =>
            return None;
          case Arrive(f) =>
            if f.id == expected {
              return Some(f.data);
            }
        }
      }
    }
  }
}
