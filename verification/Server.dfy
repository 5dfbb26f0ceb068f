/**
 `ServerImpl`: the receive loop, dispatching a request to its service, and the reply. Nothing on this
 path catches: an exception thrown by a service leaves `DispatchMsg` and the receive loop.
 */
module Server {
  import opened Prelude
  import opened Headers
  import opened Reassembly
  import opened Framing

  /**
   How `IService::CallMethod` ends: without a message, with a message, with one whose own
   serialisation fails, or by throwing.
   */
  datatype Answer = NoMessage | Message(content: bytes) | Unserializable | Throws

  type Service = (bytes, bytes) -> Answer

  /** `GetService` and `GetMethod`: an Hprose header always names the one Hprose service. */
  const HPROSE_NAME: bytes := [104, 112, 114, 111, 115, 101]

  function ServiceName(h: Head): bytes {
    if h.Ucorf? then h.service else HPROSE_NAME
  }

  function MethodName(h: Head): bytes {
    if h.Ucorf? then h.method_ else []
  }

  /** `GetType() != oneway_request`; an Hprose header always reports a request. */
  predicate WantsReply(h: Head) {
    h.Ucorf? ==> h.calltype != ONEWAY_REQUEST
  }

  function ReplyFrame(h: Head, content: bytes): Frame {
    var (service, method_) := if h.Ucorf? then (h.service, h.method_) else ([], []);
    Frame(MakeHead(h.Kind(), h.callid, RESPONSE, service, method_, |content|), content)
  }

  /**
   What a client parses back from a reply, whatever follows it on the wire: the request's id and
   names, the type of a response, and the whole message.
   */
  lemma ReplyReadsBack(h: Head, content: bytes, rest: bytes)
    requires NamesFit(h) && |content| < TWO_32
    ensures var reply := FrameBytes(ReplyFrame(h, content));
            var next := OnWire(h.Kind())(reply + rest);
            && next.One? && next.size == |reply|
            && next.frame.body == content && next.frame.head.callid == h.callid
            && ServiceName(next.frame.head) == ServiceName(h) && MethodName(next.frame.head) == MethodName(h)
            && (h.Ucorf? ==> next.frame.head.calltype == RESPONSE)
  {
    hide FrameBytes, OnWire;
    SentFrameIsNext(h.Kind(), ReplyFrame(h, content), rest);
  }

  /** What the services make of a frame; None when nobody serves it. */
  function AnswerTo(services: map<bytes, Service>, f: Frame): Option<Answer> {
    if !Known(services, f) then None else Some(services[ServiceName(f.head)](MethodName(f.head), f.body))
  }

  /** The frames sent back for one request. */
  function RepliesTo(services: map<bytes, Service>, f: Frame): seq<Frame> {
    match AnswerTo(services, f)
    case Some(Message(content)) => if WantsReply(f.head) then [ReplyFrame(f.head, content)] else []
    case _ => []
  }

  predicate Known(services: map<bytes, Service>, f: Frame) {
    ServiceName(f.head) in services
  }

  /** The request has a service and the service returns. */
  predicate Servable(services: map<bytes, Service>, f: Frame) {
    Known(services, f) && !AnswerTo(services, f).value.Throws?
  }

  // ---- What one request comes to ----

  /**
   A Ucorf request gets its service's message back, under its id and names and with type 2, unless its type
   byte is 1, its service is unknown or the service has no message.
   */
  lemma UcorfReplies(services: map<bytes, Service>, f: Frame)
    requires f.head.Ucorf?
    ensures var Ucorf(calltype, callid, _, service, method_) := f.head;
            RepliesTo(services, f) ==
              if calltype == 1 || service !in services then []
              else
                match services[service](method_, f.body)
                case Message(m) => [Frame(Ucorf(2, callid, |m| % 0x1_0000_0000, service, method_), m)]
                case _ => []
  {
  }

  /** An Hprose request always wants its answer, and always from the service named "hprose". */
  lemma HproseReplies(services: map<bytes, Service>, f: Frame)
    requires f.head.Hprose?
    ensures var name := [104, 112, 114, 111, 115, 101];
            RepliesTo(services, f) ==
              if name !in services then []
              else
                match services[name]([], f.body)
                case Message(m) => [Frame(Hprose(f.head.callid, |m| % 0x1_0000_0000), m)]
                case _ => []
  {
  }

  /** A request ends the loop by name when its service is unknown and by exception when its service throws. */
  lemma TurnExactly(services: map<bytes, Service>, f: Frame)
    ensures var name := if f.head.Ucorf? then f.head.service else [104, 112, 114, 111, 115, 101];
            var method_ := if f.head.Ucorf? then f.head.method_ else [];
            && (TurnOf(services, f) == Unknown <==> name !in services)
            && (TurnOf(services, f) == Threw <==> name in services && services[name](method_, f.body) == Throws)
            && (Servable(services, f) <==> TurnOf(services, f) == Completed)
  {
  }

  /** The requests that are owed an answer: all but Ucorf requests with type byte 1. */
  function TwoWay(frames: seq<Frame>): seq<Frame> {
    if frames == [] then []
    else
      var f := frames[|frames| - 1];
      TwoWay(frames[..|frames| - 1]) + if f.head.Ucorf? && f.head.calltype == 1 then [] else [f]
  }

  /** What a server gets done of a list of requests: those before the first it cannot serve. */
  function Served(services: map<bytes, Service>, all: seq<Frame>): (done: seq<Frame>)
    ensures |done| <= |all|
  {
    if all == [] || !Servable(services, all[0]) then [] else [all[0]] + Served(services, all[1..])
  }

  predicate AllServable(services: map<bytes, Service>, frames: seq<Frame>) {
    Served(services, frames) == frames
  }

  /** The served part is the longest front of servable requests. */
  lemma {:induction false} ServedExactly(services: map<bytes, Service>, all: seq<Frame>, done: seq<Frame>)
    ensures done == Served(services, all) <==>
            && done <= all && (forall f :: f in done ==> Servable(services, f))
            && (done != all ==> !Servable(services, all[|done|]))
  {
    if all != [] && Servable(services, all[0]) {
      if done != [] {
        ServedExactly(services, all[1..], done[1..]);
        HeadAndRest(done);
        HeadAndRest(all);
      }
    }
  }

  lemma {:induction false} ServedAppend(services: map<bytes, Service>, a: seq<Frame>, b: seq<Frame>)
    ensures Served(services, a + b) ==
              if AllServable(services, a) then a + Served(services, b) else Served(services, a)
  {
    if a == [] {
      assert a + b == b;
    } else {
      HeadAndRest(a);
      assert (a + b)[1..] == a[1..] + b;
      ServedAppend(services, a[1..], b);
      Regrouped([a[0]], a[1..], Served(services, b));
    }
  }

  lemma ServedOneMore(services: map<bytes, Service>, seen: seq<Frame>, f: Frame)
    requires AllServable(services, seen)
    ensures Servable(services, f) ==> AllServable(services, seen + [f])
    ensures !Servable(services, f) ==> forall more :: Served(services, seen + [f] + more) == seen
  {
    ServedAppend(services, seen, [f]);
    if !Servable(services, f) {
      forall more: seq<Frame>
        ensures Served(services, seen + [f] + more) == seen
      {
        ServedAppend(services, seen + [f], more);
        assert seen + [] == seen;
      }
    }
  }

  /** Everything sent back for a list of requests. */
  function Replies(services: map<bytes, Service>, frames: seq<Frame>): seq<Frame>
  {
    if frames == [] then []
    else Replies(services, frames[..|frames| - 1]) + RepliesTo(services, frames[|frames| - 1])
  }

  /** One-way requests leave no trace in what is sent back. */
  lemma {:induction false} OneWaySilent(services: map<bytes, Service>, frames: seq<Frame>)
    ensures Replies(services, frames) == Replies(services, TwoWay(frames))
  {
    if frames != [] {
      var k := |frames| - 1;
      var f := frames[k];
      hide RepliesTo;
      OneWaySilent(services, frames[..k]);
      if f.head.Ucorf? && f.head.calltype == 1 {
        UcorfReplies(services, f);
        assert Replies(services, frames) == Replies(services, frames[..k]) && TwoWay(frames) == TwoWay(frames[..k]);
      } else {
        assert TwoWay(frames)[..|TwoWay(frames)| - 1] == TwoWay(frames[..k]);
      }
    }
  }

  /** When its service has a message for every two-way request, each gets exactly one reply, in order. */
  lemma {:induction false} TwoWayAnswered(services: map<bytes, Service>, frames: seq<Frame>)
    requires forall f :: f in TwoWay(frames) ==> AnswerTo(services, f).Some? && AnswerTo(services, f).value.Message?
    ensures var replies, asked := Replies(services, frames), TwoWay(frames);
            && |replies| == |asked|
            && forall i :: 0 <= i < |asked| ==>
                 replies[i].head.callid == asked[i].head.callid
                 && AnswerTo(services, asked[i]) == Some(Message(replies[i].body))
  {
    if frames != [] {
      var k := |frames| - 1;
      var f := frames[k];
      assert f in TwoWay(frames) || TwoWay(frames) == TwoWay(frames[..k]);
      TwoWayAnswered(services, frames[..k]);
      hide AnswerTo, Replies;
      assert Replies(services, frames) == Replies(services, frames[..k]) + RepliesTo(services, f) by {
        RepliesLast(services, frames);
      }
    }
  }

  lemma RepliesLast(services: map<bytes, Service>, frames: seq<Frame>)
    requires frames != []
    ensures Replies(services, frames) ==
              Replies(services, frames[..|frames| - 1]) + RepliesTo(services, frames[|frames| - 1])
  {
  }

  /** How the handling of one request ends: `true`, `false`, or an escaping exception. */
  datatype Turn = Completed | Unknown | Threw

  function TurnOf(services: map<bytes, Service>, f: Frame): Turn {
    if !Known(services, f) then Unknown else if !Servable(services, f) then Threw else Completed
  }

  /** How the receive loop ends: the bytes consumed, -1, or an escaping exception. */
  datatype Ending = Consumed(size: nat) | Refused | Escaped

  function EndingOf(services: map<bytes, Service>, all: seq<Frame>, done: seq<Frame>, size: nat): Ending {
    if |done| >= |all| then Consumed(size)
    else if Known(services, all[|done|]) then Escaped
    else Refused
  }

  /** One session of a server: the requests whose services returned and what was sent back, in order. */
  class ServerImpl {
    const kind: Kind
    const services: map<bytes, Service>
    var dispatched: seq<Frame>
    var sent: bytes

    constructor (kind: Kind, services: map<bytes, Service>)
      ensures this.kind == kind && this.services == services && dispatched == [] && sent == []
    {
      this.kind, this.services := kind, services;
      dispatched, sent := [], [];
    }

    method SendReply(h: Head, content: bytes)
      requires h.Kind() == kind
      modifies this`sent
      ensures sent == old(sent) + FrameBytes(ReplyFrame(h, content))
    {
      var (service, method_) := if h.Ucorf? then (h.service, h.method_) else ([], []);
      var buf := BuildMessage(kind, h.callid, RESPONSE, service, method_, content);
      sent := sent + buf[..];
    }

    method DispatchMsg(h: Head, data: bytes) returns (turn: Turn)
      requires h.Kind() == kind
      modifies this
      ensures turn == TurnOf(services, Frame(h, data))
      ensures dispatched == old(dispatched) + if turn == Completed then [Frame(h, data)] else []
      ensures sent == old(sent) + if turn == Completed then StreamBytes(RepliesTo(services, Frame(h, data))) else []
      ensures h.Ucorf? && h.calltype == 1 ==> sent == old(sent)
    {
      var name := ServiceName(h);
      if name !in services {
        return Unknown;
      }
      var response := services[name](MethodName(h), data);
      if response.Throws? {
        return Threw;
      }
      dispatched := dispatched + [Frame(h, data)];
      if response.Message? && WantsReply(h) {
        SendReply(h, response.content);
        StreamOfOne(ReplyFrame(h, response.content));
      }
      return Completed;
    }

    /** Serves the frames of the buffer up to the first that cannot be served. */
    method OnReceiveData(data: bytes) returns (ending: Ending)
      modifies this
      ensures var all := TakenFrames(kind, data);
              var done := Served(services, all);
              && dispatched == old(dispatched) + done
              && sent == old(sent) + StreamBytes(Replies(services, done))
              && ending == EndingOf(services, all, done, TakenBytes(kind, data))
    {
      hide *;
      var consume := 0;
      ghost var seen: seq<Frame>, ends: seq<nat> := [], [0];
      SessionStarts(services, kind, data);
      while consume < |data|
        invariant 0 <= consume <= |data|
        invariant Trace(Taken(kind), data, seen, ends) && |ends| == |seen| + 1 && ends[|seen|] == consume
        invariant AllServable(services, seen)
        invariant dispatched == old(dispatched) + seen
        invariant sent == old(sent) + StreamBytes(Replies(services, seen))
        decreases |data| - consume
      {
        var next := TakeFrame(kind, data, consume);
        if next.Wait? {
          break;
        }
        var turn := DispatchMsg(next.frame.head, next.frame.body);
        if turn != Completed {
          LoopStops(services, kind, data, seen, ends, next.frame, consume + next.size, turn);
          return if turn == Threw then Escaped else Refused;
        }
        TurnServed(services, kind, data, seen, ends, next.frame, consume + next.size);
        seen, ends := seen + [next.frame], ends + [consume + next.size];
        consume := consume + next.size;
      }
      LoopComplete(kind, data, seen, ends);
      AllServed(services, seen, consume);
      ending := Consumed(consume);
    }
  }

  lemma SessionStarts(services: map<bytes, Service>, kind: Kind, data: bytes)
    ensures Trace(Taken(kind), data, [], [0]) && AllServable(services, [])
    ensures StreamBytes(Replies(services, [])) == []
  {
  }

  lemma AllServed(services: map<bytes, Service>, all: seq<Frame>, size: nat)
    requires AllServable(services, all)
    ensures Served(services, all) == all && EndingOf(services, all, all, size) == Consumed(size)
  {
  }

  lemma TurnServed(services: map<bytes, Service>, kind: Kind, data: bytes, seen: seq<Frame>, ends: seq<nat>,
                   f: Frame, end: nat)
    requires Trace(Taken(kind), data, seen, ends) && TakenAt(Taken(kind), data, ends[|seen|], f, end)
    requires AllServable(services, seen) && TurnOf(services, f) == Completed
    ensures Trace(Taken(kind), data, seen + [f], ends + [end]) && |ends| == |seen| + 1
    ensures AllServable(services, seen + [f])
    ensures StreamBytes(Replies(services, seen + [f])) ==
              StreamBytes(Replies(services, seen)) + StreamBytes(RepliesTo(services, f))
  {
    TraceOneMore(Taken(kind), data, seen, ends, f, end);
    ServedOneMore(services, seen, f);
    RepliesOneMore(services, seen, f);
  }

  /** The request that ends the loop: everything before it has been served and nothing after it will be. */
  lemma LoopStops(services: map<bytes, Service>, kind: Kind, data: bytes, seen: seq<Frame>, ends: seq<nat>,
                  f: Frame, end: nat, turn: Turn)
    requires Trace(Taken(kind), data, seen, ends) && TakenAt(Taken(kind), data, ends[|seen|], f, end)
    requires AllServable(services, seen) && turn == TurnOf(services, f) != Completed
    ensures Served(services, TakenFrames(kind, data)) == seen
    ensures EndingOf(services, TakenFrames(kind, data), seen, TakenBytes(kind, data)) ==
              if turn == Threw then Escaped else Refused
  {
    hide *;
    TraceOneMore(Taken(kind), data, seen, ends, f, end);
    LoopPrefix(kind, data, seen + [f], ends + [end]);
    var all := TakenFrames(kind, data);
    assert all == seen + [f] + all[|seen| + 1..];
    EndsAt(services, seen, f, all[|seen| + 1..], TakenBytes(kind, data));
  }

  lemma EndsAt(services: map<bytes, Service>, seen: seq<Frame>, f: Frame, more: seq<Frame>, size: nat)
    requires AllServable(services, seen) && TurnOf(services, f) != Completed
    ensures var all := seen + [f] + more;
            && Served(services, all) == seen
            && EndingOf(services, all, seen, size) == if TurnOf(services, f) == Threw then Escaped else Refused
  {
    ServedOneMore(services, seen, f);
    hide Served;
    assert (seen + [f] + more)[|seen|] == f;
  }

  lemma StreamOfOne(f: Frame)
    ensures StreamBytes([f]) == FrameBytes(f)
  {
    assert StreamBytes([f]) == FrameBytes(f) + StreamBytes([]);
  }

  lemma {:induction false} StreamBytesAppend(a: seq<Frame>, b: seq<Frame>)
    ensures StreamBytes(a + b) == StreamBytes(a) + StreamBytes(b)
  {
    if a == [] {
      assert a + b == b;
    } else {
      assert (a + b)[1..] == a[1..] + b;
      StreamBytesAppend(a[1..], b);
    }
  }

  lemma RepliesOneMore(services: map<bytes, Service>, seen: seq<Frame>, f: Frame)
    ensures StreamBytes(Replies(services, seen + [f])) ==
              StreamBytes(Replies(services, seen)) + StreamBytes(RepliesTo(services, f))
  {
    assert (seen + [f])[..|seen|] == seen;
    StreamBytesAppend(Replies(services, seen), RepliesTo(services, f));
  }

  lemma {:induction false} RepliesAppend(services: map<bytes, Service>, a: seq<Frame>, b: seq<Frame>)
    ensures Replies(services, a + b) == Replies(services, a) + Replies(services, b)
  {
    if b == [] {
      assert a + b == a;
    } else {
      var k := |b| - 1;
      assert (a + b)[..|a + b| - 1] == a + b[..k];
      RepliesAppend(services, a, b[..k]);
    }
  }

  /** Every frame sent back is a reply to one of the requests. */
  lemma {:induction false} ReplyToOne(services: map<bytes, Service>, frames: seq<Frame>, r: Frame) returns (f: Frame)
    requires r in Replies(services, frames)
    ensures f in frames && r in RepliesTo(services, f)
  {
    var k := |frames| - 1;
    if r in RepliesTo(services, frames[k]) {
      f := frames[k];
    } else {
      f := ReplyToOne(services, frames[..k], r);
    }
  }
}
