/**
 One connection between a client and a server, seen from outside: what was sent, how it was cut into
 chunks and how much of it arrived. Whatever the network did, each frame that reaches the client is
 the answer to one of its requests.
 */
module Sessions {
  import opened Prelude
  import opened Headers
  import opened Framing
  import opened Server
  import R = Reassembly
  import Client

  /** One request on the wire: the id `Call` took for it and what the caller asked. */
  datatype Sent = Sent(id: nat, request: Client.Request)

  function SentFrame(kind: Kind, m: Sent): Frame {
    Client.RequestFrame(kind, m.id, m.request)
  }

  function SentFrames(kind: Kind, ms: seq<Sent>): (frames: seq<Frame>)
    ensures |frames| == |ms|
  {
    if ms == [] then [] else [SentFrame(kind, ms[0])] + SentFrames(kind, ms[1..])
  }

  lemma {:induction false} SentFramesAt(kind: Kind, ms: seq<Sent>, k: nat)
    requires k < |ms|
    ensures SentFrames(kind, ms)[k] == SentFrame(kind, ms[k])
  {
    if k > 0 {
      SentFramesAt(kind, ms[1..], k - 1);
    }
  }

  lemma {:induction false} SentFramesSplit(kind: Kind, a: seq<Sent>, b: seq<Sent>)
    ensures SentFrames(kind, a + b) == SentFrames(kind, a) + SentFrames(kind, b)
  {
    if a == [] {
      assert a + b == b;
    } else {
      assert (a + b)[1..] == a[1..] + b;
      SentFramesSplit(kind, a[1..], b);
    }
  }

  /** A front of the frames are the frames of a front of the requests. */
  lemma FrontOfSent(kind: Kind, ms: seq<Sent>, front: seq<Frame>)
    requires front <= SentFrames(kind, ms)
    ensures front == SentFrames(kind, ms[..|front|])
  {
    assert ms == ms[..|front|] + ms[|front|..];
    SentFramesSplit(kind, ms[..|front|], ms[|front|..]);
  }

  /** Sizes the header can carry. */
  predicate Carriable(kind: Kind, m: Sent) {
    && |m.request.body| < TWO_32
    && (kind == UcorfKind ==> |m.request.service| < TWO_16 && |m.request.method_| < TWO_16)
  }

  /** The reply, if there is one, does not outgrow the length field. */
  predicate Answerable(services: map<bytes, Service>, kind: Kind, m: Sent) {
    var a := AnswerTo(services, SentFrame(kind, m));
    a.Some? && a.value.Message? ==> |a.value.content| < TWO_32
  }

  predicate AllCarriable(kind: Kind, ms: seq<Sent>) {
    forall m :: m in ms ==> Carriable(kind, m)
  }

  /** Different ids are different in the header's 32-bit field. */
  ghost predicate IdsApart(ms: seq<Sent>) {
    forall m, m' :: m in ms && m' in ms && m.id % TWO_32 == m'.id % TWO_32 ==> m.id == m'.id
  }

  predicate AllAnswerable(services: map<bytes, Service>, kind: Kind, ms: seq<Sent>) {
    forall m :: m in ms ==> Answerable(services, kind, m)
  }

  /** The body of the message the service has for a request, if it has one. */
  function ReplyBody(services: map<bytes, Service>, kind: Kind, m: Sent): Option<bytes> {
    match AnswerTo(services, SentFrame(kind, m))
    case Some(Message(content)) => Some(content)
    case _ => None
  }

  /** What a caller asks is what its service is handed. */
  lemma ReplyBodyIs(services: map<bytes, Service>, kind: Kind, m: Sent)
    ensures var r := m.request;
            var name := if kind == UcorfKind then r.service else [104, 112, 114, 111, 115, 101];
            var method_ := if kind == UcorfKind then r.method_ else [];
            ReplyBody(services, kind, m) ==
              if name in services && services[name](method_, r.body).Message?
              then Some(services[name](method_, r.body).content) else None
  {
  }

  /** The request on the wire: type byte 1 for a one-way call and 0 for another, names and body as given. */
  lemma RequestOnWire(m: Sent)
    ensures SentFrame(UcorfKind, m) ==
              Frame(Ucorf(if m.request.oneWay then 1 else 0, m.id % 0x1_0000_0000, |m.request.body| % 0x1_0000_0000,
                          m.request.service, m.request.method_), m.request.body)
    ensures SentFrame(HproseKind, m) ==
              Frame(Hprose(m.id % 0x1_0000_0000, |m.request.body| % 0x1_0000_0000), m.request.body)
  {
  }

  lemma SentIsSendable(kind: Kind, m: Sent)
    requires Carriable(kind, m)
    ensures Sendable(kind, SentFrame(kind, m)) && SentFrame(kind, m).head.callid == m.id % TWO_32
  {
  }

  lemma {:induction false} AllSentSendable(kind: Kind, ms: seq<Sent>)
    requires AllCarriable(kind, ms)
    ensures forall f :: f in SentFrames(kind, ms) ==> Sendable(kind, f)
  {
    if ms != [] {
      HeadAndRest(ms);
      SentIsSendable(kind, ms[0]);
      AllSentSendable(kind, ms[1..]);
    }
  }

  /**
   A request is answered under its own id, as far as the field holds it, with its own message, once or not at
   all: once if and only if there is a message and the request is not a one-way Ucorf request.
   */
  lemma RepliesOfOne(services: map<bytes, Service>, kind: Kind, m: Sent)
    requires Carriable(kind, m) && Answerable(services, kind, m)
    ensures var own := RepliesTo(services, SentFrame(kind, m));
            && |own| <= 1
            && (forall r :: r in own ==>
                  Sendable(kind, r) && r.head.callid == m.id % TWO_32 && ReplyBody(services, kind, m) == Some(r.body))
            && (|own| == 1 <==>
                  ReplyBody(services, kind, m).Some? && !(kind == UcorfKind && m.request.oneWay))
  {
  }

  /** Every reply to these requests is the answer to one of them. */
  lemma ReplyIsAnswer(services: map<bytes, Service>, kind: Kind, ms: seq<Sent>, r: Frame) returns (m: Sent)
    requires AllCarriable(kind, ms) && AllAnswerable(services, kind, ms)
    requires r in Replies(services, SentFrames(kind, ms))
    ensures m in ms && Sendable(kind, r)
    ensures r.head.callid == m.id % TWO_32 && ReplyBody(services, kind, m) == Some(r.body)
  {
    hide Replies, RepliesTo, SentFrame, Sendable, ReplyBody, Carriable, Answerable;
    var f := ReplyToOne(services, SentFrames(kind, ms), r);
    var k :| 0 <= k < |ms| && SentFrames(kind, ms)[k] == f;
    SentFramesAt(kind, ms, k);
    m := ms[k];
    RepliesOfOne(services, kind, m);
  }

  lemma AllRepliesSendable(services: map<bytes, Service>, kind: Kind, ms: seq<Sent>)
    requires AllCarriable(kind, ms) && AllAnswerable(services, kind, ms)
    ensures forall r :: r in Replies(services, SentFrames(kind, ms)) ==> Sendable(kind, r)
  {
    forall r | r in Replies(services, SentFrames(kind, ms)) ensures Sendable(kind, r) {
      var _ := ReplyIsAnswer(services, kind, ms, r);
    }
  }

  // ---- What arrives on a connection ----

  /** More bytes only add frames. */
  lemma MoreBytesMoreFrames(kind: Kind, part: bytes, stream: bytes)
    requires part <= stream
    ensures FramesOf(kind, part) <= FramesOf(kind, stream)
  {
    Reassembles(kind);
    assert stream == part + stream[|part|..];
    R.LoopTakesWireFrames(OnWire(kind), OnWire(kind), part, stream[|part|..]);
  }

  /** Whatever part of a stream of messages arrives, in whatever chunks: its first messages are delivered. */
  lemma DeliveredArePrefix(kind: Kind, frames: seq<Frame>, chunks: seq<bytes>)
    requires (forall f :: f in frames ==> Sendable(kind, f)) && Flatten(chunks) <= StreamBytes(frames)
    ensures Connection(kind, chunks).frames <= frames
  {
    hide Connection, FramesOf, StreamBytes, Sendable;
    ConnectionConserves(kind, chunks);
    MoreBytesMoreFrames(kind, Flatten(chunks), StreamBytes(frames));
    StreamRoundTrip(kind, frames);
  }

  /** All of it, when the whole stream arrives in chunks that show every frame. */
  lemma FramesArriveInOrder(kind: Kind, frames: seq<Frame>, chunks: seq<bytes>)
    requires (forall f :: f in frames ==> Sendable(kind, f)) && Flatten(chunks) == StreamBytes(frames)
    ensures Connection(kind, chunks) == R.Fed(frames, []) <==> CutsShowAll(kind, chunks)
  {
    ConnectionDeliversExactly(kind, chunks);
    StreamRoundTrip(kind, frames);
  }

  /** The server takes exactly the requests sent, in the order sent, when the cuts show them all. */
  lemma RequestsArriveInOrder(kind: Kind, ms: seq<Sent>, chunks: seq<bytes>)
    requires AllCarriable(kind, ms) && Flatten(chunks) == StreamBytes(SentFrames(kind, ms))
    ensures Connection(kind, chunks) == R.Fed(SentFrames(kind, ms), []) <==> CutsShowAll(kind, chunks)
  {
    AllSentSendable(kind, ms);
    FramesArriveInOrder(kind, SentFrames(kind, ms), chunks);
  }

  /**
   A connection: the requests put on it, the chunks in which a part of their stream reached the server,
   and the chunks in which a part of the server's replies reached the client.
   */
  datatype Session = Session(ms: seq<Sent>, requests: seq<bytes>, replies: seq<bytes>)

  ghost predicate Carried(services: map<bytes, Service>, kind: Kind, x: Session) {
    && Flatten(x.requests) <= StreamBytes(SentFrames(kind, x.ms))
    && Flatten(x.replies) <= StreamBytes(Replies(services, Served(services, Connection(kind, x.requests).frames)))
  }

  /** The server has served a front of the requests. */
  lemma ServedAreSent(services: map<bytes, Service>, kind: Kind, x: Session)
    requires AllCarriable(kind, x.ms) && Carried(services, kind, x)
    ensures var served := Served(services, Connection(kind, x.requests).frames);
            |served| <= |x.ms| && served == SentFrames(kind, x.ms[..|served|])
  {
    hide Connection, StreamBytes, Served, SentFrame, Carriable;
    var got := Connection(kind, x.requests).frames;
    AllSentSendable(kind, x.ms);
    DeliveredArePrefix(kind, SentFrames(kind, x.ms), x.requests);
    ServedExactly(services, got, Served(services, got));
    FrontOfSent(kind, x.ms, Served(services, got));
  }

  /**
   Correlation on the wire, for any network that keeps the order of bytes: every frame the client
   takes carries the low 32 bits of the id of one of its requests and the message the service had for that
   request.
   */
  lemma FrameIsAnswer(services: map<bytes, Service>, kind: Kind, x: Session, r: Frame) returns (m: Sent)
    requires AllCarriable(kind, x.ms) && AllAnswerable(services, kind, x.ms) && Carried(services, kind, x)
    requires r in Connection(kind, x.replies).frames
    ensures m in x.ms && m.id % TWO_32 == r.head.callid && ReplyBody(services, kind, m) == Some(r.body)
  {
    hide Connection, StreamBytes, Served, SentFrame, Carriable, Answerable, Replies, SentFrames, Sendable, ReplyBody;
    ServedAreSent(services, kind, x);
    var served := Served(services, Connection(kind, x.requests).frames);
    var ms := x.ms[..|served|];
    assert forall y :: y in ms ==> y in x.ms;
    AllRepliesSendable(services, kind, ms);
    DeliveredArePrefix(kind, Replies(services, served), x.replies);
    m := ReplyIsAnswer(services, kind, ms, r);
  }
}
