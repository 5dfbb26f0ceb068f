/**
 Client and server objects together: requests issued by many callers on one connection, cut into chunks
 anywhere, served, answered, cut into chunks again, handed to the waiting calls and popped by them.
 */
module EndToEnd {
  import opened Prelude
  import opened Headers
  import opened Reassembly
  import opened Framing
  import opened CallProtocol
  import opened CallInvariant
  import opened Client
  import opened Server
  import opened Sessions

  // ---- A connection driven by the transport ----

  /**
   Chunk arrivals on the server side, the unconsumed tail shown again in front of each chunk, until the
   loop refuses or an exception leaves it. The requests of the connection are served up to the first
   that cannot be.
   */
  method DriveServer(server: ServerImpl, chunks: seq<bytes>) returns (open: bool, escaped: bool)
    requires server.dispatched == [] && server.sent == []
    modifies server
    ensures var all := Connection(server.kind, chunks).frames;
            var done := server.dispatched;
            && done == Served(server.services, all)
            && server.sent == StreamBytes(Replies(server.services, done))
            && server.sent == StreamBytes(Replies(server.services, TwoWay(done)))
            && (open <==> done == all)
            && (!open ==> |done| < |all| && (escaped <==> Known(server.services, all[|done|])))
  {
    hide *;
    var pending: bytes := [];
    var k := 0;
    ServerStarts(server.services, server.kind, chunks);
    while k < |chunks|
      invariant 0 <= k <= |chunks|
      invariant FedSoFar(server.kind, chunks, k, server.dispatched, pending)
      invariant AllServable(server.services, server.dispatched)
      invariant server.sent == StreamBytes(Replies(server.services, server.dispatched))
    {
      var shown := pending + chunks[k];
      ghost var before := server.dispatched;
      var ending := server.OnReceiveData(shown);
      ghost var all := TakenFrames(server.kind, shown);
      ghost var done := Served(server.services, all);
      RepliesAppend(server.services, before, done);
      StreamBytesAppend(Replies(server.services, before), Replies(server.services, done));
      if ending.Consumed? {
        ChunkServed(server.services, server.kind, chunks, k, before, pending, ending);
        pending := shown[ending.size..];
        k := k + 1;
      } else {
        StopsInConnection(server.services, server.kind, chunks, k, before, pending, ending);
        OneWaySilent(server.services, server.dispatched);
        return false, ending == Escaped;
      }
    }
    FedAll(server.kind, chunks, server.dispatched, pending);
    AllServed(server.services, server.dispatched, 0);
    OneWaySilent(server.services, server.dispatched);
    return true, false;
  }

  /** After `k` chunks `frames` have been taken and `pending` is left; the rest is still to come. */
  ghost predicate FedSoFar(kind: Kind, chunks: seq<bytes>, k: nat, frames: seq<Frame>, pending: bytes)
    requires k <= |chunks|
  {
    Reassembles(kind);
    var rest := Feed(Taken(kind), pending, chunks[k..]);
    Connection(kind, chunks) == Fed(frames + rest.frames, rest.pending)
  }

  lemma ServerStarts(services: map<bytes, Service>, kind: Kind, chunks: seq<bytes>)
    ensures FedSoFar(kind, chunks, 0, [], []) && AllServable(services, [])
    ensures StreamBytes(Replies(services, [])) == []
  {
    assert chunks[0..] == chunks;
  }

  lemma ShownSplits(kind: Kind, chunks: seq<bytes>, k: nat, frames: seq<Frame>, pending: bytes)
    requires k < |chunks| && FedSoFar(kind, chunks, k, frames, pending)
    ensures var shown := pending + chunks[k];
            && TakenBytes(kind, shown) <= |shown|
            && FedSoFar(kind, chunks, k + 1, frames + TakenFrames(kind, shown), shown[TakenBytes(kind, shown)..])
  {
    hide Taken, Frames, Feed;
    Reassembles(kind);
    var taken := Taken(kind);
    var shown := pending + chunks[k];
    var tail := Tail(taken, shown);
    FeedOne(taken, pending, chunks[k..]);
    assert chunks[k..][1..] == chunks[k + 1..];
    Regrouped(frames, Frames(taken, shown), Feed(taken, tail, chunks[k + 1..]).frames);
  }

  lemma FeedOne(taken: bytes -> Next<Frame>, pending: bytes, chunks: seq<bytes>)
    requires Progresses(taken) && chunks != []
    ensures var shown := pending + chunks[0];
            var rest := Feed(taken, Tail(taken, shown), chunks[1..]);
            Feed(taken, pending, chunks) == Fed(Frames(taken, shown) + rest.frames, rest.pending)
  {
  }

  lemma FedAll(kind: Kind, chunks: seq<bytes>, frames: seq<Frame>, pending: bytes)
    requires FedSoFar(kind, chunks, |chunks|, frames, pending)
    ensures Connection(kind, chunks) == Fed(frames, pending)
  {
    Reassembles(kind);
    assert chunks[|chunks|..] == [];
    assert frames + [] == frames;
  }

  lemma ChunkServed(services: map<bytes, Service>, kind: Kind, chunks: seq<bytes>, k: nat,
                    frames: seq<Frame>, pending: bytes, ending: Ending)
    requires k < |chunks| && FedSoFar(kind, chunks, k, frames, pending) && AllServable(services, frames)
    requires var all := TakenFrames(kind, pending + chunks[k]);
             ending == EndingOf(services, all, Served(services, all), TakenBytes(kind, pending + chunks[k]))
    requires ending.Consumed?
    ensures var shown := pending + chunks[k];
            var done := Served(services, TakenFrames(kind, shown));
            && ending.size <= |shown| && AllServable(services, frames + done)
            && FedSoFar(kind, chunks, k + 1, frames + done, shown[ending.size..])
  {
    hide FedSoFar, TakenFrames, TakenBytes;
    var all := TakenFrames(kind, pending + chunks[k]);
    ServedExactly(services, all, Served(services, all));
    assert Served(services, all) == all;
    ServedAppend(services, frames, all);
    ShownSplits(kind, chunks, k, frames, pending);
  }

  /** A loop that stopped has stopped at the connection's first request that cannot be served. */
  lemma StopsInConnection(services: map<bytes, Service>, kind: Kind, chunks: seq<bytes>, k: nat,
                          frames: seq<Frame>, pending: bytes, ending: Ending)
    requires k < |chunks| && FedSoFar(kind, chunks, k, frames, pending) && AllServable(services, frames)
    requires var all := TakenFrames(kind, pending + chunks[k]);
             ending == EndingOf(services, all, Served(services, all), TakenBytes(kind, pending + chunks[k]))
    requires !ending.Consumed?
    ensures var all := Connection(kind, chunks).frames;
            var done := frames + Served(services, TakenFrames(kind, pending + chunks[k]));
            && done == Served(services, all) && |done| < |all| && done != all
            && (ending == Escaped <==> Known(services, all[|done|]))
  {
    var shown := TakenFrames(kind, pending + chunks[k]);
    ShownSplits(kind, chunks, k, frames, pending);
    var later := TakenLater(kind, chunks, k + 1, frames + shown, pending);
    hide FedSoFar, TakenFrames, TakenBytes, Connection, Known, Served;
    Regrouped(frames, shown, later);
    StopsWithin(services, frames, shown, later);
  }

  /** What comes after a buffer that could not be served to the end makes no difference. */
  lemma StopsWithin(services: map<bytes, Service>, frames: seq<Frame>, shown: seq<Frame>, later: seq<Frame>)
    requires AllServable(services, frames) && |Served(services, shown)| < |shown|
    ensures var all, done := frames + (shown + later), frames + Served(services, shown);
            && done == Served(services, all) && |done| < |all| && done != all
            && all[|done|] == shown[|Served(services, shown)|]
  {
    ServedAppend(services, shown, later);
    ServedAppend(services, frames, shown + later);
    hide Served;
  }

  lemma TakenLater(kind: Kind, chunks: seq<bytes>, k: nat, frames: seq<Frame>, pending: bytes)
    returns (later: seq<Frame>)
    requires 0 < k <= |chunks|
    requires var shown := pending + chunks[k - 1];
             TakenBytes(kind, shown) <= |shown| && FedSoFar(kind, chunks, k, frames, shown[TakenBytes(kind, shown)..])
    ensures Connection(kind, chunks).frames == frames + later
  {
    Reassembles(kind);
    var shown := pending + chunks[k - 1];
    later := Feed(Taken(kind), shown[TakenBytes(kind, shown)..], chunks[k..]).frames;
  }

  /** Chunk arrivals on the client side, for one transport. */
  method DriveClient(client: ClientImpl, tp: Tp, chunks: seq<bytes>)
    requires Inv(client.State())
    modifies client
    ensures Inv(client.State())
    ensures client.State() == RespondAll(old(client.State()), tp, Connection(client.kind, chunks).frames)
  {
    hide *;
    var pending: bytes := [];
    ghost var frames: seq<Frame> := [];
    var k := 0;
    ClientStarts(client.State(), tp, client.kind, chunks);
    while k < |chunks|
      invariant 0 <= k <= |chunks|
      invariant FedSoFar(client.kind, chunks, k, frames, pending)
      invariant Inv(client.State()) && client.State() == RespondAll(old(client.State()), tp, frames)
    {
      var shown := pending + chunks[k];
      ShownSplits(client.kind, chunks, k, frames, pending);
      RespondAllAppend(old(client.State()), tp, frames, TakenFrames(client.kind, shown));
      var n := client.OnReceiveData(tp, shown);
      frames := frames + TakenFrames(client.kind, shown);
      pending := shown[n..];
      k := k + 1;
    }
    FedAll(client.kind, chunks, frames, pending);
  }

  lemma ClientStarts(s: State, tp: Tp, kind: Kind, chunks: seq<bytes>)
    ensures FedSoFar(kind, chunks, 0, [], [])
    ensures RespondAll(s, tp, []) == s
  {
    assert chunks[0..] == chunks;
  }

  lemma {:induction false} RespondAllAppend(s: State, tp: Tp, a: seq<Frame>, b: seq<Frame>)
    ensures RespondAll(s, tp, a + b) == RespondAll(RespondAll(s, tp, a), tp, b)
  {
    if b == [] {
      assert a + b == a;
    } else {
      var k := |b| - 1;
      assert (a + b)[..|a + b| - 1] == a + b[..k];
      RespondAllAppend(s, tp, a, b[..k]);
    }
  }

  // ---- What responses do to one call ----

  /** The call is registered in group `g`, the live group of `tp`. */
  predicate RegisteredOn(s: State, tp: Tp, c: Cid) {
    c in s.calls && Registered(s.calls[c].pc) && tp in s.channels && s.channels[tp] == s.calls[c].gid
  }

  /** A response under another id leaves the call alone. */
  lemma OtherResponse(s: State, tp: Tp, c: Cid, id: nat, data: bytes)
    requires Inv(s) && RegisteredOn(s, tp, c) && id != s.calls[c].id
    ensures var t := Respond(s, tp, id, data);
            RegisteredOn(t, tp, c) && t.calls[c] == s.calls[c]
  {
    var m := MapOf(s, s.channels[tp], Shard(id));
    assert id in m ==> EntryOk(s, s.channels[tp], Shard(id), id, m[id]);
    assert id in m ==> m[id] != c && m[id] in s.calls;
    hide Inv, EntryOk, CallOk, Registered;
  }

  /** The response under the call's id fills its empty channel with the response's body. */
  lemma OwnResponse(s: State, tp: Tp, c: Cid, data: bytes)
    requires Inv(s) && RegisteredOn(s, tp, c) && s.calls[c].slot.None?
    ensures var t := Respond(s, tp, s.calls[c].id, data);
            && RegisteredOn(t, tp, c)
            && t.calls[c] == s.calls[c].(slot := Some(Item(0, data, FromFrame(|s.arrivals|))))
  {
    assert CallOk(s, c, s.calls[c]);
  }

  lemma {:induction false} OtherResponses(cfg: Config, s: State, tp: Tp, c: Cid, frames: seq<Frame>)
    requires Inv(s) && RegisteredOn(s, tp, c)
    requires forall f :: f in frames ==> f.head.callid != s.calls[c].id
    ensures var t := RespondAll(s, tp, frames);
            Inv(t) && RegisteredOn(t, tp, c) && t.calls[c] == s.calls[c]
  {
    if frames != [] {
      var k := |frames| - 1;
      OtherResponses(cfg, s, tp, c, frames[..k]);
      RespondAllKeeps(cfg, s, tp, frames);
      OtherResponse(RespondAll(s, tp, frames[..k]), tp, c, frames[k].head.callid, frames[k].body);
    }
  }

  /** Among many responses the one under the call's id, and only it, reaches the call. */
  lemma OneOfManyResponses(cfg: Config, s: State, tp: Tp, c: Cid, before: seq<Frame>, f: Frame, after: seq<Frame>)
    requires Inv(s) && RegisteredOn(s, tp, c) && s.calls[c].slot.None?
    requires f.head.callid == s.calls[c].id
    requires forall x :: x in before || x in after ==> x.head.callid != s.calls[c].id
    ensures var t := RespondAll(s, tp, before + [f] + after);
            && t.calls.Keys >= {c} && t.calls[c].slot.Some?
            && t.calls[c].slot.value.data == f.body && t.calls[c].slot.value.ec == 0
            && t.calls[c] == s.calls[c].(slot := t.calls[c].slot)
  {
    hide Inv, Respond, RespondAll;
    var s1 := RespondAll(s, tp, before);
    OtherResponses(cfg, s, tp, c, before);
    OwnResponse(s1, tp, c, f.body);
    RespondAllOneMore(s, tp, before, f);
    var s2 := RespondAll(s, tp, before + [f]);
    RespondAllKeeps(cfg, s, tp, before + [f]);
    OtherResponses(cfg, s2, tp, c, after);
    RespondAllAppend(s, tp, before + [f], after);
  }

  // ---- Many requests, their replies, their callers ----

  /** No two of the requests bear the same id in the header's 32-bit field. */
  ghost predicate IdsUnique(ms: seq<Sent>) {
    forall j, k :: 0 <= j < k < |ms| ==> ms[j].id % TWO_32 != ms[k].id % TWO_32
  }

  /** The call's channel holds that reply, or nothing when there was none. */
  predicate Holds(s: State, c: Cid, reply: Option<bytes>) {
    c in s.calls &&
    match reply
    case Some(content) =>
      s.calls[c].slot.Some? && s.calls[c].slot.value.ec == 0 && s.calls[c].slot.value.data == content
    case None => s.calls[c].slot.None?
  }

  /** A call waiting with an empty channel for the answer to request `m`. */
  predicate WaitsFor(s: State, tp: Tp, c: Cid, m: Sent) {
    RegisteredOn(s, tp, c) && s.calls[c].slot.None? && s.calls[c].id == m.id && !m.request.oneWay
  }

  /** The replies to a front of the requests fall apart around the k-th request's own. */
  lemma RepliesSplit(services: map<bytes, Service>, kind: Kind, ms: seq<Sent>, k: nat)
    requires k < |ms|
    ensures Replies(services, SentFrames(kind, ms)) ==
              Replies(services, SentFrames(kind, ms[..k])) + RepliesTo(services, SentFrame(kind, ms[k]))
              + Replies(services, SentFrames(kind, ms[k + 1..]))
  {
    hide SentFrame, RepliesTo, Replies, SentFrames;
    var first, own, last := SentFrames(kind, ms[..k]), SentFrame(kind, ms[k]), SentFrames(kind, ms[k + 1..]);
    SentAround(kind, ms, k);
    RepliesAppend(services, first, [own] + last);
    RepliesAppend(services, [own], last);
    RepliesToOne(services, own);
    Regrouped(Replies(services, first), RepliesTo(services, own), Replies(services, last));
  }

  lemma SentAround(kind: Kind, ms: seq<Sent>, k: nat)
    requires k < |ms|
    ensures SentFrames(kind, ms) ==
              SentFrames(kind, ms[..k]) + ([SentFrame(kind, ms[k])] + SentFrames(kind, ms[k + 1..]))
  {
    assert ms == ms[..k] + ([ms[k]] + ms[k + 1..]);
    SentFramesSplit(kind, ms[..k], [ms[k]] + ms[k + 1..]);
    SentFramesSplit(kind, [ms[k]], ms[k + 1..]);
    assert SentFrames(kind, [ms[k]]) == [SentFrame(kind, ms[k])];
  }

  lemma RepliesToOne(services: map<bytes, Service>, f: Frame)
    ensures Replies(services, [f]) == RepliesTo(services, f)
  {
    assert [f][..0] == [];
    assert Replies(services, []) + RepliesTo(services, f) == RepliesTo(services, f);
  }

  /** Replies to requests that do not bear an id on the wire do not bear it. */
  lemma RepliesUnderOtherIds(services: map<bytes, Service>, kind: Kind, ms: seq<Sent>, id: nat)
    requires AllCarriable(kind, ms) && AllAnswerable(services, kind, ms) && forall m :: m in ms ==> m.id % TWO_32 != id
    ensures forall r :: r in Replies(services, SentFrames(kind, ms)) ==> r.head.callid != id
  {
    forall r | r in Replies(services, SentFrames(kind, ms)) ensures r.head.callid != id {
      var m := ReplyIsAnswer(services, kind, ms, r);
    }
  }

  lemma DeliverAmongOthers(cfg: Config, s: State, tp: Tp, c: Cid, m: Sent, reply: Option<bytes>,
                           before: seq<Frame>, own: seq<Frame>, after: seq<Frame>)
    requires Inv(s) && WaitsFor(s, tp, c, m)
    requires match reply
             case Some(content) => |own| == 1 && own[0].body == content && own[0].head.callid == m.id
             case None => own == []
    requires forall x :: x in before || x in after ==> x.head.callid != m.id
    ensures Holds(RespondAll(s, tp, before + own + after), c, reply)
  {
    if own == [] {
      assert before + own + after == before + after;
      OtherResponses(cfg, s, tp, c, before + after);
    } else {
      assert own == [own[0]];
      OneOfManyResponses(cfg, s, tp, c, before, own[0], after);
    }
  }

  /** What a caller is told: the message its service had for it, unless its id outgrew the header's field. */
  function ToldFor(services: map<bytes, Service>, kind: Kind, m: Sent): Option<bytes> {
    if m.id < TWO_32 then ReplyBody(services, kind, m) else None
  }

  /** The caller of the k-th of these requests finds the answer to it once all replies are handled. */
  lemma ReplyReachesCaller(cfg: Config, kind: Kind, services: map<bytes, Service>, s: State, tp: Tp,
                           ms: seq<Sent>, k: nat, c: Cid)
    requires IdsUnique(ms) && AllCarriable(kind, ms) && AllAnswerable(services, kind, ms)
    requires Inv(s) && k < |ms| && WaitsFor(s, tp, c, ms[k])
    ensures Holds(RespondAll(s, tp, Replies(services, SentFrames(kind, ms))), c, ToldFor(services, kind, ms[k]))
  {
    hide Inv, Replies, RespondAll, SentFrames, Holds, ReplyBody, RegisteredOn, AllCarriable, AllAnswerable, IdsUnique;
    if ms[k].id < TWO_32 {
      NarrowIdHearsAnswer(cfg, kind, services, s, tp, ms, k, c);
    } else {
      HearsNothing(cfg, kind, services, s, tp, ms, c);
    }
  }

  lemma NarrowIdHearsAnswer(cfg: Config, kind: Kind, services: map<bytes, Service>, s: State, tp: Tp,
                            ms: seq<Sent>, k: nat, c: Cid)
    requires IdsUnique(ms) && AllCarriable(kind, ms) && AllAnswerable(services, kind, ms)
    requires Inv(s) && k < |ms| && ms[k].id < TWO_32 && WaitsFor(s, tp, c, ms[k])
    ensures Holds(RespondAll(s, tp, Replies(services, SentFrames(kind, ms))), c, ReplyBody(services, kind, ms[k]))
  {
    hide Inv, Replies, RepliesTo, RespondAll, SentFrames, Holds, ReplyBody, Sendable, Carriable, Answerable;
    RepliesSplit(services, kind, ms, k);
    RepliesUnderOtherIds(services, kind, ms[..k], ms[k].id);
    RepliesUnderOtherIds(services, kind, ms[k + 1..], ms[k].id);
    assert ms[k] in ms;
    OwnReplies(services, kind, ms[k]);
    DeliverAmongOthers(cfg, s, tp, c, ms[k], ReplyBody(services, kind, ms[k]),
                       Replies(services, SentFrames(kind, ms[..k])), RepliesTo(services, SentFrame(kind, ms[k])),
                       Replies(services, SentFrames(kind, ms[k + 1..])));
  }

  /** A caller whose id is on the wire none of the requests' hears nothing. */
  lemma HearsNothing(cfg: Config, kind: Kind, services: map<bytes, Service>, s: State, tp: Tp, ms: seq<Sent>, c: Cid)
    requires AllCarriable(kind, ms) && AllAnswerable(services, kind, ms)
    requires Inv(s) && RegisteredOn(s, tp, c) && s.calls[c].slot.None?
    requires forall m :: m in ms ==> m.id % TWO_32 != s.calls[c].id
    ensures Holds(RespondAll(s, tp, Replies(services, SentFrames(kind, ms))), c, None)
  {
    hide Inv, Replies, RespondAll, SentFrames, Carriable, Answerable, Registered;
    RepliesUnderOtherIds(services, kind, ms, s.calls[c].id);
    OtherResponses(cfg, s, tp, c, Replies(services, SentFrames(kind, ms)));
  }

  lemma OwnReplies(services: map<bytes, Service>, kind: Kind, m: Sent)
    requires Carriable(kind, m) && Answerable(services, kind, m) && !m.request.oneWay && m.id < TWO_32
    ensures var own := RepliesTo(services, SentFrame(kind, m));
            match ReplyBody(services, kind, m)
            case Some(content) => |own| == 1 && own[0].body == content && own[0].head.callid == m.id
            case None => own == []
  {
    RepliesOfOne(services, kind, m);
  }

  /** How many of the requests a server serves. */
  function ServedCount(services: map<bytes, Service>, kind: Kind, ms: seq<Sent>): (n: nat)
    ensures n <= |ms|
  {
    |Served(services, SentFrames(kind, ms))|
  }

  /** What a request's caller hears: the message of its service, if the server gets as far as it. */
  function AnswerAt(services: map<bytes, Service>, kind: Kind, ms: seq<Sent>, k: nat): Option<bytes>
    requires k < |ms|
  {
    if k < ServedCount(services, kind, ms) then ToldFor(services, kind, ms[k]) else None
  }

  /**
   All callers at once: a caller whose request was served finds its service's message, every other
   caller, those behind a request that stopped the server included, finds nothing.
   */
  lemma RepliesReachTheirCallers(cfg: Config, kind: Kind, services: map<bytes, Service>, s: State, tp: Tp,
                                 ms: seq<Sent>, k: nat, c: Cid)
    requires IdsUnique(ms) && AllCarriable(kind, ms) && AllAnswerable(services, kind, ms)
    requires Inv(s) && k < |ms| && WaitsFor(s, tp, c, ms[k])
    ensures var served := Served(services, SentFrames(kind, ms));
            Holds(RespondAll(s, tp, Replies(services, served)), c, AnswerAt(services, kind, ms, k))
  {
    var n := ServedCount(services, kind, ms);
    ServedExactly(services, SentFrames(kind, ms), Served(services, SentFrames(kind, ms)));
    FrontOfSent(kind, ms, Served(services, SentFrames(kind, ms)));
    FrontOfRequests(services, kind, ms, n);
    if k >= n {
      OthersDiffer(ms, n, k);
    }
    hide Inv, Replies, RespondAll, SentFrames, ReplyBody, Served, Holds, Registered, IdsUnique, AllCarriable,
         AllAnswerable;
    if k < n {
      ReplyReachesCaller(cfg, kind, services, s, tp, ms[..n], k, c);
    } else {
      HearsNothing(cfg, kind, services, s, tp, ms[..n], c);
    }
  }

  lemma FrontOfRequests(services: map<bytes, Service>, kind: Kind, ms: seq<Sent>, n: nat)
    requires IdsUnique(ms) && AllCarriable(kind, ms) && AllAnswerable(services, kind, ms) && n <= |ms|
    ensures IdsUnique(ms[..n]) && AllCarriable(kind, ms[..n]) && AllAnswerable(services, kind, ms[..n])
  {
    hide Carriable, Answerable;
    assert forall m :: m in ms[..n] ==> m in ms;
  }

  lemma OthersDiffer(ms: seq<Sent>, n: nat, k: nat)
    requires IdsUnique(ms) && n <= k < |ms|
    ensures forall m :: m in ms[..n] ==> m.id % TWO_32 != ms[k].id
  {
  }

  // ---- Issuing and finishing ----

  /** The requests under the ids they are given, one after another. */
  function Numbered(from: nat, rs: seq<Request>): (ms: seq<Sent>)
    ensures |ms| == |rs| && forall i :: 0 <= i < |ms| ==> ms[i] == Sent(from + i, rs[i])
  {
    seq(|rs|, i requires 0 <= i < |rs| => Sent(from + i, rs[i]))
  }

  /** Consecutive ids differ on the wire as long as they do not go all the way round. */
  lemma NumberedUnique(from: nat, rs: seq<Request>)
    requires |rs| <= TWO_32
    ensures IdsUnique(Numbered(from, rs))
  {
  }

  /** A caller about to take its id, with an established connection. */
  predicate Ready(s: State, tp: Tp, c: Cid) {
    At(s, c, Identifying) && s.calls[c].tp == tp && tp in s.channels
  }

  /** On a live connection a call is never refused: it registers, sends and waits. */
  lemma IssueSucceeds(s: State, tp: Tp, c: Cid, r: Request)
    requires Inv(s) && Ready(s, tp, c) && !r.oneWay
    ensures var t := Issued(s, c);
            && At(t, c, Waiting) && WaitsFor(t, tp, c, Sent(s.msgId + 1, r))
            && t.msgId == s.msgId + 1 && t.channels == s.channels
            && t.calls.Keys == s.calls.Keys && forall x :: x in s.calls && x != c ==> t.calls[x] == s.calls[x]
  {
    var g := s.channels[tp];
    assert ChannelsOk(s) && GroupOk(s.groups[g]) && CallOk(s, c, s.calls[c]);
    hide Inv, ChannelsOk, CallOk;
    assert !ClosedAt(s, g, Shard(s.msgId + 1));
  }

  /** The calls each wait for their own request. */
  ghost predicate AllWaiting(s: State, tp: Tp, cs: seq<Cid>, ms: seq<Sent>)
    requires |cs| == |ms|
  {
    forall i :: 0 <= i < |cs| ==> At(s, cs[i], Waiting) && WaitsFor(s, tp, cs[i], ms[i])
  }

  ghost predicate AllReady(s: State, tp: Tp, cs: seq<Cid>) {
    forall i :: 0 <= i < |cs| ==> Ready(s, tp, cs[i])
  }

  ghost predicate DifferentCalls(cs: seq<Cid>) {
    forall i, j :: 0 <= i < j < |cs| ==> cs[i] != cs[j]
  }

  lemma IssuedInTurn(s: State, tp: Tp, cs: seq<Cid>, rs: seq<Request>, ms: seq<Sent>, i: nat)
    requires Inv(s) && DifferentCalls(cs) && |rs| == |cs| == |ms| && i < |cs| && !rs[i].oneWay
    requires AllWaiting(s, tp, cs[..i], ms[..i]) && AllReady(s, tp, cs[i..]) && ms[i] == Sent(s.msgId + 1, rs[i])
    ensures Ready(s, tp, cs[i])
    ensures var t := Issued(s, cs[i]);
            && t.msgId == s.msgId + 1 && At(t, cs[i], Waiting)
            && AllWaiting(t, tp, cs[..i + 1], ms[..i + 1]) && AllReady(t, tp, cs[i + 1..])
  {
    assert cs[i] == cs[i..][0];
    IssueSucceeds(s, tp, cs[i], rs[i]);
    var t := Issued(s, cs[i]);
    hide Inv, Issued;
    forall j | 0 <= j < i + 1
      ensures At(t, cs[j], Waiting) && WaitsFor(t, tp, cs[j], ms[j])
    {
      if j < i {
        assert cs[..i][j] == cs[j] && ms[..i][j] == ms[j];
      }
    }
    forall j | i < j < |cs|
      ensures Ready(t, tp, cs[j])
    {
      assert cs[j] == cs[i..][j - i];
    }
  }

  /**
   Callers issue their requests one after another: the bytes handed to the transport are exactly the
   stream of the requests under fresh ids, and every caller waits for its own.
   */
  method IssueAll(client: ClientImpl, tp: Tp, cs: seq<Cid>, rs: seq<Request>) returns (stream: bytes)
    requires Inv(client.State()) && AllReady(client.State(), tp, cs) && DifferentCalls(cs)
    requires |cs| == |rs| && forall r :: r in rs ==> !r.oneWay
    modifies client
    ensures var ms := Numbered(old(client.msgId) + 1, rs);
            && stream == StreamBytes(SentFrames(client.kind, ms))
            && AllWaiting(client.State(), tp, cs, ms) && Inv(client.State())
  {
    hide Inv, StreamBytes, SentFrames, SentFrame, WaitsFor, Ready, FrameBytes, Issued;
    ghost var ms := Numbered(client.msgId + 1, rs);
    ghost var first := client.msgId;
    stream := [];
    NothingSent(client.kind);
    var i := 0;
    assert cs[0..] == cs;
    while i < |cs|
      invariant 0 <= i <= |cs| && client.msgId == first + i
      invariant Inv(client.State())
      invariant AllWaiting(client.State(), tp, cs[..i], ms[..i]) && AllReady(client.State(), tp, cs[i..])
      invariant stream == StreamBytes(SentFrames(client.kind, ms[..i]))
    {
      assert rs[i] in rs;
      IssuedInTurn(client.State(), tp, cs, rs, ms, i);
      ReadyToIssue(client.State(), tp, cs[i]);
      var sent := client.Issue(cs[i], rs[i]);
      OneMoreSent(client.kind, ms, i);
      stream := stream + sent.value;
      i := i + 1;
    }
    assert cs[..|cs|] == cs && ms[..|cs|] == ms;
  }

  lemma ReadyToIssue(s: State, tp: Tp, c: Cid)
    requires Ready(s, tp, c)
    ensures At(s, c, Identifying)
  {
  }

  lemma NothingSent(kind: Kind)
    ensures StreamBytes(SentFrames(kind, [])) == []
  {
  }

  lemma OneMoreSent(kind: Kind, ms: seq<Sent>, i: nat)
    requires i < |ms|
    ensures StreamBytes(SentFrames(kind, ms[..i + 1])) ==
              StreamBytes(SentFrames(kind, ms[..i])) + FrameBytes(RequestFrame(kind, ms[i].id, ms[i].request))
  {
    assert ms[..i + 1] == ms[..i] + [ms[i]];
    SentFramesSplit(kind, ms[..i], [ms[i]]);
    assert SentFrames(kind, [ms[i]]) == [SentFrame(kind, ms[i])];
    StreamBytesAppend(SentFrames(kind, ms[..i]), [SentFrame(kind, ms[i])]);
    StreamOfOne(SentFrame(kind, ms[i]));
  }

  /** What a waiting call returns with what its channel holds, if it holds anything. */
  function Outcome(s: State, c: Cid, parses: bool): Option<Result> {
    if c in s.calls && s.calls[c].slot.Some? then Some(ResultOf(s.calls[c].slot.value, parses)) else None
  }

  ghost predicate SameFrom(s: State, t: State, cs: seq<Cid>, i: nat) {
    forall j :: i <= j < |cs| ==> cs[j] in s.calls && cs[j] in t.calls && t.calls[cs[j]] == s.calls[cs[j]]
  }

  lemma FinishedInTurn(s: State, t: State, cs: seq<Cid>, i: nat, parses: bool)
    requires SameFrom(s, t, cs, i) && i < |cs| && DifferentCalls(cs)
    ensures SameFrom(s, t, cs, i + 1) && Outcome(t, cs[i], parses) == Outcome(s, cs[i], parses)
    ensures At(t, cs[i], Waiting) && t.calls[cs[i]].slot.Some? ==>
              SameFrom(s, Finished(t, cs[i], parses), cs, i + 1)
  {
  }

  /** Every caller with something in its channel pops it and returns. */
  method FinishAll(client: ClientImpl, cs: seq<Cid>, parses: Cid -> bool) returns (results: seq<Option<Result>>)
    requires Inv(client.State()) && DifferentCalls(cs)
    requires forall i :: 0 <= i < |cs| ==> At(client.State(), cs[i], Waiting)
    modifies client
    ensures Inv(client.State()) && |results| == |cs|
    ensures forall i :: 0 <= i < |cs| ==> results[i] == Outcome(old(client.State()), cs[i], parses(cs[i]))
  {
    hide Inv, Finished, ResultOf;
    ghost var s := client.State();
    results := [];
    for i := 0 to |cs|
      invariant Inv(client.State()) && SameFrom(s, client.State(), cs, i)
      invariant |results| == i
      invariant forall j :: 0 <= j < i ==> results[j] == Outcome(s, cs[j], parses(cs[j]))
    {
      FinishedInTurn(s, client.State(), cs, i, parses(cs[i]));
      if client.calls[cs[i]].slot.Some? {
        var result := client.Finish(cs[i], parses(cs[i]));
        results := results + [Some(result)];
      } else {
        results := results + [None];
      }
    }
  }

  // ---- The whole trip ----

  /** The bytes the client puts on the connection and the bytes the server answers with. */
  function RequestStream(kind: Kind, ms: seq<Sent>): bytes {
    StreamBytes(SentFrames(kind, ms))
  }

  function ReplyStream(services: map<bytes, Service>, kind: Kind, ms: seq<Sent>): bytes {
    StreamBytes(Replies(services, Served(services, SentFrames(kind, ms))))
  }

  /** What a caller returns: nothing without an answer, else what its response object makes of it. */
  function ResultAt(services: map<bytes, Service>, kind: Kind, ms: seq<Sent>, k: nat, parses: bool): Option<Result>
    requires k < |ms|
  {
    match AnswerAt(services, kind, ms, k)
    case Some(content) => Some(if content == [] || !parses then ParseError else Done)
    case None => None
  }

  lemma HeldIsOutcome(s: State, c: Cid, services: map<bytes, Service>, kind: Kind, ms: seq<Sent>, k: nat, parses: bool)
    requires k < |ms| && Holds(s, c, AnswerAt(services, kind, ms, k))
    ensures Outcome(s, c, parses) == ResultAt(services, kind, ms, k, parses)
  {
  }

  /** Handling responses takes no caller out of its wait. */
  lemma {:induction false} RespondAllLeavesWaiting(s: State, tp: Tp, frames: seq<Frame>, c: Cid)
    requires At(s, c, Waiting)
    ensures At(RespondAll(s, tp, frames), c, Waiting)
  {
    if frames != [] {
      RespondAllLeavesWaiting(s, tp, frames[..|frames| - 1], c);
    }
  }

  /** The server's part: requests in, replies out. */
  lemma ServedStream(services: map<bytes, Service>, kind: Kind, ms: seq<Sent>, chunks: seq<bytes>)
    requires AllCarriable(kind, ms) && AllAnswerable(services, kind, ms)
    requires Flatten(chunks) == RequestStream(kind, ms) && CutsShowAll(kind, chunks)
    ensures var served := Served(services, SentFrames(kind, ms));
            && Connection(kind, chunks).frames == SentFrames(kind, ms)
            && forall r :: r in Replies(services, served) ==> Sendable(kind, r)
  {
    hide Connection, CutsShowAll, Carriable, Answerable, Sendable, Replies, SentFrames, Served, StreamBytes;
    RequestsArriveInOrder(kind, ms, chunks);
    ServedExactly(services, SentFrames(kind, ms), Served(services, SentFrames(kind, ms)));
    FrontOfSent(kind, ms, Served(services, SentFrames(kind, ms)));
    AllRepliesSendable(services, kind, ms[..ServedCount(services, kind, ms)]);
  }

  /**
   The whole trip with the objects: callers on one connection issue their requests, the network cuts
   both streams anywhere the loops can cope with, the server serves what it can, and every caller
   returns the result of its own request, or goes on waiting when the server sent nothing for it or its id
   outgrew the header's field.
   */
  method RoundTrip(client: ClientImpl, server: ServerImpl, tp: Tp, cs: seq<Cid>, rs: seq<Request>,
                   cut: bytes -> seq<bytes>, parses: Cid -> bool) returns (results: seq<Option<Result>>)
    requires client.kind == server.kind && server.dispatched == [] && server.sent == []
    requires Inv(client.State()) && AllReady(client.State(), tp, cs) && DifferentCalls(cs)
    requires |cs| == |rs| <= TWO_32 && forall r :: r in rs ==> !r.oneWay
    requires var ms := Numbered(client.msgId + 1, rs);
             && AllCarriable(server.kind, ms) && AllAnswerable(server.services, server.kind, ms)
             && CutsShowAll(server.kind, cut(RequestStream(server.kind, ms)))
             && CutsShowAll(server.kind, cut(ReplyStream(server.services, server.kind, ms)))
    requires forall b :: Flatten(cut(b)) == b
    modifies client, server
    ensures var ms := Numbered(old(client.msgId) + 1, rs);
            && server.dispatched == Served(server.services, SentFrames(server.kind, ms))
            && |results| == |cs|
            && forall k :: 0 <= k < |cs| ==>
                 results[k] == ResultAt(server.services, server.kind, ms, k, parses(cs[k]))
  {
    hide Inv, Replies, RespondAll, SentFrames, Holds, WaitsFor, Connection, StreamBytes, Served, AnswerAt,
         ResultAt, Outcome, Carriable, Answerable, CutsShowAll, Ready, Flatten, At;
    ghost var kind, services, ms := server.kind, server.services, Numbered(client.msgId + 1, rs);
    ghost var served := Served(services, SentFrames(kind, ms));
    NumberedUnique(client.msgId + 1, rs);
    var stream := IssueAll(client, tp, cs, rs);
    ghost var s := client.State();
    ServedStream(services, kind, ms, cut(stream));
    var _, _ := DriveServer(server, cut(stream));
    FramesArriveInOrder(kind, Replies(services, served), cut(server.sent));
    DriveClient(client, tp, cut(server.sent));
    forall k | 0 <= k < |cs|
      ensures At(client.State(), cs[k], Waiting)
      ensures Outcome(client.State(), cs[k], parses(cs[k])) == ResultAt(services, kind, ms, k, parses(cs[k]))
    {
      RepliesReachTheirCallers(client.cfg, kind, services, s, tp, ms, k, cs[k]);
      RespondAllLeavesWaiting(s, tp, Replies(services, served), cs[k]);
      HeldIsOutcome(client.State(), cs[k], services, kind, ms, k, parses(cs[k]));
    }
    results := FinishAll(client, cs, parses);
  }
}
