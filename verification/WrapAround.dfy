/**
 What happens when ids outgrow the header's 32-bit field. The request of the call that comes 2^32 calls
 after another looks on the wire like that other call's, and its answer goes to the other call.
 */
module WrapAround {
  import opened Prelude
  import opened Headers
  import opened Framing
  import opened Server
  import opened Sessions
  import opened CallProtocol
  import opened CallInvariant
  import opened Answers
  import CallSafety
  import Client
  import EndToEnd

  // ---- Logs of runs put together ----

  lemma {:induction false} LogSplit(cfg: Config, s: State, first: seq<Event>, then_: seq<Event>, req: Requests)
    requires Run(cfg, s, first) && Run(cfg, Exec(cfg, s, first), then_)
    ensures Run(cfg, s, first + then_)
    ensures Log(cfg, s, first + then_, req) == Log(cfg, s, first, req) + Log(cfg, Exec(cfg, s, first), then_, req)
    decreases |first|
  {
    RunSplit(cfg, s, first, then_);
    if first == [] {
      assert first + then_ == then_;
    } else {
      hide Step, Enabled, Handed;
      var t := Step(cfg, s, first[0]);
      assert (first + then_)[1..] == first[1..] + then_;
      LogSplit(cfg, t, first[1..], then_, req);
      Regrouped(Handed(s, first[0], req), Log(cfg, t, first[1..], req), Log(cfg, Exec(cfg, s, first), then_, req));
    }
  }

  /** Events that hand nothing to a transport. */
  predicate HandsNothing(e: Event) {
    !e.Send? && (e.TakeId? ==> !e.oneWay)
  }

  lemma {:induction false} NothingLogged(cfg: Config, s: State, es: seq<Event>, req: Requests)
    requires Run(cfg, s, es) && forall e :: e in es ==> HandsNothing(e)
    ensures Log(cfg, s, es, req) == []
    decreases |es|
  {
    if es != [] {
      hide Step, Enabled;
      assert HandsNothing(es[0]);
      NothingLogged(cfg, Step(cfg, s, es[0]), es[1..], req);
    }
  }

  // ---- One call after another ----

  /** The requests of the first `n` callers, under the ids they take. */
  function Asked(req: Requests, n: nat): (ms: seq<Sent>)
    ensures |ms| == n && forall i :: 0 <= i < n ==> ms[i] == Sent(i + 1, req(i))
  {
    seq(n, i requires 0 <= i < n => Sent(i + 1, req(i)))
  }

  /** Callers 0 to n - 1 have each sent one request on transport 0, and none has entered the window. */
  ghost predicate AfterCalls(s: State, n: nat) {
    && Inv(s) && s.msgId == n && s.wnd == 0 && s.tps == [0] && s.channels == map[0 := 1] && s.arrivals == []
    && (forall c :: c in s.calls ==> c < n)
    && (n > 0 ==> 0 in s.calls && s.calls[0] == Call(Counting, 0, 1, 1, None, Outstanding, None))
  }

  function Taking(c: Cid): seq<Event> {
    [Start(c)] + ([Pick(c, 0, true)] + [TakeId(c, false)])
  }

  /** A caller picks transport 0 and takes an id. */
  lemma TakesId(cfg: Config, s: State, c: Cid)
    requires AfterCalls(s, c)
    ensures Run(cfg, s, Taking(c))
    ensures Exec(cfg, s, Taking(c)) ==
              s.(calls := s.calls[c := Call(LookingUp, 0, c + 1, 0, None, Unsent, None)], msgId := c + 1)
  {
    hide Run, Exec, Inv;
    var started := StartStep(cfg, s, c);
    var picked := PickStep(started, c, 0, true);
    Client.RunOne(cfg, picked, TakeId(c, false));
    Client.RunCons(cfg, started, Pick(c, 0, true), [TakeId(c, false)]);
    Client.RunCons(cfg, s, Start(c), [Pick(c, 0, true)] + [TakeId(c, false)]);
  }

  function Registering(c: Cid): seq<Event> {
    [Lookup(c)] + [Register(c)]
  }

  /** On a live connection it registers. */
  lemma Registers(cfg: Config, s: State, c: Cid)
    requires Inv(s) && At(s, c, LookingUp) && s.calls[c].tp in s.channels
    ensures Run(cfg, s, Registering(c))
    ensures var t := Exec(cfg, s, Registering(c));
            && t == s.(calls := t.calls, groups := t.groups)
            && t.calls == s.calls[c := s.calls[c].(pc := Sending, gid := s.channels[s.calls[c].tp])]
  {
    var found := LookupStep(s, c);
    var g := s.channels[s.calls[c].tp];
    assert !ClosedAt(found, g, Shard(s.calls[c].id)) by {
      assert GroupOk(s.groups[g]);
    }
    hide Run, Exec, Inv;
    Client.RunOne(cfg, found, Register(c));
    Client.RunCons(cfg, s, Lookup(c), [Register(c)]);
  }

  /** All a caller does until its request can be sent. */
  function Entering(c: Cid): seq<Event> {
    Taking(c) + Registering(c)
  }

  lemma Enters(cfg: Config, s: State, c: Cid)
    requires AfterCalls(s, c)
    ensures Run(cfg, s, Entering(c))
    ensures var t := Exec(cfg, s, Entering(c));
            && t == s.(calls := t.calls, groups := t.groups, msgId := c + 1)
            && t.calls == s.calls[c := Call(Sending, 0, c + 1, 1, None, Unsent, None)]
  {
    assert Inv(s) && s.channels == map[0 := 1];
    hide Run, Exec, Inv, AfterCalls, Taking, Registering;
    TakesId(cfg, s, c);
    CallSafety.RunKeeps(cfg, s, Taking(c));
    var taken := Exec(cfg, s, Taking(c));
    var call := taken.calls[c];
    Registers(cfg, taken, c);
    RunSplit(cfg, s, Taking(c), Registering(c));
    SetTwice(s.calls, c, call, call.(pc := Sending, gid := 1));
  }

  lemma SetTwice(calls: map<Cid, Call>, c: Cid, a: Call, b: Call)
    ensures calls[c := a][c := b] == calls[c := b]
  {
  }

  lemma EnteringHandsNothing(cfg: Config, s: State, c: Cid, req: Requests)
    requires Run(cfg, s, Entering(c))
    ensures Log(cfg, s, Entering(c), req) == []
  {
    hide Run, Log;
    NothingLogged(cfg, s, Entering(c), req);
  }

  function NewCall(c: Cid): seq<Event> {
    Entering(c) + [Event.Send(c)]
  }

  lemma OneMoreCall(cfg: Config, s: State, c: Cid, req: Requests)
    requires AfterCalls(s, c)
    ensures Run(cfg, s, NewCall(c)) && AfterCalls(Exec(cfg, s, NewCall(c)), c + 1)
    ensures Log(cfg, s, NewCall(c), req) == [Sent(c + 1, req(c))]
  {
    hide Run, Exec, Log, Inv, Entering;
    Enters(cfg, s, c);
    var entered := Exec(cfg, s, Entering(c));
    Client.RunOne(cfg, entered, Event.Send(c));
    RunSplit(cfg, s, Entering(c), [Event.Send(c)]);
    CallSafety.RunKeeps(cfg, s, NewCall(c));
    EnteringHandsNothing(cfg, s, c, req);
    LogSplit(cfg, s, Entering(c), [Event.Send(c)], req);
    LogOne(cfg, entered, Event.Send(c), req);
  }

  lemma LogOne(cfg: Config, s: State, e: Event, req: Requests)
    requires Enabled(cfg, s, e)
    ensures Run(cfg, s, [e]) && Log(cfg, s, [e], req) == Handed(s, e, req)
  {
    assert [e][1..] == [];
  }

  /** The connection comes up and `n` callers send one after another. */
  function Calls(n: nat): seq<Event> {
    if n == 0 then [Add(0)] + [Install(0, 1)] else Calls(n - 1) + NewCall(n - 1)
  }

  lemma ConnectedFirst(cfg: Config, req: Requests)
    ensures Run(cfg, INIT, Calls(0)) && AfterCalls(Exec(cfg, INIT, Calls(0)), 0)
    ensures Log(cfg, INIT, Calls(0), req) == []
  {
    InitInv();
    hide Run, Exec, Log, Inv;
    Client.ConnectIsRun(cfg, INIT, 0, 1);
    CallSafety.RunKeeps(cfg, INIT, Calls(0));
    NothingLogged(cfg, INIT, Calls(0), req);
  }

  lemma {:induction false} CallsRun(cfg: Config, n: nat, req: Requests)
    ensures Run(cfg, INIT, Calls(n)) && AfterCalls(Exec(cfg, INIT, Calls(n)), n)
    ensures Log(cfg, INIT, Calls(n), req) == Asked(req, n)
  {
    hide Run, Exec, Log, AfterCalls, NewCall;
    if n == 0 {
      ConnectedFirst(cfg, req);
    } else {
      CallsRun(cfg, n - 1, req);
      var s := Exec(cfg, INIT, Calls(n - 1));
      OneMoreCall(cfg, s, n - 1, req);
      RunSplit(cfg, INIT, Calls(n - 1), NewCall(n - 1));
      LogSplit(cfg, INIT, Calls(n - 1), NewCall(n - 1), req);
      assert Asked(req, n) == Asked(req, n - 1) + [Sent(n, req(n - 1))];
    }
  }

  // ---- The answer under the low id ----

  /** The server answers a request that reaches it whole and alone with one frame. */
  lemma OneRequestServed(services: map<bytes, Service>, m: Sent, data: bytes) returns (requests: seq<bytes>, r: Frame)
    requires Carriable(HproseKind, m) && Answerable(services, HproseKind, m)
    requires !m.request.oneWay && ReplyBody(services, HproseKind, m) == Some(data)
    ensures Flatten(requests) == StreamBytes(SentFrames(HproseKind, [m]))
    ensures Replies(services, Served(services, Connection(HproseKind, requests).frames)) == [r]
    ensures Sendable(HproseKind, r) && r.head.callid == m.id % TWO_32 && r.body == data
  {
    var f := SentFrame(HproseKind, m);
    RepliesOfOne(services, HproseKind, m);
    ServableAlone(services, m);
    hide RepliesTo, SentFrame, Carriable, Answerable, Connection, StreamBytes, Served, ReplyBody, Replies, Sendable;
    hide CutsShowAll;
    r := RepliesTo(services, f)[0];
    assert RepliesTo(services, f) == [r];
    requests := [StreamBytes(SentFrames(HproseKind, [m]))];
    SentAlone(m);
    FlattenOne(requests[0]);
    RequestsArriveInOrder(HproseKind, [m], requests);
    HproseShowsAll(requests);
    EndToEnd.RepliesToOne(services, f);
  }

  lemma SentAlone(m: Sent)
    ensures SentFrames(HproseKind, [m]) == [SentFrame(HproseKind, m)]
  {
  }

  /** A session that carries one request and its reply, whole. */
  lemma OneAnswered(services: map<bytes, Service>, log: seq<Sent>, m: Sent, data: bytes)
    requires m in log && Carriable(HproseKind, m) && Answerable(services, HproseKind, m)
    requires !m.request.oneWay && ReplyBody(services, HproseKind, m) == Some(data)
    ensures Answered(services, HproseKind, log, m.id % TWO_32, data)
  {
    hide Carriable, Answerable, Connection, StreamBytes, Served, ReplyBody, Replies, Sendable, CutsShowAll, SentFrames;
    var requests, r := OneRequestServed(services, m, data);
    var replies := [StreamBytes([r])];
    FlattenOne(replies[0]);
    FramesArriveInOrder(HproseKind, [r], replies);
    HproseShowsAll(replies);
    var x := Session([m], requests, replies);
    assert Carried(services, HproseKind, x);
    assert r in Connection(HproseKind, x.replies).frames;
  }

  lemma ServableAlone(services: map<bytes, Service>, m: Sent)
    requires ReplyBody(services, HproseKind, m).Some?
    ensures Served(services, [SentFrame(HproseKind, m)]) == [SentFrame(HproseKind, m)]
  {
  }

  lemma FlattenOne(b: bytes)
    ensures Flatten([b]) == b
  {
  }

  // ---- The answer goes to the wrong caller ----

  lemma {:induction false} CallsArriveNothing(n: nat)
    ensures forall e :: e in Calls(n) ==> !e.Arrive?
  {
    if n > 0 {
      CallsArriveNothing(n - 1);
    }
  }

  /** A frame under id 1 arrives, and caller 0 enters the window and pops. */
  function Answering(s: State, data: bytes): seq<Event> {
    Client.ResponseEvents(s, 0, 1, data) + ([Count(0)] + [Pop(0)])
  }

  lemma FirstIsHandled(s: State, n: nat, data: bytes)
    requires AfterCalls(s, n) && n > 0
    ensures var t := Client.Respond(s, 0, 1, data);
            && t.msgId == n && 0 in t.calls
            && t.calls[0] == Call(Counting, 0, 1, 1, Some(Item(0, data, FromFrame(0))), Outstanding, None)
  {
    EndToEnd.OwnResponse(s, 0, 0, data);
    hide Inv;
  }

  lemma CountsAndPops(cfg: Config, s: State, item: Item)
    requires At(s, 0, Counting) && s.calls[0].slot == Some(item)
    ensures var es := [Count(0)] + [Pop(0)];
            && Run(cfg, s, es)
            && var t := Exec(cfg, s, es);
               t.msgId == s.msgId && 0 in t.calls && t.calls[0].id == s.calls[0].id && t.calls[0].popped == Some(item)
  {
    hide Run, Exec;
    var counted := Goto(s, 0, Waiting).(wnd := s.wnd + 1);
    Client.RunOne(cfg, counted, Pop(0));
    Client.RunCons(cfg, s, Count(0), [Pop(0)]);
  }

  lemma ResponseEventsOnly(s: State, data: bytes)
    ensures forall e :: e in Answering(s, data) ==> HandsNothing(e) && (e.Arrive? ==> e == Arrive(0, 1, data))
  {
  }

  lemma AnsweringRun(cfg: Config, s: State, n: nat, data: bytes, req: Requests)
    requires AfterCalls(s, n) && n > 0
    ensures Run(cfg, s, Answering(s, data)) && Log(cfg, s, Answering(s, data), req) == []
    ensures var t := Exec(cfg, s, Answering(s, data));
            && t.msgId == n && 0 in t.calls && t.calls[0].id == 1
            && t.calls[0].popped == Some(Item(0, data, FromFrame(0)))
    ensures forall e :: e in Answering(s, data) && e.Arrive? ==> e == Arrive(0, 1, data)
  {
    hide Run, Exec, Log, AfterCalls, HandsNothing, Client.Respond, Client.ResponseEvents;
    FirstIsHandled(s, n, data);
    Client.RespondIsRun(cfg, s, 0, 1, data);
    CountsAndPops(cfg, Client.Respond(s, 0, 1, data), Item(0, data, FromFrame(0)));
    RunSplit(cfg, s, Client.ResponseEvents(s, 0, 1, data), [Count(0)] + [Pop(0)]);
    ResponseEventsOnly(s, data);
    NothingLogged(cfg, s, Answering(s, data), req);
  }

  /**
   Beyond 2^32 ids correlation ends. Whatever callers 0 to 2^32 ask for, in some run in which every frame is
   an answer to a message of the log, the first caller pops what the last one's request was answered with.
   */
  lemma PopsAnothersAnswer(cfg: Config, req: Requests, services: map<bytes, Service>, data: bytes)
    returns (es: seq<Event>)
    requires var log := Asked(req, TWO_32 + 1);
             AllCarriable(HproseKind, log) && AllAnswerable(services, HproseKind, log)
    requires !req(TWO_32).oneWay && ReplyBody(services, HproseKind, Sent(TWO_32 + 1, req(TWO_32))) == Some(data)
    ensures Run(cfg, INIT, es) && Log(cfg, INIT, es, req) == Asked(req, TWO_32 + 1)
    ensures FromServers(services, HproseKind, Log(cfg, INIT, es, req), es)
    ensures var t := Exec(cfg, INIT, es);
            && t.msgId == TWO_32 + 1 && 0 in t.calls && t.calls[0].id == 1
            && t.calls[0].popped == Some(Item(0, data, FromFrame(0)))
  {
    hide Run, Exec, Log, Asked, AfterCalls, Calls, Answering, Carriable, Answerable, ReplyBody, Answered;
    var n := TWO_32 + 1;
    var log := Asked(req, n);
    CallsRun(cfg, n, req);
    var s := Exec(cfg, INIT, Calls(n));
    AnsweringRun(cfg, s, n, data, req);
    es := Calls(n) + Answering(s, data);
    RunSplit(cfg, INIT, Calls(n), Answering(s, data));
    LogSplit(cfg, INIT, Calls(n), Answering(s, data), req);
    assert log + [] == log;
    var m := log[TWO_32];
    assert m in log;
    OneAnswered(services, log, m, data);
    assert m.id % TWO_32 == 1;
    CallsArriveNothing(n);
    forall k | 0 <= k < |es| && es[k].Arrive?
      ensures Answered(services, HproseKind, log, es[k].id, es[k].data)
    {
      assert es[k] in Answering(s, data);
    }
  }

  /** A service that sends back what it was sent. */
  function EchoServices(): map<bytes, Service> {
    map[HPROSE_NAME := (_: bytes, request: bytes) => Message(request)]
  }

  /** The first caller asks for 0, all others for 1. */
  function ZeroThenOnes(c: Cid): Client.Request {
    Client.Request(false, [], [], [if c == 0 then 0 else 1])
  }

  lemma EchoAnswers(m: Sent)
    ensures ReplyBody(EchoServices(), HproseKind, m) == Some(m.request.body)
  {
  }

  /** The bound of 2^32 ids cannot be raised by one: with one id more a caller can pop an answer that is not its own. */
  lemma OneIdTooMany(cfg: Config) returns (es: seq<Event>)
    ensures Run(cfg, INIT, es)
    ensures var log := Log(cfg, INIT, es, ZeroThenOnes);
            && AllCarriable(HproseKind, log) && AllAnswerable(EchoServices(), HproseKind, log)
            && FromServers(EchoServices(), HproseKind, log, es)
    ensures var t := Exec(cfg, INIT, es);
            && t.msgId == TWO_32 + 1 && 0 in t.calls && t.calls[0].popped.Some?
            && ReplyBody(EchoServices(), HproseKind, Sent(t.calls[0].id, ZeroThenOnes(0))) !=
                 Some(t.calls[0].popped.value.data)
  {
    hide Run, Exec, Log, ReplyBody;
    var log := Asked(ZeroThenOnes, TWO_32 + 1);
    forall m | m in log ensures Carriable(HproseKind, m) && Answerable(EchoServices(), HproseKind, m) {
    }
    EchoAnswers(Sent(TWO_32 + 1, ZeroThenOnes(TWO_32)));
    EchoAnswers(Sent(1, ZeroThenOnes(0)));
    es := PopsAnothersAnswer(cfg, ZeroThenOnes, EchoServices(), [1]);
  }
}
