/**
 Calls and answers over any interleaving: callers start, send, time out, pop and return, connections
 come and go and frames arrive in any order the protocol allows. As long as the frames come from servers
 that answered these callers' requests and ids do not wrap around in the header's 32-bit field, nobody ever
 takes another caller's answer.
 */
module Answers {
  import opened Prelude
  import opened Headers
  import opened Framing
  import opened Server
  import opened Sessions
  import opened CallProtocol
  import opened CallInvariant
  import opened CallTheorems
  import CallDelivery
  import CallSafety
  import Client

  /** What each caller asks for. */
  type Requests = Cid -> Client.Request

  /** The message a step hands to the transport. */
  function Handed(s: State, e: Event, req: Requests): seq<Sent> {
    match e
    case Send(c) => if c in s.calls then [Sent(s.calls[c].id, req(c))] else []
    case TakeId(c, oneWay) => if oneWay then [Sent(s.msgId + 1, req(c))] else []
    case _ => []
  }

  /** All messages handed to transports in a run, in order. */
  ghost function Log(cfg: Config, s: State, es: seq<Event>, req: Requests): seq<Sent>
    requires Run(cfg, s, es)
    decreases |es|
  {
    if es == [] then [] else Handed(s, es[0], req) + Log(cfg, Step(cfg, s, es[0]), es[1..], req)
  }

  lemma HandedByOwner(cfg: Config, s: State, e: Event, req: Requests, m: Sent) returns (c: Cid)
    requires Inv(s) && Enabled(cfg, s, e) && m in Handed(s, e, req)
    ensures var t := Step(cfg, s, e);
            c in t.calls && t.calls[c].id == m.id != 0 && m.request == req(c)
  {
    c := e.c;
    assert CallOk(s, c, s.calls[c]);
    hide Inv;
  }

  /** Each message of the log is the request of a call that bears the message's id. */
  lemma {:induction false} LoggedByOwner(cfg: Config, s: State, es: seq<Event>, req: Requests, m: Sent)
    returns (c: Cid)
    requires Inv(s) && Run(cfg, s, es) && m in Log(cfg, s, es, req)
    ensures var t := Exec(cfg, s, es);
            c in t.calls && t.calls[c].id == m.id != 0 && m.request == req(c)
    decreases |es|
  {
    var t := Step(cfg, s, es[0]);
    CallSafety.StepKeeps(cfg, s, es[0]);
    if m in Handed(s, es[0], req) {
      c := HandedByOwner(cfg, s, es[0], req, m);
      hide Inv, Step, Enabled, Handed;
      CallDelivery.RunKeepsId(cfg, t, es[1..], c);
    } else {
      hide Inv, Step, Enabled, Handed;
      c := LoggedByOwner(cfg, t, es[1..], req, m);
    }
  }

  /** The frame came off a connection to these services that carried messages of the log. */
  ghost predicate Answered(services: map<bytes, Service>, kind: Kind, log: seq<Sent>, id: nat, data: bytes) {
    exists x: Session, r: Frame ::
      && Carried(services, kind, x) && (forall m :: m in x.ms ==> m in log)
      && r in Connection(kind, x.replies).frames && r.head.callid == id && r.body == data
  }

  /** Every frame that arrives in the run did so. */
  ghost predicate FromServers(services: map<bytes, Service>, kind: Kind, log: seq<Sent>, es: seq<Event>) {
    forall k :: 0 <= k < |es| && es[k].Arrive? ==> Answered(services, kind, log, es[k].id, es[k].data)
  }

  lemma AnswerInLog(services: map<bytes, Service>, kind: Kind, log: seq<Sent>, id: nat, data: bytes)
    returns (m: Sent)
    requires AllCarriable(kind, log) && AllAnswerable(services, kind, log) && Answered(services, kind, log, id, data)
    ensures m in log && m.id % TWO_32 == id && ReplyBody(services, kind, m) == Some(data)
  {
    hide Carried, Connection, ReplyBody, Carriable, Answerable;
    var x: Session, r: Frame :|
      && Carried(services, kind, x) && (forall m :: m in x.ms ==> m in log)
      && r in Connection(kind, x.replies).frames && r.head.callid == id && r.body == data;
    m := FrameIsAnswer(services, kind, x, r);
  }

  lemma OneOwner(s: State, c: Cid, c': Cid)
    requires Inv(s) && c in s.calls && c' in s.calls && s.calls[c].id == s.calls[c'].id != 0
    ensures c == c'
  {
  }

  // ---- A call that popped has sent ----

  /** The call has got past its send, one-way or not. */
  predicate HasSent(call: Call) {
    || call.send != Unsent || call.popped.Some? || call.pc == OneWaySending
    || (call.pc.Returned? && call.pc.result.SendReported?)
  }

  lemma FirstSent(cfg: Config, s: State, e: Event, req: Requests, c: Cid)
    requires Inv(s) && Enabled(cfg, s, e) && (c in s.calls ==> !HasSent(s.calls[c]))
    requires c in Step(cfg, s, e).calls && HasSent(Step(cfg, s, e).calls[c])
    ensures Step(cfg, s, e).calls[c].id != 0
    ensures Handed(s, e, req) == [Sent(Step(cfg, s, e).calls[c].id, req(c))]
  {
    if ActsOn(e, c) {
      assert c in s.calls ==> CallOk(s, c, s.calls[c]);
      hide Inv;
      OwnFirstSent(cfg, s, e, req, c);
    } else {
      CallsPersist(cfg, s, e);
      OthersOnlyFillSlot(cfg, s, e, c);
      hide Inv, Step, Enabled;
    }
  }

  lemma OwnFirstSent(cfg: Config, s: State, e: Event, req: Requests, c: Cid)
    requires Enabled(cfg, s, e) && ActsOn(e, c) && (c in s.calls ==> !HasSent(s.calls[c]) && CallOk(s, c, s.calls[c]))
    requires c in Step(cfg, s, e).calls && HasSent(Step(cfg, s, e).calls[c])
    ensures Step(cfg, s, e).calls[c].id != 0
    ensures Handed(s, e, req) == [Sent(Step(cfg, s, e).calls[c].id, req(c))]
  {
  }

  /** The request of every call that has sent, one-way or not, is in the log, under the call's id. */
  lemma {:induction false} SentIsLogged(cfg: Config, s: State, es: seq<Event>, req: Requests, c: Cid)
    requires Inv(s) && Run(cfg, s, es) && (c in s.calls ==> !HasSent(s.calls[c]))
    requires c in Exec(cfg, s, es).calls && HasSent(Exec(cfg, s, es).calls[c])
    ensures Sent(Exec(cfg, s, es).calls[c].id, req(c)) in Log(cfg, s, es, req)
    decreases |es|
  {
    var t := Step(cfg, s, es[0]);
    CallSafety.StepKeeps(cfg, s, es[0]);
    if c in t.calls && HasSent(t.calls[c]) {
      FirstSent(cfg, s, es[0], req, c);
      hide Inv, Step, Enabled, HasSent, Handed;
      CallDelivery.RunKeepsId(cfg, t, es[1..], c);
    } else {
      hide Inv, Step, Enabled, HasSent, Handed;
      SentIsLogged(cfg, t, es[1..], req, c);
    }
  }

  // ---- Whose answer a call pops ----

  /**
   Over every interleaving and for all ids: the response that a call pops is what a server answered some
   message of the log with, and the low 32 bits of that message's id are the call's id.
   */
  lemma PopsCongruentAnswer(cfg: Config, es: seq<Event>, req: Requests, services: map<bytes, Service>, kind: Kind,
                            c: Cid) returns (m: Sent, owner: Cid)
    requires Run(cfg, INIT, es)
    requires var log := Log(cfg, INIT, es, req);
             && AllCarriable(kind, log) && AllAnswerable(services, kind, log) && FromServers(services, kind, log, es)
    requires c in Exec(cfg, INIT, es).calls && Exec(cfg, INIT, es).calls[c].popped.Some?
    requires Exec(cfg, INIT, es).calls[c].popped.value.origin.FromFrame?
    ensures var t := Exec(cfg, INIT, es);
            && m in Log(cfg, INIT, es, req) && m.id % TWO_32 == t.calls[c].id
            && ReplyBody(services, kind, m) == Some(t.calls[c].popped.value.data)
            && owner in t.calls && m == Sent(t.calls[owner].id, req(owner)) && m.id != 0
  {
    var t := Exec(cfg, INIT, es);
    ResponseCorrelation(cfg, t, c) by {
      assert Reachable(cfg, t);
    }
    hide Run, Exec, Log, Answered, ReplyBody, AllCarriable, AllAnswerable;
    InitInv();
    var k := CallDelivery.ArrivedByEvent(cfg, INIT, es, t.calls[c].popped.value.origin.n);
    m := AnswerInLog(services, kind, Log(cfg, INIT, es, req), es[k].id, es[k].data);
    owner := LoggedByOwner(cfg, INIT, es, req, m);
  }

  /**
   End to end, over every interleaving in which the ids of the messages sent are told apart by 32 bits: a
   response that a call pops is the message its own request was answered with, and the call's send and its
   connection's end are the only other things it can pop.
   */
  lemma PopsOwnAnswer(cfg: Config, es: seq<Event>, req: Requests, services: map<bytes, Service>, kind: Kind, c: Cid)
    requires Run(cfg, INIT, es)
    requires var log := Log(cfg, INIT, es, req);
             && AllCarriable(kind, log) && AllAnswerable(services, kind, log) && FromServers(services, kind, log, es)
             && IdsApart(log)
    requires c in Exec(cfg, INIT, es).calls && Exec(cfg, INIT, es).calls[c].popped.Some?
    ensures var t := Exec(cfg, INIT, es);
            var call := t.calls[c];
            match call.popped.value.origin
            case FromFrame(_) => ReplyBody(services, kind, Sent(call.id, req(c))) == Some(call.popped.value.data)
            case FromSend => call.send.Reported? && call.send.ec != 0
            case FromClose => call.gid in t.groups && t.groups[call.gid].status.Closing?
  {
    var t := Exec(cfg, INIT, es);
    hide Run, Exec, Log, ReplyBody, AllCarriable, AllAnswerable, FromServers, IdsApart;
    assert Reachable(cfg, t);
    ResponseCorrelation(cfg, t, c);
    if t.calls[c].popped.value.origin.FromFrame? {
      var m, owner := PopsCongruentAnswer(cfg, es, req, services, kind, c);
      CongruentIsOwn(cfg, es, req, c, m, owner);
    }
  }

  /** When ids are told apart, the message whose id is the popping call's on the wire is the call's own. */
  lemma CongruentIsOwn(cfg: Config, es: seq<Event>, req: Requests, c: Cid, m: Sent, owner: Cid)
    requires Run(cfg, INIT, es) && IdsApart(Log(cfg, INIT, es, req))
    requires var t := Exec(cfg, INIT, es);
             && c in t.calls && t.calls[c].popped.Some? && m.id % TWO_32 == t.calls[c].id
             && owner in t.calls && m == Sent(t.calls[owner].id, req(owner)) && m.id != 0
    requires m in Log(cfg, INIT, es, req)
    ensures m == Sent(Exec(cfg, INIT, es).calls[c].id, req(c))
  {
    InitInv();
    hide Run, Exec, Log, Inv;
    var t := Exec(cfg, INIT, es);
    SentIsLogged(cfg, INIT, es, req, c);
    CallSafety.RunKeeps(cfg, INIT, es);
    assert Sent(t.calls[c].id, req(c)).id % TWO_32 == m.id % TWO_32;
    OneOwner(t, c, owner);
  }

  /** Ids are told apart as long as no more than 2^32 of them have been taken. */
  lemma FirstIdsApart(cfg: Config, es: seq<Event>, req: Requests)
    requires Run(cfg, INIT, es) && Exec(cfg, INIT, es).msgId <= TWO_32
    ensures IdsApart(Log(cfg, INIT, es, req))
  {
    var t := Exec(cfg, INIT, es);
    InitInv();
    CallSafety.RunKeeps(cfg, INIT, es);
    hide Run, Exec, Log;
    forall m | m in Log(cfg, INIT, es, req) ensures 0 < m.id <= TWO_32 {
      var c := LoggedByOwner(cfg, INIT, es, req, m);
      assert CallOk(t, c, t.calls[c]);
    }
  }

  /** A call that returns success has parsed the message its own request was answered with. */
  lemma SuccessIsOwnAnswer(cfg: Config, es: seq<Event>, req: Requests, services: map<bytes, Service>, kind: Kind,
                           c: Cid)
    requires Run(cfg, INIT, es)
    requires var log := Log(cfg, INIT, es, req);
             && AllCarriable(kind, log) && AllAnswerable(services, kind, log) && FromServers(services, kind, log, es)
             && IdsApart(log)
    requires At(Exec(cfg, INIT, es), c, Returned(Done))
    ensures var call := Exec(cfg, INIT, es).calls[c];
            && call.popped.Some? && call.popped.value.data != []
            && ReplyBody(services, kind, Sent(call.id, req(c))) == Some(call.popped.value.data)
  {
    var t := Exec(cfg, INIT, es);
    DonePopped(cfg, es, c);
    hide Run, Exec, Log, Answered, ReplyBody, AllCarriable, AllAnswerable, FromServers, IdsApart;
    PopsOwnAnswer(cfg, es, req, services, kind, c);
  }

  lemma DonePopped(cfg: Config, es: seq<Event>, c: Cid)
    requires Run(cfg, INIT, es) && At(Exec(cfg, INIT, es), c, Returned(Done))
    ensures var call := Exec(cfg, INIT, es).calls[c];
            call.popped.Some? && call.popped.value.data != [] && call.popped.value.origin.FromFrame?
  {
    var t := Exec(cfg, INIT, es);
    InitInv();
    CallSafety.RunKeeps(cfg, INIT, es);
    hide Run, Exec;
    assert CallOk(t, c, t.calls[c]);
  }
}
