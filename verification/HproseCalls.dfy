/**
 Hprose calls over the whole stack, for any interleaving of any callers on any connections: marshalled
 by the stub, served by the Hprose service, delivered to their own callers and unmarshalled there. And
 the requests that stop a server: those whose decoding throws.
 */
module HproseCalls {
  import opened Prelude
  import opened Headers
  import opened Framing
  import opened CallProtocol
  import opened Server
  import opened Sessions
  import opened Answers
  import H = HproseService
  import F = HproseFormat

  /** The server's one service; an exception from decoding leaves it. */
  ghost function HproseServices(functions: map<bytes, H.Callee>): map<bytes, Service>
    requires H.AllWellTyped(functions)
  {
    map[HPROSE_NAME := (_: bytes, request: bytes) =>
      match H.Serve(functions, request)
      case Body(content) => Message(content)
      case Raised => Throws]
  }

  // ---- Which requests stop the server ----

  /**
   A request is served if and only if it is not a call in whose arguments decoding reaches a list with a
   negative count.
   */
  lemma ServedUnlessNegativeCount(functions: map<bytes, H.Callee>, f: Frame)
    requires H.AllWellTyped(functions) && f.head.Hprose?
    ensures Servable(HproseServices(functions), f) <==> !H.CallsWithNegativeCount(functions, f.body)
  {
    H.RaisedExactly(functions, f.body);
    hide H.Serve, H.CallsWithNegativeCount;
  }

  /** Some request can stop a server if and only if one of its functions takes a list. */
  lemma StoppableExactly(functions: map<bytes, H.Callee>)
    requires H.AllWellTyped(functions) && forall n :: n in functions ==> |n| < TWO_31
    ensures (exists f: Frame :: f.head.Hprose? && TurnOf(HproseServices(functions), f) == Threw) <==>
            exists n :: n in functions && H.TakesList(functions[n])
  {
    H.RaisableExactly(functions);
    hide H.Serve, H.TakesList, H.AllWellTyped;
    if f: Frame :| f.head.Hprose? && TurnOf(HproseServices(functions), f) == Threw {
      assert H.Serve(functions, f.body) == H.Raised;
    }
    if b :| H.Serve(functions, b) == H.Raised {
      var f := Frame(Hprose(0, 0), b);
      assert TurnOf(HproseServices(functions), f) == Threw;
    }
  }

  // ---- Calls made by stubs ----

  /** What the stub of one call asks of the function that runs, for its name and arguments to survive. */
  ghost predicate Callable(functions: map<bytes, H.Callee>, name: bytes, c: H.Callee, vs: seq<F.Value>) {
    && H.Runs(functions, name, c)
    && |name| < TWO_31 && (forall i :: 0 <= i < |name| - 1 ==> name[i] < 128)
    && H.Typed(vs, c.params) && H.AllSmall(c.params, vs)
  }

  ghost predicate StubMade(
      functions: map<bytes, H.Callee>, name: bytes, c: H.Callee, vs: seq<F.Value>, body: bytes)
  {
    Callable(functions, name, c, vs) && body == H.CallBytes(name, c.params, vs)
  }

  lemma AnswerIsResult(functions: map<bytes, H.Callee>, m: Sent, name: bytes, c: H.Callee, vs: seq<F.Value>)
    requires H.AllWellTyped(functions) && StubMade(functions, name, c, vs, m.request.body)
    ensures F.HasType(c.f(vs), c.ret)
    ensures ReplyBody(HproseServices(functions), HproseKind, m) == Some(H.ResultBytes(c.ret, c.f(vs)))
  {
    H.MarshalledCall(functions, name, c, vs);
    hide H.Serve, H.CallBytes, H.ResultBytes, H.Runs;
  }

  /** A request a stub made never stops the server. */
  lemma StubRequestIsServed(functions: map<bytes, H.Callee>, m: Sent, name: bytes, c: H.Callee, vs: seq<F.Value>)
    requires H.AllWellTyped(functions) && StubMade(functions, name, c, vs, m.request.body)
    ensures Servable(HproseServices(functions), SentFrame(HproseKind, m))
  {
    H.MarshalledCall(functions, name, c, vs);
    hide H.Serve, H.CallBytes, H.ResultBytes, H.Runs;
  }

  /**
   Over every interleaving: a stub's call that returns success has in hand the bytes that decode to what
   the function registered under its name, or else under `*`, returns for the caller's arguments.
   */
  lemma HproseCallReturns(
      cfg: Config, functions: map<bytes, H.Callee>, es: seq<Event>, req: Requests, c: Cid,
      name: bytes, callee: H.Callee, vs: seq<F.Value>)
    requires H.AllWellTyped(functions) && Run(cfg, INIT, es)
    requires var log, services := Log(cfg, INIT, es, req), HproseServices(functions);
             && AllCarriable(HproseKind, log) && AllAnswerable(services, HproseKind, log)
             && FromServers(services, HproseKind, log, es) && IdsApart(log)
    requires At(Exec(cfg, INIT, es), c, Returned(Done)) && StubMade(functions, name, callee, vs, req(c).body)
    requires F.HasType(callee.f(vs), callee.ret) ==> F.Small(callee.ret, callee.f(vs))
    ensures var call := Exec(cfg, INIT, es).calls[c];
            && call.popped.Some?
            && H.DecodeReply(callee.ret, call.popped.value.data) == H.Returned(callee.f(vs))
  {
    hide Run, Exec, Log, FromServers, AllCarriable, AllAnswerable, IdsApart, ReplyBody, HproseServices;
    SuccessIsOwnAnswer(cfg, es, req, HproseServices(functions), HproseKind, c);
    AnswerIsResult(functions, Sent(Exec(cfg, INIT, es).calls[c].id, req(c)), name, callee, vs);
    H.DecodeResult(callee.ret, callee.f(vs));
  }
}
