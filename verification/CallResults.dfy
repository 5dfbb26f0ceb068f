/**
 What `Call` returns, over every interleaving: which steps end a call and with which result, what a popped
 item makes of it, and on which transport it was all along.
 */
module CallResults {
  import opened Prelude
  import opened CallProtocol
  import opened CallInvariant
  import CallSafety
  import opened CallTheorems

  // ---- How calls end ----

  /** The step is one at which `Call` returns, and this is what it returns there. */
  predicate Ends(cfg: Config, s: State, e: Event, c: Cid, r: Result) {
    match e
    case Start(x) => x == c && s.wnd > cfg.window && r == WindowFull
    case Pick(x, _, established) => x == c && !established && r == NotEstablished
    case PickNone(x) => x == c && s.tps == [] && At(s, c, Repicking) && r == NotEstablished
    case Reconnect(x, ec) => x == c && ec != 0 && r == Unreachable(ec)
    case SendDone(x, ec) => x == c && At(s, c, OneWaySending) && r == SendReported(ec)
    case Lookup(x) => x == c && c in s.calls && s.calls[c].tp !in s.channels && r == NotEstablished
    case Register(x) =>
      x == c && c in s.calls && ClosedAt(s, s.calls[c].gid, s.calls[c].id % 16) && r == NotEstablished
    case Timeout(x) => x == c && r == TimedOut
    case Erase(x, parses) =>
      x == c && c in s.calls && s.calls[c].popped.Some? &&
      var item := s.calls[c].popped.value;
      if item.ec != 0 then r == Failed(item.ec)
      else if item.data != [] && parses then r == Done
      else r == ParseError
    case _ => false
  }

  /** Some step of the run ends the call with this result. */
  ghost predicate Ended(cfg: Config, s: State, es: seq<Event>, c: Cid, r: Result)
    requires Run(cfg, s, es)
    decreases |es|
  {
    es != [] && (Ends(cfg, s, es[0], c, r) || Ended(cfg, Step(cfg, s, es[0]), es[1..], c, r))
  }

  lemma OwnStepEnds(cfg: Config, s: State, e: Event, c: Cid, r: Result)
    requires Enabled(cfg, s, e) && ActsOn(e, c)
    ensures At(Step(cfg, s, e), c, Returned(r)) <==> At(s, c, Returned(r)) || Ends(cfg, s, e, c, r)
  {
  }

  lemma StepEnds(cfg: Config, s: State, e: Event, c: Cid, r: Result)
    requires Enabled(cfg, s, e)
    ensures At(Step(cfg, s, e), c, Returned(r)) <==> At(s, c, Returned(r)) || Ends(cfg, s, e, c, r)
  {
    hide Step, Enabled;
    if ActsOn(e, c) {
      OwnStepEnds(cfg, s, e, c, r);
      hide Ends;
    } else {
      CallsPersist(cfg, s, e);
      if c in s.calls {
        OthersOnlyFillSlot(cfg, s, e, c);
      }
    }
  }

  /** A call has returned a result if and only if a step of the run ended it with that result. */
  lemma {:induction false} ReturnedExactly(cfg: Config, s: State, es: seq<Event>, c: Cid, r: Result)
    requires Run(cfg, s, es)
    ensures At(Exec(cfg, s, es), c, Returned(r)) <==> At(s, c, Returned(r)) || Ended(cfg, s, es, c, r)
    decreases |es|
  {
    if es != [] {
      StepEnds(cfg, s, es[0], c, r);
      hide Step, Enabled, Ends, At;
      ReturnedExactly(cfg, Step(cfg, s, es[0]), es[1..], c, r);
    }
  }

  // ---- What a popped item makes of a call ----

  /** The result fits what the call has popped, if anything. */
  predicate ResultOk(call: Call) {
    && (call.pc == OneWaySending ==> call.popped.None?)
    && (call.pc.Returned? ==>
          var r := call.pc.result;
          match call.popped
          case None => r.WindowFull? || r.NotEstablished? || r.Unreachable? || r.TimedOut? || r.SendReported?
          case Some(item) =>
            if item.ec != 0 then r == Failed(item.ec) else r == ParseError || (r == Done && item.data != []))
  }

  ghost predicate ResultsOk(s: State) {
    forall c :: c in s.calls ==> ResultOk(s.calls[c])
  }

  lemma OwnStepResultOk(cfg: Config, s: State, e: Event, c: Cid)
    requires Enabled(cfg, s, e) && ActsOn(e, c) && (c in s.calls ==> CallOk(s, c, s.calls[c]) && ResultOk(s.calls[c]))
    ensures c in Step(cfg, s, e).calls && ResultOk(Step(cfg, s, e).calls[c])
  {
    if e.Erase? {
      hide CallOk, StartStep, PickStep, TakeIdStep, LookupStep, RegisterStep, SendStep, SendDoneStep, PopStep;
    } else if e.Register? {
      hide StartStep, PickStep, TakeIdStep, LookupStep, SendStep, SendDoneStep, PopStep, EraseStep;
    }
  }

  lemma StepKeepsResults(cfg: Config, s: State, e: Event)
    requires Inv(s) && ResultsOk(s) && Enabled(cfg, s, e)
    ensures ResultsOk(Step(cfg, s, e))
  {
    var t := Step(cfg, s, e);
    CallsPersist(cfg, s, e);
    assert CallsOk(s);
    hide Inv, Step, Enabled, CallOk, ResultOk;
    forall c | c in t.calls ensures ResultOk(t.calls[c]) {
      if ActsOn(e, c) {
        OwnStepResultOk(cfg, s, e, c);
      } else {
        StartsItself(e, c);
        OthersOnlyFillSlot(cfg, s, e, c);
        SlotIrrelevant(s.calls[c], t.calls[c]);
      }
    }
  }

  lemma StartsItself(e: Event, c: Cid)
    ensures e.Start? && !ActsOn(e, c) ==> e.c != c
  {
  }

  lemma SlotIrrelevant(was: Call, now: Call)
    requires now == was.(slot := now.slot)
    ensures ResultOk(now) == ResultOk(was)
  {
  }

  lemma {:induction false} RunKeepsResults(cfg: Config, s: State, es: seq<Event>)
    requires Inv(s) && ResultsOk(s) && Run(cfg, s, es)
    ensures ResultsOk(Exec(cfg, s, es))
    decreases |es|
  {
    if es != [] {
      StepKeepsResults(cfg, s, es[0]);
      CallSafety.StepKeeps(cfg, s, es[0]);
      hide Inv, Step, Enabled, ResultsOk;
      RunKeepsResults(cfg, Step(cfg, s, es[0]), es[1..]);
    }
  }

  /**
   Over every interleaving a call fails with an error code if and only if it popped an item with that
   code; otherwise, having popped, it succeeds with a non-empty body or reports a parse error; and it
   returns without having popped only before its wait, from its one-way send or by timing out.
   */
  lemma PoppedDecides(cfg: Config, s: State, c: Cid, r: Result)
    requires Reachable(cfg, s) && At(s, c, Returned(r))
    ensures var popped := s.calls[c].popped;
            && (forall ec :: r == Failed(ec) <==> popped.Some? && popped.value.ec == ec && ec != 0)
            && (r == Done || r == ParseError <==> popped.Some? && popped.value.ec == 0)
            && (r == Done ==> popped.value.data != [])
            && (popped.None? <==>
                  r == WindowFull || r == NotEstablished || r == TimedOut || r.Unreachable? || r.SendReported?)
  {
    var es :| Run(cfg, INIT, es) && Exec(cfg, INIT, es) == s;
    InitInv();
    RunKeepsResults(cfg, INIT, es);
    assert ResultOk(s.calls[c]);
  }

  /**
   What each kind of item comes to: the end of the connection is returned as the error the transport
   reported (or as a parse error when it reported none), a failed send as the error it reported, a response
   as success or a parse error.
   */
  lemma ItemDecides(cfg: Config, s: State, c: Cid, r: Result)
    requires Reachable(cfg, s) && At(s, c, Returned(r)) && s.calls[c].popped.Some?
    ensures var call := s.calls[c];
            match call.popped.value.origin
            case FromClose =>
              && call.gid in s.groups && s.groups[call.gid].status.Closing?
              && var ec := s.groups[call.gid].status.ec;
                 r == if ec != 0 then Failed(ec) else ParseError
            case FromSend => call.send.Reported? && call.send.ec != 0 && r == Failed(call.send.ec)
            case FromFrame(n) =>
              n < |s.arrivals| && (r == ParseError || (r == Done && s.arrivals[n].data != []))
  {
    PoppedDecides(cfg, s, c, r);
    ResponseCorrelation(cfg, s, c);
  }

  // ---- The transport of a call ----

  /** The call has been given a connected transport. */
  predicate HasTransport(call: Call) {
    call.id != 0 || call.pc == Identifying
  }

  lemma OwnStepKeepsTransport(cfg: Config, s: State, e: Event, c: Cid)
    requires Enabled(cfg, s, e) && ActsOn(e, c) && (c in s.calls ==> CallOk(s, c, s.calls[c]))
    requires c in Step(cfg, s, e).calls && HasTransport(Step(cfg, s, e).calls[c])
    ensures var call := Step(cfg, s, e).calls[c];
            || (c in s.calls && HasTransport(s.calls[c]) && s.calls[c].tp == call.tp)
            || (e == Pick(c, call.tp, true) && call.tp in s.tps)
  {
  }

  lemma StepKeepsTransport(cfg: Config, s: State, e: Event, c: Cid)
    requires Inv(s) && Enabled(cfg, s, e)
    requires c in Step(cfg, s, e).calls && HasTransport(Step(cfg, s, e).calls[c])
    ensures var call := Step(cfg, s, e).calls[c];
            || (c in s.calls && HasTransport(s.calls[c]) && s.calls[c].tp == call.tp)
            || (e == Pick(c, call.tp, true) && call.tp in s.tps)
  {
    if ActsOn(e, c) {
      assert c in s.calls ==> CallOk(s, c, s.calls[c]);
      hide Inv;
      OwnStepKeepsTransport(cfg, s, e, c);
    } else {
      CallsPersist(cfg, s, e);
      OthersOnlyFillSlot(cfg, s, e, c);
      hide Inv, Step, Enabled;
    }
  }

  /** Some step of the run gives the call this transport, which is in the dispatcher's list and connected. */
  ghost predicate Picked(cfg: Config, s: State, es: seq<Event>, c: Cid, tp: Tp)
    requires Run(cfg, s, es)
    decreases |es|
  {
    es != [] && ((es[0] == Pick(c, tp, true) && tp in s.tps) || Picked(cfg, Step(cfg, s, es[0]), es[1..], c, tp))
  }

  /** A call that takes an id does so on the transport it picked from the list, and stays with it. */
  lemma {:induction false} StaysWithItsPick(cfg: Config, s: State, es: seq<Event>, c: Cid)
    requires Inv(s) && Run(cfg, s, es)
    requires c in Exec(cfg, s, es).calls && HasTransport(Exec(cfg, s, es).calls[c])
    ensures var tp := Exec(cfg, s, es).calls[c].tp;
            Picked(cfg, s, es, c, tp) || (c in s.calls && HasTransport(s.calls[c]) && s.calls[c].tp == tp)
    decreases |es|
  {
    if es != [] {
      var t := Step(cfg, s, es[0]);
      CallSafety.StepKeeps(cfg, s, es[0]);
      StaysWithItsPick(cfg, t, es[1..], c);
      if c in t.calls && HasTransport(t.calls[c]) {
        StepKeepsTransport(cfg, s, es[0], c);
      }
      hide Inv, Step, Enabled, HasTransport;
    }
  }

  predicate PastLookup(pc: Pc) {
    pc == Registering || Registered(pc)
  }

  /** Each call that has looked up its group has one of its own transport's. */
  ghost predicate GroupsFit(s: State) {
    forall c :: c in s.calls && PastLookup(s.calls[c].pc) ==>
      s.calls[c].gid in s.groups && s.groups[s.calls[c].gid].tp == s.calls[c].tp
  }

  lemma StepKeepsGroupTps(cfg: Config, s: State, e: Event, g: Gid)
    requires Enabled(cfg, s, e) && g in s.groups
    ensures g in Step(cfg, s, e).groups && Step(cfg, s, e).groups[g].tp == s.groups[g].tp
  {
    if !TouchesGroups(e) {
      OtherStepsLeaveGroups(cfg, s, e);
      hide Step;
    }
  }

  lemma OwnStepKeepsPlace(cfg: Config, s: State, e: Event, c: Cid)
    requires Enabled(cfg, s, e) && ActsOn(e, c) && !e.Lookup?
    requires c in Step(cfg, s, e).calls && PastLookup(Step(cfg, s, e).calls[c].pc)
    ensures c in s.calls && PastLookup(s.calls[c].pc)
    ensures Step(cfg, s, e).calls[c].gid == s.calls[c].gid && Step(cfg, s, e).calls[c].tp == s.calls[c].tp
  {
  }

  lemma LookupFitsGroup(s: State, c: Cid)
    requires c in s.calls && ChannelsOk(s) && LookupStep(s, c).calls[c].pc == Registering
    requires s.calls[c].pc == LookingUp
    ensures var call := LookupStep(s, c).calls[c]; call.gid in s.groups && s.groups[call.gid].tp == call.tp
  {
  }

  lemma OwnStepFitsGroup(cfg: Config, s: State, e: Event, c: Cid)
    requires Enabled(cfg, s, e) && ActsOn(e, c) && ChannelsOk(s) && GroupsFit(s)
    requires c in Step(cfg, s, e).calls && PastLookup(Step(cfg, s, e).calls[c].pc)
    ensures var call := Step(cfg, s, e).calls[c]; call.gid in s.groups && s.groups[call.gid].tp == call.tp
  {
    if e.Lookup? {
      LookupFitsGroup(s, c);
      hide ChannelsOk, GroupsFit;
    } else {
      OwnStepKeepsPlace(cfg, s, e, c);
      hide Step, Enabled, ChannelsOk;
    }
  }

  lemma StepKeepsGroupsFit(cfg: Config, s: State, e: Event)
    requires Inv(s) && GroupsFit(s) && Enabled(cfg, s, e)
    ensures GroupsFit(Step(cfg, s, e))
  {
    var t := Step(cfg, s, e);
    CallsPersist(cfg, s, e);
    assert ChannelsOk(s);
    hide Inv, Step, Enabled, ChannelsOk;
    forall c | c in t.calls && PastLookup(t.calls[c].pc)
      ensures t.calls[c].gid in t.groups && t.groups[t.calls[c].gid].tp == t.calls[c].tp
    {
      if ActsOn(e, c) {
        OwnStepFitsGroup(cfg, s, e, c);
      } else {
        StartsItself(e, c);
        OthersOnlyFillSlot(cfg, s, e, c);
      }
      StepKeepsGroupTps(cfg, s, e, t.calls[c].gid);
    }
  }

  lemma {:induction false} RunKeepsGroupsFit(cfg: Config, s: State, es: seq<Event>)
    requires Inv(s) && GroupsFit(s) && Run(cfg, s, es)
    ensures GroupsFit(Exec(cfg, s, es))
    decreases |es|
  {
    if es != [] {
      StepKeepsGroupsFit(cfg, s, es[0]);
      CallSafety.StepKeeps(cfg, s, es[0]);
      hide Inv, Step, Enabled, GroupsFit;
      RunKeepsGroupsFit(cfg, Step(cfg, s, es[0]), es[1..]);
    }
  }

  /** A call only ever waits on a connection of the transport it was given. */
  lemma WaitsOnItsTransport(cfg: Config, es: seq<Event>, c: Cid)
    requires Run(cfg, INIT, es) && c in Exec(cfg, INIT, es).calls && Registered(Exec(cfg, INIT, es).calls[c].pc)
    ensures var t := Exec(cfg, INIT, es);
            var call := t.calls[c];
            call.gid in t.groups && t.groups[call.gid].tp == call.tp && Picked(cfg, INIT, es, c, call.tp)
  {
    var t := Exec(cfg, INIT, es);
    InitInv();
    RunKeepsGroupsFit(cfg, INIT, es);
    CallSafety.RunKeeps(cfg, INIT, es);
    assert CallOk(t, c, t.calls[c]);
    hide Run, Exec, CallOk;
    StaysWithItsPick(cfg, INIT, es, c);
  }
}
