/** What the invariant of the call multiplexer means for callers, over every interleaving. */
module CallTheorems {
  import opened Prelude
  import opened CallProtocol
  import opened CallInvariant
  import opened CallSafety

  /** `s` is the end of some interleaving from the start. */
  ghost predicate Reachable(cfg: Config, s: State) {
    exists es :: Run(cfg, INIT, es) && Exec(cfg, INIT, es) == s
  }

  lemma ReachableInv(cfg: Config, s: State)
    requires Reachable(cfg, s)
    ensures Inv(s)
  {
    var es :| Run(cfg, INIT, es) && Exec(cfg, INIT, es) == s;
    InitInv();
    RunKeeps(cfg, INIT, es);
  }

  // ---- What a step leaves alone ----

  /** Whether the step is the call's own: taken by its caller or by its send callback. */
  predicate ActsOn(e: Event, c: Cid) {
    match e
    case Start(x) => x == c
    case Pick(x, _, _) => x == c
    case PickNone(x) => x == c
    case Reconnect(x, _) => x == c
    case TakeId(x, _) => x == c
    case Lookup(x) => x == c
    case Register(x) => x == c
    case Send(x) => x == c
    case SendDone(x, _) => x == c
    case Count(x) => x == c
    case Pop(x) => x == c
    case Timeout(x) => x == c
    case Uncount(x) => x == c
    case Erase(x, _) => x == c
    case _ => false
  }

  predicate TouchesGroups(e: Event) {
    e.Register? || e.Erase? || e.Install? || e.Detach? || e.CloseShard?
  }

  /** Steps of others can fill a call's empty channel and change nothing else of the call. */
  lemma OthersOnlyFillSlot(cfg: Config, s: State, e: Event, c: Cid)
    requires Enabled(cfg, s, e) && c in s.calls && !ActsOn(e, c)
    ensures c in Step(cfg, s, e).calls
    ensures var was, now := s.calls[c], Step(cfg, s, e).calls[c];
            now == was.(slot := now.slot) && (was.slot.Some? ==> now.slot == was.slot)
  {
    if !e.Push? && !e.CloseShard? {
      OnlyPushAndSweepFill(cfg, s, e, c);
      hide Step;
    }
  }

  lemma CallsPersist(cfg: Config, s: State, e: Event)
    requires Enabled(cfg, s, e)
    ensures Step(cfg, s, e).calls.Keys == s.calls.Keys + if e.Start? then {e.c} else {}
  {
    if MovesCaller(e) {
      CallerMoved(cfg, s, e);
      hide Step;
    }
  }

  lemma OtherStepsLeaveGroups(cfg: Config, s: State, e: Event)
    requires Enabled(cfg, s, e) && !TouchesGroups(e)
    ensures Step(cfg, s, e).groups == s.groups
  {
  }

  // ---- No lost wakeup ----

  /** `OnDisconnected` has detached the group and swept all its shards. */
  predicate Disconnected(s: State, g: Gid) {
    g in s.groups && s.groups[g].status.Closing? && s.groups[g].status.next == GROUPS
  }

  /**
   No lost wakeup: a call that still waits in a closed shard has an item in its channel. So once
   `OnDisconnected` is through, every waiting call of the group can take its next step.
   */
  lemma NoLostWakeup(cfg: Config, s: State, c: Cid)
    requires Reachable(cfg, s) && c in s.calls && Awaiting(s.calls[c].pc)
    ensures ClosedAt(s, s.calls[c].gid, Shard(s.calls[c].id)) ==> s.calls[c].slot.Some?
    ensures Disconnected(s, s.calls[c].gid) ==>
              s.calls[c].slot.Some? && (s.calls[c].pc == Waiting ==> Enabled(cfg, s, Pop(c)))
    ensures Disconnected(s, s.calls[c].gid) <==> forall i :: 0 <= i < 16 ==> ClosedAt(s, s.calls[c].gid, i)
  {
    ReachableInv(cfg, s);
    assert CallOk(s, c, s.calls[c]);
    var g := s.calls[c].gid;
    assert GroupOk(s.groups[g]);
    hide Inv, CallOk;
    assert (forall i :: 0 <= i < 16 ==> ClosedAt(s, g, i)) ==> ClosedAt(s, g, 15);
  }

  lemma RegisterRespectsClosed(s: State, c: Cid, g: Gid, i: nat)
    requires Inv(s) && At(s, c, Registering) && ClosedAt(s, g, i)
    ensures ClosedAt(RegisterStep(s, c), g, i) && MapOf(RegisterStep(s, c), g, i) == MapOf(s, g, i)
  {
    var call := s.calls[c];
    assert CallOk(s, c, call);
    assert GroupOk(s.groups[call.gid]);
    SetMapFrame(s, call.gid, Shard(call.id), MapOf(s, call.gid, Shard(call.id))[call.id := c]);
  }

  lemma EraseRespectsClosed(s: State, c: Cid, parses: bool, g: Gid, i: nat)
    requires Inv(s) && At(s, c, Erasing) && s.calls[c].popped.Some? && ClosedAt(s, g, i)
    ensures ClosedAt(EraseStep(s, c, parses), g, i)
    ensures MapOf(EraseStep(s, c, parses), g, i).Keys <= MapOf(s, g, i).Keys
  {
    var call := s.calls[c];
    assert CallOk(s, c, call);
    assert GroupOk(s.groups[call.gid]);
    SetMapFrame(s, call.gid, Shard(call.id), MapOf(s, call.gid, Shard(call.id)) - {call.id});
  }

  /** A closed shard stays closed and no call ever registers in it. */
  lemma ClosedShardTakesNoCall(cfg: Config, s: State, e: Event, g: Gid, i: nat)
    requires Inv(s) && Enabled(cfg, s, e) && ClosedAt(s, g, i)
    ensures ClosedAt(Step(cfg, s, e), g, i)
    ensures MapOf(Step(cfg, s, e), g, i).Keys <= MapOf(s, g, i).Keys
  {
    if !TouchesGroups(e) {
      OtherStepsLeaveGroups(cfg, s, e);
      hide Inv, Step;
    } else {
      hide Inv, RegisterStep, EraseStep, CloseShardStep, InstallStep;
      match e
      case Register(c) => RegisterRespectsClosed(s, c, g, i);
      case Erase(c, parses) => EraseRespectsClosed(s, c, parses, g, i);
      case CloseShard(g0) => SweepRespectsClosed(s, g0, g, i);
      case Install(tp, g0) => InstallRespectsClosed(s, tp, g0, g, i);
      case _ =>
    }
  }

  lemma SweepRespectsClosed(s: State, g0: Gid, g: Gid, i: nat)
    requires Inv(s) && g0 in s.groups && s.groups[g0].status.Closing? && s.groups[g0].status.next < GROUPS
    requires ClosedAt(s, g, i)
    ensures ClosedAt(CloseShardStep(s, g0), g, i) && MapOf(CloseShardStep(s, g0), g, i) == MapOf(s, g, i)
  {
    CloseShardFrame(s, g0);
  }

  lemma InstallRespectsClosed(s: State, tp: Tp, g0: Gid, g: Gid, i: nat)
    requires Inv(s) && g0 !in s.groups && ClosedAt(s, g, i)
    ensures ClosedAt(InstallStep(s, tp, g0), g, i) && MapOf(InstallStep(s, tp, g0), g, i) == MapOf(s, g, i)
  {
    InstallFrame(s, tp, g0);
  }

  /** A waiting call with an item keeps both until it pops: no other step can take the item away. */
  lemma ItemStaysUntilPopped(cfg: Config, s: State, e: Event, c: Cid)
    requires Inv(s) && Enabled(cfg, s, e) && Enabled(cfg, s, Pop(c))
    requires e != Pop(c) && e != Timeout(c)
    ensures var t := Step(cfg, s, e);
            Enabled(cfg, t, Pop(c)) && c in t.calls && t.calls[c].slot == s.calls[c].slot
  {
    hide Inv;
    if ActsOn(e, c) {
      ReportLeavesItem(cfg, s, e, c);
      hide Step;
    } else {
      OthersOnlyFillSlot(cfg, s, e, c);
      hide Step;
    }
  }

  /** The only other step of a waiting call's own is its send callback, which finds the channel full. */
  lemma ReportLeavesItem(cfg: Config, s: State, e: Event, c: Cid)
    requires Enabled(cfg, s, e) && ActsOn(e, c) && At(s, c, Waiting) && s.calls[c].slot.Some?
    requires e != Pop(c) && e != Timeout(c)
    ensures At(Step(cfg, s, e), c, Waiting) && Step(cfg, s, e).calls[c].slot == s.calls[c].slot
  {
    assert e.SendDone?;
  }

  /** No frame under the call's id is on its way through `OnResponse` to the call's group. */
  ghost predicate NoneUnderWay(s: State, g: Gid, id: nat) {
    forall n :: 0 <= n < |s.arrivals| && s.arrivals[n].gid == g && s.arrivals[n].id == id ==>
      s.arrivals[n].stage.Settled?
  }

  /**
   A call that can never be woken: it waits with an empty channel in a group that was pushed out of
   `channels_` by a second connect, its send has been reported and no frame is on its way to it.
   */
  ghost predicate Stranded(s: State, c: Cid) {
    && At(s, c, Waiting) && s.calls[c].slot.None? && s.calls[c].send.Reported?
    && s.calls[c].gid in s.groups && s.groups[s.calls[c].gid].status == Replaced
    && NoneUnderWay(s, s.calls[c].gid, s.calls[c].id)
  }

  /** A stranded call can only time out. */
  lemma StrandedStays(cfg: Config, s: State, e: Event, c: Cid)
    requires Inv(s) && Enabled(cfg, s, e) && Stranded(s, c) && e != Timeout(c)
    ensures Stranded(Step(cfg, s, e), c)
  {
    StrandedTakesNoStep(cfg, s, e, c);
    hide Inv, Step, Enabled, ActsOn, NoneUnderWay;
    OthersOnlyFillSlot(cfg, s, e, c);
    StrandedSlotStays(cfg, s, e, c);
    ReplacedStays(cfg, s, e, s.calls[c].gid);
    NothingNewForReplaced(cfg, s, e, s.calls[c].gid, s.calls[c].id);
  }

  lemma StrandedTakesNoStep(cfg: Config, s: State, e: Event, c: Cid)
    requires Enabled(cfg, s, e) && Stranded(s, c) && e != Timeout(c)
    ensures !ActsOn(e, c)
  {
  }

  lemma StrandedSlotStays(cfg: Config, s: State, e: Event, c: Cid)
    requires Inv(s) && Enabled(cfg, s, e) && Stranded(s, c) && !ActsOn(e, c)
    ensures c in Step(cfg, s, e).calls && Step(cfg, s, e).calls[c].slot.None?
  {
    if e.Push? {
      assert ArrivalOk(s, s.arrivals[e.n]);
      hide Inv;
    } else if e.CloseShard? {
      SweepReachesRegistered(s, e.g, s.groups[e.g].status.next, c);
      hide Inv;
    } else {
      OnlyPushAndSweepFill(cfg, s, e, c);
      hide Inv, Step;
    }
  }

  /** Another's step leaves a call as it is unless it pushes a frame or sweeps a shard. */
  lemma OnlyPushAndSweepFill(cfg: Config, s: State, e: Event, c: Cid)
    requires Enabled(cfg, s, e) && c in s.calls && !ActsOn(e, c) && !e.Push? && !e.CloseShard?
    ensures c in Step(cfg, s, e).calls && Step(cfg, s, e).calls[c] == s.calls[c]
  {
    if MovesCaller(e) {
      CallerMoved(cfg, s, e);
      hide Step;
    }
  }

  lemma ReplacedStays(cfg: Config, s: State, e: Event, g: Gid)
    requires Inv(s) && Enabled(cfg, s, e) && g in s.groups && s.groups[g].status == Replaced
    ensures g in Step(cfg, s, e).groups && Step(cfg, s, e).groups[g].status == Replaced
  {
    if !TouchesGroups(e) {
      OtherStepsLeaveGroups(cfg, s, e);
      hide Inv, Step;
    }
  }

  lemma NothingNewForReplaced(cfg: Config, s: State, e: Event, g: Gid, id: nat)
    requires Inv(s) && Enabled(cfg, s, e) && g in s.groups && s.groups[g].status == Replaced
    requires NoneUnderWay(s, g, id)
    ensures NoneUnderWay(Step(cfg, s, e), g, id)
  {
    if !(e.Arrive? || e.Match? || e.Push?) {
      OtherStepsLeaveArrivals(cfg, s, e);
      hide Inv, Step;
    }
  }

  lemma OtherStepsLeaveArrivals(cfg: Config, s: State, e: Event)
    requires Enabled(cfg, s, e) && !(e.Arrive? || e.Match? || e.Push?)
    ensures Step(cfg, s, e).arrivals == s.arrivals
  {
    if MovesCaller(e) {
      CallerMoved(cfg, s, e);
      hide Step;
    }
  }

  /** Without timeouts a stranded call blocks for ever, whatever happens next. */
  lemma {:induction false} StrandedForEver(cfg: Config, s: State, es: seq<Event>, c: Cid)
    requires Inv(s) && Run(cfg, s, es) && Stranded(s, c) && !cfg.timeouts
    ensures Stranded(Exec(cfg, s, es), c)
    decreases |es|
  {
    if es != [] {
      StrandedStays(cfg, s, es[0], c);
      StepKeeps(cfg, s, es[0]);
      StrandedForEver(cfg, Step(cfg, s, es[0]), es[1..], c);
    }
  }

  /**
   When no sweep of its group is under way, a call whose wait nothing in flight can end is stranded
   if and only if its group is no longer in `channels_`.
   */
  lemma LostOnlyByReplacement(cfg: Config, s: State, c: Cid)
    requires Reachable(cfg, s) && At(s, c, Waiting) && s.calls[c].slot.None? && s.calls[c].send.Reported?
    requires s.calls[c].gid in s.groups && NoneUnderWay(s, s.calls[c].gid, s.calls[c].id)
    requires !(s.groups[s.calls[c].gid].status.Closing? && s.groups[s.calls[c].gid].status.next < GROUPS)
    ensures Stranded(s, c) <==> s.calls[c].gid !in s.channels.Values
  {
    ReachableInv(cfg, s);
    var g := s.calls[c].gid;
    NoLostWakeup(cfg, s, c);
    assert GroupOk(s.groups[g]);
    if s.groups[g].status == Attached {
      assert s.channels[s.groups[g].tp] == g;
    }
  }

  // ---- Response correlation ----

  /**
   Response correlation, against any peer: what a call takes from its channel is the error of its
   own send, the disconnect error of its own group, or a frame that arrived on its own group with
   its own id.
   */
  lemma ResponseCorrelation(cfg: Config, s: State, c: Cid)
    requires Reachable(cfg, s) && c in s.calls && s.calls[c].popped.Some?
    ensures ItemOk(s, c, s.calls[c], s.calls[c].popped.value)
  {
    ReachableInv(cfg, s);
    assert CallOk(s, c, s.calls[c]);
  }

  /** No response frame is consumed by two calls. */
  lemma FrameConsumedOnce(cfg: Config, s: State, c: Cid, c': Cid, n: nat)
    requires Reachable(cfg, s) && c in s.calls && c' in s.calls
    requires s.calls[c].popped.Some? && s.calls[c].popped.value.origin == FromFrame(n)
    requires s.calls[c'].popped.Some? && s.calls[c'].popped.value.origin == FromFrame(n)
    ensures c == c'
  {
    ResponseCorrelation(cfg, s, c);
    ResponseCorrelation(cfg, s, c');
  }

  /** No call consumes two items: what it popped is popped for good. */
  lemma PopsOnce(cfg: Config, s: State, e: Event, c: Cid)
    requires Inv(s) && Enabled(cfg, s, e) && c in s.calls && s.calls[c].popped.Some?
    ensures c in Step(cfg, s, e).calls && Step(cfg, s, e).calls[c].popped == s.calls[c].popped
  {
    if ActsOn(e, c) {
      assert CallOk(s, c, s.calls[c]);
      hide Inv;
    } else {
      OthersOnlyFillSlot(cfg, s, e, c);
      hide Inv, Step;
    }
  }

  /** The ids of arriving frames are read from a 32-bit field. */
  ghost predicate WireIds(es: seq<Event>) {
    forall k :: 0 <= k < |es| && es[k].Arrive? ==> es[k].id < TWO_32
  }

  ghost predicate ArrivalIdsFit(s: State) {
    forall n :: 0 <= n < |s.arrivals| ==> s.arrivals[n].id < TWO_32
  }

  lemma {:induction false} WireIdsStayNarrow(cfg: Config, s: State, es: seq<Event>)
    requires Run(cfg, s, es) && WireIds(es) && ArrivalIdsFit(s)
    ensures ArrivalIdsFit(Exec(cfg, s, es))
    decreases |es|
  {
    if es != [] {
      var t := Step(cfg, s, es[0]);
      forall n | 0 <= n < |t.arrivals| ensures t.arrivals[n].id < TWO_32 {
        assert n < |s.arrivals| ==> t.arrivals[n].id == s.arrivals[n].id;
      }
      WireIdsStayNarrow(cfg, t, es[1..]);
    }
  }

  /**
   `callid` is 32 bits wide while `msg_id` is not: once the counter passes 2^32 - 1 a call can pop
   an error but never a response.
   */
  lemma WideIdNeverAnswered(cfg: Config, es: seq<Event>, c: Cid)
    requires Run(cfg, INIT, es) && WireIds(es)
    requires c in Exec(cfg, INIT, es).calls
    requires Exec(cfg, INIT, es).calls[c].id >= TWO_32 && Exec(cfg, INIT, es).calls[c].popped.Some?
    ensures !Exec(cfg, INIT, es).calls[c].popped.value.origin.FromFrame?
  {
    WireIdsStayNarrow(cfg, INIT, es);
    ResponseCorrelation(cfg, Exec(cfg, INIT, es), c);
  }

  // ---- Conservation ----

  function CountedCalls(s: State): set<Cid> {
    set c | c in s.calls && Counted(s.calls[c].pc)
  }

  function TimedOutCalls(s: State): set<Cid> {
    set c | c in s.calls && s.calls[c].pc == Returned(TimedOut)
  }

  /** Membership of the window after a step: entered by `Count`, left by `Uncount` only. */
  predicate CountedAfter(s: State, e: Event, c: Cid) {
    if e == Count(c) then true
    else if e == Uncount(c) then false
    else c in s.calls && Counted(s.calls[c].pc)
  }

  lemma OwnStepCounts(cfg: Config, s: State, e: Event, c: Cid)
    requires Enabled(cfg, s, e) && ActsOn(e, c)
    ensures c in Step(cfg, s, e).calls
    ensures Counted(Step(cfg, s, e).calls[c].pc) <==> CountedAfter(s, e, c)
  {
  }

  lemma StepCounts(cfg: Config, s: State, e: Event, c: Cid)
    requires Enabled(cfg, s, e)
    ensures c in Step(cfg, s, e).calls && Counted(Step(cfg, s, e).calls[c].pc) <==> CountedAfter(s, e, c)
  {
    if ActsOn(e, c) {
      OwnStepCounts(cfg, s, e, c);
    } else {
      CallsPersist(cfg, s, e);
      if c in s.calls {
        OthersOnlyFillSlot(cfg, s, e, c);
      }
    }
  }

  lemma StepMovesWindow(cfg: Config, s: State, e: Event)
    requires Enabled(cfg, s, e)
    ensures Step(cfg, s, e).wnd == s.wnd + if e.Count? then 1 else if e.Uncount? then -1 else 0
    ensures e.Count? ==> e.c !in CountedCalls(s)
    ensures e.Uncount? ==> e.c in CountedCalls(s)
  {
  }

  lemma CountedCallsMove(cfg: Config, s: State, e: Event)
    requires Enabled(cfg, s, e)
    ensures CountedCalls(Step(cfg, s, e)) ==
              CountedCalls(s) + (if e.Count? then {e.c} else {}) - if e.Uncount? then {e.c} else {}
  {
    hide Step, Enabled, Counted;
    var t := Step(cfg, s, e);
    forall c ensures c in CountedCalls(t) <==> CountedAfter(s, e, c) {
      StepCounts(cfg, s, e, c);
      hide CountedAfter;
    }
  }

  lemma StepKeepsWindow(cfg: Config, s: State, e: Event)
    requires Enabled(cfg, s, e) && s.wnd == |CountedCalls(s)|
    ensures Step(cfg, s, e).wnd == |CountedCalls(Step(cfg, s, e))|
  {
    StepMovesWindow(cfg, s, e);
    CountedCallsMove(cfg, s, e);
    hide *;
  }

  lemma {:induction false} RunKeepsWindow(cfg: Config, s: State, es: seq<Event>)
    requires Inv(s) && Run(cfg, s, es) && s.wnd == |CountedCalls(s)|
    ensures Exec(cfg, s, es).wnd == |CountedCalls(Exec(cfg, s, es))|
    decreases |es|
  {
    if es != [] {
      StepKeepsWindow(cfg, s, es[0]);
      StepKeeps(cfg, s, es[0]);
      RunKeepsWindow(cfg, Step(cfg, s, es[0]), es[1..]);
    }
  }

  /** `wnd_size_` is the number of calls inside the window plus the calls that ever timed out. */
  lemma WindowConserved(cfg: Config, s: State)
    requires Reachable(cfg, s)
    ensures s.wnd == |CountedCalls(s)| && s.wnd >= |TimedOutCalls(s)|
  {
    var es :| Run(cfg, INIT, es) && Exec(cfg, INIT, es) == s;
    InitInv();
    RunKeepsWindow(cfg, INIT, es);
    SubsetSize(TimedOutCalls(s), CountedCalls(s));
  }

  lemma {:induction false} SubsetSize<T>(small: set<T>, big: set<T>)
    requires small <= big
    ensures |small| <= |big|
  {
    assert big == small + (big - small);
  }

  /**
   The shard maps hold exactly the registered calls: a call is registered if and only if it is the
   entry of its id in its id's shard of its own group, every entry is such a call, and an id is in one
   map only.
   */
  lemma EntriesConserved(cfg: Config, s: State)
    requires Reachable(cfg, s)
    ensures forall c :: c in s.calls ==>
              (Registered(s.calls[c].pc) <==>
                 s.calls[c].id in MapOf(s, s.calls[c].gid, Shard(s.calls[c].id))
                 && MapOf(s, s.calls[c].gid, Shard(s.calls[c].id))[s.calls[c].id] == c)
    ensures forall g: Gid, i: nat, id: nat :: id in MapOf(s, g, i) ==>
              i == id % 16 && EntryOk(s, g, i, id, MapOf(s, g, i)[id])
    ensures forall g: Gid, i: nat, g': Gid, i': nat, id: nat :: id in MapOf(s, g, i) && id in MapOf(s, g', i') ==>
              g == g' && i == i'
  {
    ReachableInv(cfg, s);
    forall g: Gid, i: nat, g': Gid, i': nat, id: nat | id in MapOf(s, g, i) && id in MapOf(s, g', i')
      ensures g == g' && i == i'
    {
      IdInOneMap(s, g, i, g', i', id);
    }
    forall c | c in s.calls
      ensures Registered(s.calls[c].pc) <==>
                s.calls[c].id in MapOf(s, s.calls[c].gid, Shard(s.calls[c].id))
                && MapOf(s, s.calls[c].gid, Shard(s.calls[c].id))[s.calls[c].id] == c
    {
      var call := s.calls[c];
      var m := MapOf(s, call.gid, Shard(call.id));
      assert CallOk(s, c, call);
      assert call.id in m ==> EntryOk(s, call.gid, Shard(call.id), call.id, m[call.id]);
    }
  }

  lemma IdInOneMap(s: State, g: Gid, i: nat, g': Gid, i': nat, id: nat)
    requires Inv(s) && id in MapOf(s, g, i) && id in MapOf(s, g', i')
    ensures g == g' && i == i'
  {
    assert EntryOk(s, g, i, id, MapOf(s, g, i)[id]);
    assert EntryOk(s, g', i', id, MapOf(s, g', i')[id]);
    assert CallOk(s, MapOf(s, g, i)[id], s.calls[MapOf(s, g, i)[id]]);
  }

  /** Every call has returned. */
  ghost predicate Quiet(s: State) {
    forall c :: c in s.calls ==> s.calls[c].pc.Returned?
  }

  /** At rest the window and the shard maps hold the timed-out calls and nothing else. */
  lemma QuietLeavesTimeouts(cfg: Config, s: State)
    requires Reachable(cfg, s) && Quiet(s)
    ensures s.wnd == |TimedOutCalls(s)|
    ensures forall g: Gid, i: nat, id: nat :: id in MapOf(s, g, i) ==> MapOf(s, g, i)[id] in TimedOutCalls(s)
    ensures s.wnd == 0 <==> forall g: Gid, i: nat :: MapOf(s, g, i) == map[]
  {
    WindowConserved(cfg, s);
    EntriesConserved(cfg, s);
    assert CountedCalls(s) == TimedOutCalls(s);
    forall g: Gid, i: nat, id: nat | id in MapOf(s, g, i) ensures MapOf(s, g, i)[id] in TimedOutCalls(s) {
      assert EntryOk(s, g, i, id, MapOf(s, g, i)[id]);
    }
    if s.wnd != 0 {
      var c :| c in TimedOutCalls(s);
      assert MapOf(s, s.calls[c].gid, Shard(s.calls[c].id)) != map[];
    } else {
      assert TimedOutCalls(s) == {};
      forall g: Gid, i: nat ensures MapOf(s, g, i) == map[] {
        assert forall id :: id !in MapOf(s, g, i);
      }
    }
  }

  lemma {:induction false} NoTimeoutsRun(cfg: Config, s: State, es: seq<Event>)
    requires Run(cfg, s, es) && !cfg.timeouts && TimedOutCalls(s) == {}
    ensures TimedOutCalls(Exec(cfg, s, es)) == {}
    decreases |es|
  {
    if es != [] {
      var t := Step(cfg, s, es[0]);
      forall c | c in t.calls ensures t.calls[c].pc != Returned(TimedOut) {
        assert c in s.calls ==> c !in TimedOutCalls(s);
      }
      NoTimeoutsRun(cfg, t, es[1..]);
    }
  }

  /** With `rcv_timeout_ms = 0` nothing leaks: at rest the window is 0 and every map is empty. */
  lemma NoTimeoutsNoLeak(cfg: Config, s: State)
    requires Reachable(cfg, s) && Quiet(s) && !cfg.timeouts
    ensures s.wnd == 0
    ensures forall g: Gid, i: nat :: MapOf(s, g, i) == map[]
  {
    var es :| Run(cfg, INIT, es) && Exec(cfg, INIT, es) == s;
    NoTimeoutsRun(cfg, INIT, es);
    QuietLeavesTimeouts(cfg, s);
  }

  lemma TimeoutsOnlyGrow(cfg: Config, s: State, e: Event)
    requires Inv(s) && Enabled(cfg, s, e)
    ensures TimedOutCalls(s) <= TimedOutCalls(Step(cfg, s, e))
  {
    forall c | c in TimedOutCalls(s) ensures c in TimedOutCalls(Step(cfg, s, e)) {
      if ActsOn(e, c) {
        ReturnedStays(cfg, s, e, c);
      } else {
        OthersOnlyFillSlot(cfg, s, e, c);
      }
      hide Step, Enabled, Inv;
    }
  }

  /** Only the send callback can still act on a call that has returned, and it does not change the result. */
  lemma ReturnedStays(cfg: Config, s: State, e: Event, c: Cid)
    requires Enabled(cfg, s, e) && ActsOn(e, c) && c in s.calls && s.calls[c].pc.Returned?
    ensures c in Step(cfg, s, e).calls && Step(cfg, s, e).calls[c].pc == s.calls[c].pc
  {
    assert e.SendDone?;
  }

  lemma {:induction false} TimeoutsNeverShrink(cfg: Config, s: State, es: seq<Event>)
    requires Inv(s) && Run(cfg, s, es)
    ensures TimedOutCalls(s) <= TimedOutCalls(Exec(cfg, s, es))
    decreases |es|
  {
    if es != [] {
      TimeoutsOnlyGrow(cfg, s, es[0]);
      StepKeeps(cfg, s, es[0]);
      TimeoutsNeverShrink(cfg, Step(cfg, s, es[0]), es[1..]);
    }
  }

  /** A call that found no group, or a closed shard, has touched neither a map nor the window. */
  lemma NotEstablishedIsClean(cfg: Config, s: State, c: Cid)
    requires Reachable(cfg, s) && At(s, c, Returned(NotEstablished))
    ensures c !in CountedCalls(s)
    ensures forall g: Gid, i: nat :: c !in MapOf(s, g, i).Values
  {
    ReachableInv(cfg, s);
    forall g: Gid, i: nat ensures c !in MapOf(s, g, i).Values {
      SweepReachesRegistered(s, g, i, c);
    }
  }
}
