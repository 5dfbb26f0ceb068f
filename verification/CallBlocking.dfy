/**
 When a waiting caller can still be woken. Without timeouts a caller is blocked for ever exactly when
 it is stranded, and groups are stranded exactly by connects that find the transport connected.
 */
module CallBlocking {
  import opened CallProtocol
  import opened CallInvariant
  import opened CallSafety
  import opened CallTheorems
  import CallConnections
  import opened Client

  // ---- Which groups are replaced ----

  /** Somewhere in the run a connect callback finds `g` still in `channels_` under its transport. */
  ghost predicate Overtaken(cfg: Config, s: State, es: seq<Event>, g: Gid)
    requires Run(cfg, s, es)
    decreases |es|
  {
    es != [] && (InstallsOver(s, es[0], g) || Overtaken(cfg, Step(cfg, s, es[0]), es[1..], g))
  }

  /** The guard of the step: `channels_[tp]` is there and holds `g`. */
  predicate InstallsOver(s: State, e: Event, g: Gid) {
    e.Install? && e.tp in s.channels && s.channels[e.tp] == g
  }

  predicate IsReplaced(s: State, g: Gid) {
    g in s.groups && s.groups[g].status == Replaced
  }

  lemma StepReplacesExactly(cfg: Config, s: State, e: Event, g: Gid)
    requires Inv(s) && Enabled(cfg, s, e)
    ensures IsReplaced(Step(cfg, s, e), g) <==> IsReplaced(s, g) || InstallsOver(s, e, g)
  {
    assert ChannelsOk(s);
    hide Inv, ChannelsOk, StartStep, PickStep, TakeIdStep, LookupStep, RegisterStep, SendStep, SendDoneStep, PopStep,
         EraseStep, InstallStep, Without, DetachStep, CloseShardStep, ArriveStep, MatchStep, PushStep, IsReplaced;
    match e {
      case Install(tp, g0) => InstallReplacesExactly(s, tp, g0, g);
      case Detach(tp, ec) => DetachReplacesNone(s, tp, ec, g);
      case CloseShard(g0) => SweepReplacesNone(s, g0, g);
      case Add(_) =>
      case Del(_) =>
      case _ => OthersReplaceNone(cfg, s, e, g);
    }
  }

  lemma OthersReplaceNone(cfg: Config, s: State, e: Event, g: Gid)
    requires Enabled(cfg, s, e) && !(e.Add? || e.Install? || e.Del? || e.Detach? || e.CloseShard?)
    ensures IsReplaced(Step(cfg, s, e), g) <==> IsReplaced(s, g)
  {
    CallConnections.OtherStepsLeaveConnections(cfg, s, e);
    hide Step, Enabled;
  }

  lemma SweepReplacesNone(s: State, g0: Gid, g: Gid)
    requires g0 in s.groups && s.groups[g0].status.Closing?
    ensures IsReplaced(CloseShardStep(s, g0), g) <==> IsReplaced(s, g)
  {
  }

  lemma InstallReplacesExactly(s: State, tp: Tp, g0: Gid, g: Gid)
    requires ChannelsOk(s) && g0 !in s.groups
    ensures IsReplaced(InstallStep(s, tp, g0), g) <==>
            IsReplaced(s, g) || (tp in s.channels && s.channels[tp] == g)
  {
  }

  lemma DetachReplacesNone(s: State, tp: Tp, ec: nat, g: Gid)
    requires ChannelsOk(s)
    ensures IsReplaced(DetachStep(s, tp, ec), g) <==> IsReplaced(s, g)
  {
  }

  /** A group is replaced if and only if some connect of the run was made over it. */
  lemma {:induction false} ReplacedExactly(cfg: Config, s: State, es: seq<Event>, g: Gid)
    requires Inv(s) && Run(cfg, s, es)
    ensures IsReplaced(Exec(cfg, s, es), g) <==> IsReplaced(s, g) || Overtaken(cfg, s, es, g)
    decreases |es|
  {
    if es != [] {
      StepReplacesExactly(cfg, s, es[0], g);
      StepKeeps(cfg, s, es[0]);
      hide Inv, Step, IsReplaced, InstallsOver;
      ReplacedExactly(cfg, Step(cfg, s, es[0]), es[1..], g);
    }
  }

  // ---- Which callers can be woken ----

  /** Some continuation lets the caller take something from its channel. */
  ghost predicate CanWake(cfg: Config, s: State, c: Cid) {
    exists es :: Run(cfg, s, es) && Enabled(cfg, Exec(cfg, s, es), Pop(c))
  }

  /** Steps that neither count a call nor time one out, connect nothing and report no success of a send. */
  predicate Calm(e: Event) {
    !e.Install? && !e.Count? && !e.Timeout? && (e.SendDone? ==> e.ec != 0)
  }

  /** The run wakes the caller and is calm. */
  ghost predicate WakesCalmly(cfg: Config, s: State, es: seq<Event>, c: Cid) {
    && Run(cfg, s, es) && (forall e :: e in es ==> Calm(e))
    && Enabled(cfg, Exec(cfg, s, es), Pop(c))
  }

  /** A run in which the call takes no step only fills its channel. */
  lemma {:induction false} OthersRunFillsSlot(cfg: Config, s: State, es: seq<Event>, c: Cid)
    requires Run(cfg, s, es) && c in s.calls && forall e :: e in es ==> !ActsOn(e, c)
    ensures c in Exec(cfg, s, es).calls
    ensures Exec(cfg, s, es).calls[c] == s.calls[c].(slot := Exec(cfg, s, es).calls[c].slot)
    decreases |es|
  {
    if es != [] {
      OthersOnlyFillSlot(cfg, s, es[0], c);
      hide Step, Enabled, ActsOn;
      OthersRunFillsSlot(cfg, Step(cfg, s, es[0]), es[1..], c);
    }
  }

  /** Once every shard of its group has been swept, a waiting caller can pop. */
  lemma WokenAfterSweeps(cfg: Config, s: State, es: seq<Event>, c: Cid)
    requires Inv(s) && At(s, c, Waiting) && Run(cfg, s, es)
    requires forall e :: e in es ==> e.Del? || e.Detach? || e.CloseShard?
    requires Disconnected(Exec(cfg, s, es), s.calls[c].gid)
    ensures WakesCalmly(cfg, s, es, c)
  {
    hide Inv, Run, Exec;
    var t := Exec(cfg, s, es);
    assert forall e :: e in es ==> !ActsOn(e, c);
    OthersRunFillsSlot(cfg, s, es, c);
    RunKeeps(cfg, s, es);
    DetachedHaveItems(t, s.calls[c].gid);
  }

  /** A caller on a connected transport is woken by its disconnection. */
  lemma WokenByDisconnect(cfg: Config, s: State, c: Cid) returns (es: seq<Event>)
    requires Inv(s) && At(s, c, Waiting) && s.calls[c].gid in s.channels.Values
    ensures WakesCalmly(cfg, s, es, c)
  {
    hide Run, Exec;
    var tp :| tp in s.channels && s.channels[tp] == s.calls[c].gid;
    es := DisconnectIsRun(cfg, s, tp, 1);
    DisconnectSweeps(cfg, s, tp, 1);
    hide Inv, Disconnect, WakesCalmly;
    WokenAfterSweeps(cfg, s, es, c);
  }

  lemma DisconnectSweeps(cfg: Config, s: State, tp: Tp, ec: nat)
    requires Inv(s) && tp in s.channels
    ensures Disconnected(Disconnect(s, tp, ec), s.channels[tp])
  {
    SweepAllIsRun(cfg, DetachStep(s.(tps := Without(s.tps, tp)), tp, ec), s.channels[tp], GROUPS);
  }

  /** A caller whose group is being swept is woken by the rest of the sweeps. */
  lemma WokenBySweeps(cfg: Config, s: State, c: Cid) returns (es: seq<Event>)
    requires Inv(s) && At(s, c, Waiting) && s.calls[c].gid in s.groups && s.groups[s.calls[c].gid].status.Closing?
    ensures WakesCalmly(cfg, s, es, c)
  {
    hide Run, Exec;
    var g := s.calls[c].gid;
    assert GroupOk(s.groups[g]);
    var n := GROUPS - s.groups[g].status.next;
    SweepAllIsRun(cfg, s, g, n);
    hide Inv, SweepAll, WakesCalmly;
    es := Sweeps(g, n);
    WokenAfterSweeps(cfg, s, es, c);
  }

  lemma WokenBySend(cfg: Config, s: State, c: Cid) returns (es: seq<Event>)
    requires Inv(s) && At(s, c, Waiting) && s.calls[c].slot.None? && !s.calls[c].send.Reported?
    ensures WakesCalmly(cfg, s, es, c)
  {
    assert s.calls[c].send == Outstanding by {
      assert CallOk(s, c, s.calls[c]);
    }
    SendErrorWakes(cfg, s, c);
    hide Inv, Run, Exec, Step, Enabled;
    es := [SendDone(c, 1)];
    RunOne(cfg, s, SendDone(c, 1));
  }

  lemma SendErrorWakes(cfg: Config, s: State, c: Cid)
    requires At(s, c, Waiting) && s.calls[c].slot.None? && s.calls[c].send == Outstanding
    ensures Enabled(cfg, s, SendDone(c, 1)) && Enabled(cfg, Step(cfg, s, SendDone(c, 1)), Pop(c))
  {
  }

  /** A caller whose response is being pushed is woken by the push. */
  lemma WokenByPush(cfg: Config, s: State, c: Cid, n: nat) returns (es: seq<Event>)
    requires At(s, c, Waiting) && s.calls[c].slot.None? && n < |s.arrivals| && s.arrivals[n].stage == Pushing(c)
    ensures WakesCalmly(cfg, s, es, c)
  {
    es := [Push(n)];
    RunOne(cfg, s, Push(n));
  }

  lemma WokenByMatch(cfg: Config, s: State, c: Cid, n: nat) returns (es: seq<Event>)
    requires Inv(s) && At(s, c, Waiting) && s.calls[c].slot.None? && n < |s.arrivals|
    requires s.arrivals[n].gid == s.calls[c].gid && s.arrivals[n].id == s.calls[c].id && s.arrivals[n].stage == Matching
    ensures WakesCalmly(cfg, s, es, c)
  {
    assert CallOk(s, c, s.calls[c]);
    var pushed := WokenByPush(cfg, MatchStep(s, n), c, n);
    es := [Match(n)] + pushed;
    RunCons(cfg, s, Match(n), pushed);
  }

  /** A frame for the call that has found its channel has found the call's own. */
  lemma PushesToOwner(s: State, c: Cid, n: nat)
    requires Inv(s) && c in s.calls && n < |s.arrivals| && s.arrivals[n].stage.Pushing?
    requires s.arrivals[n].id == s.calls[c].id
    ensures s.arrivals[n].stage.c == c
  {
    assert ArrivalOk(s, s.arrivals[n]);
  }

  /** A waiting caller that is not stranded has a calm run that wakes it. */
  lemma UnstrandedCanWake(cfg: Config, s: State, c: Cid) returns (es: seq<Event>)
    requires Inv(s) && At(s, c, Waiting) && !Stranded(s, c)
    ensures WakesCalmly(cfg, s, es, c)
  {
    var g, id := s.calls[c].gid, s.calls[c].id;
    assert CallOk(s, c, s.calls[c]);
    assert GroupOk(s.groups[g]);
    if s.calls[c].slot.Some? {
      es := [];
    } else if !s.calls[c].send.Reported? {
      es := WokenBySend(cfg, s, c);
    } else if s.groups[g].status.Closing? {
      es := WokenBySweeps(cfg, s, c);
    } else if s.groups[g].status.Attached? {
      assert s.channels[s.groups[g].tp] == g;
      es := WokenByDisconnect(cfg, s, c);
    } else {
      var n :| 0 <= n < |s.arrivals| && s.arrivals[n].gid == g && s.arrivals[n].id == id
               && !s.arrivals[n].stage.Settled?;
      if s.arrivals[n].stage.Pushing? {
        PushesToOwner(s, c, n);
        es := WokenByPush(cfg, s, c, n);
      } else {
        es := WokenByMatch(cfg, s, c, n);
      }
    }
  }

  /** Without timeouts: a waiting caller is blocked for ever if and only if it is stranded. */
  lemma BlockedExactly(cfg: Config, s: State, c: Cid)
    requires Reachable(cfg, s) && At(s, c, Waiting) && !cfg.timeouts
    ensures !CanWake(cfg, s, c) <==> Stranded(s, c)
  {
    ReachableInv(cfg, s);
    hide Inv, Reachable, Run, Exec, NoneUnderWay;
    if Stranded(s, c) {
      forall es | Run(cfg, s, es)
        ensures !Enabled(cfg, Exec(cfg, s, es), Pop(c))
      {
        StrandedForEver(cfg, s, es, c);
      }
    } else {
      var _ := UnstrandedCanWake(cfg, s, c);
    }
  }

  /**
   With nothing in flight for it, a caller is blocked for ever if and only if a connect was made over
   its connection.
   */
  lemma BlockedByOverlapExactly(cfg: Config, es: seq<Event>, c: Cid)
    requires Run(cfg, INIT, es) && !cfg.timeouts
    requires var s := Exec(cfg, INIT, es);
             && At(s, c, Waiting) && s.calls[c].slot.None? && s.calls[c].send.Reported?
             && NoneUnderWay(s, s.calls[c].gid, s.calls[c].id)
    ensures var s := Exec(cfg, INIT, es);
            !CanWake(cfg, s, c) <==> Overtaken(cfg, INIT, es, s.calls[c].gid)
  {
    var s := Exec(cfg, INIT, es);
    InitInv();
    assert Reachable(cfg, s);
    BlockedExactly(cfg, s, c);
    ReplacedExactly(cfg, INIT, es, s.calls[c].gid);
    hide Run, Exec, Overtaken, CanWake, NoneUnderWay;
  }

  /** With callbacks taking turns every waiting caller can be woken. */
  lemma AlternatingNeverBlocks(cfg: Config, es: seq<Event>, c: Cid)
    requires Run(cfg, INIT, es) && CallConnections.Alternating(map[], es) && At(Exec(cfg, INIT, es), c, Waiting)
    ensures CanWake(cfg, Exec(cfg, INIT, es), c)
  {
    var s := Exec(cfg, INIT, es);
    CallConnections.RunKeepsAgreement(cfg, INIT, map[], es);
    InitInv();
    RunKeeps(cfg, INIT, es);
    hide Run, Exec, CallConnections.Alternating;
    var _ := UnstrandedCanWake(cfg, s, c);
    assert CanWake(cfg, s, c);
  }
}
