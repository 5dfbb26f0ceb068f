/** Every step of the call multiplexer keeps the invariant, so every interleaving does. */
module CallSafety {
  import opened Prelude
  import opened CallProtocol
  import opened CallInvariant

  lemma SetMapFrame(s: State, g: Gid, i: nat, m: map<nat, Cid>)
    requires g in s.groups && |s.groups[g].maps| == GROUPS && i < GROUPS
    ensures var t := SetMap(s, g, i, m);
            && t == s.(groups := t.groups) && t.groups.Keys == s.groups.Keys
            && (forall g', i': nat :: MapOf(t, g', i') == if g' == g && i' == i then m else MapOf(s, g', i'))
            && (forall g', i': nat :: ClosedAt(t, g', i') == ClosedAt(s, g', i'))
            && (forall g' :: g' in s.groups ==>
                  t.groups[g'] == s.groups[g'].(maps := t.groups[g'].maps)
                  && |t.groups[g'].maps| == |s.groups[g'].maps|)
  {
  }

  lemma TakenIdCallsOk(s: State, c: Cid, oneWay: bool)
    requires CallsOk(s) && At(s, c, Identifying)
    ensures CallsOk(TakeIdStep(s, c, oneWay))
  {
    var t := TakeIdStep(s, c, oneWay);
    forall x | x in t.calls ensures CallOk(t, x, t.calls[x]) {
      assert CallOk(s, x, s.calls[x]);
    }
  }

  lemma TakenIdIsNew(s: State, c: Cid, oneWay: bool)
    requires CallsOk(s) && IdsDistinct(s) && At(s, c, Identifying)
    ensures IdsDistinct(TakeIdStep(s, c, oneWay))
  {
    var t := TakeIdStep(s, c, oneWay);
    forall x, y | x in t.calls && y in t.calls && x != y && t.calls[x].id != 0
      ensures t.calls[x].id != t.calls[y].id
    {
      assert CallOk(s, x, s.calls[x]) && CallOk(s, y, s.calls[y]);
    }
  }

  lemma TakeIdKeeps(s: State, c: Cid, oneWay: bool)
    requires Inv(s) && At(s, c, Identifying)
    ensures Inv(TakeIdStep(s, c, oneWay))
  {
    var t := TakeIdStep(s, c, oneWay);
    TakenIdCallsOk(s, c, oneWay);
    TakenIdIsNew(s, c, oneWay);
    assert CallOk(s, c, s.calls[c]);
    hide CallsOk, IdsDistinct, CallOk;
    forall g: Gid, i: nat, id: nat | id in MapOf(t, g, i) ensures EntryOk(t, g, i, id, MapOf(t, g, i)[id]) {
      assert id in MapOf(s, g, i) && EntryOk(s, g, i, id, MapOf(s, g, i)[id]);
    }
    forall n | 0 <= n < |t.arrivals| ensures ArrivalOk(t, t.arrivals[n]) {
      assert ArrivalOk(s, s.arrivals[n]);
    }
  }

  /**
   A step that moves a call along and changes, in the call's own shard map, the entry of its id
   and no other: the id is in the new map exactly when the call is then registered.
   */
  ghost predicate OwnEntryMove(s: State, t: State, c: Cid, m: map<nat, Cid>) {
    && c in s.calls && c in t.calls
    && var was, call := s.calls[c], t.calls[c];
       && was.gid in s.groups && was.id != 0
       && t == SetCall(SetMap(s, was.gid, Shard(was.id), m), c, call)
       && (forall id :: id != was.id ==>
             (id in m <==> id in MapOf(s, was.gid, Shard(was.id)))
             && (id in m ==> m[id] == MapOf(s, was.gid, Shard(was.id))[id]))
       && (was.id in m <==> Registered(call.pc))
       && (was.id in m ==> m[was.id] == c)
       && call.id == was.id && call.gid == was.gid
       && call.pc !in {LookingUp, Registering}
  }

  lemma OwnEntryKeepsCalls(s: State, t: State, c: Cid, m: map<nat, Cid>)
    requires Inv(s) && OwnEntryMove(s, t, c, m) && CallOk(t, c, t.calls[c])
    ensures CallsOk(t)
  {
    assert GroupOk(s.groups[s.calls[c].gid]);
    SetMapFrame(s, s.calls[c].gid, Shard(s.calls[c].id), m);
    forall x | x in t.calls ensures CallOk(t, x, t.calls[x]) {
      assert CallOk(s, x, s.calls[x]);
    }
  }

  lemma OwnEntryKeepsEntries(s: State, t: State, c: Cid, m: map<nat, Cid>)
    requires Inv(s) && OwnEntryMove(s, t, c, m)
    ensures EntriesOk(t)
  {
    assert GroupOk(s.groups[s.calls[c].gid]);
    SetMapFrame(s, s.calls[c].gid, Shard(s.calls[c].id), m);
    forall g: Gid, i: nat, id: nat | id in MapOf(t, g, i) ensures EntryOk(t, g, i, id, MapOf(t, g, i)[id]) {
      assert id in MapOf(s, g, i) ==> EntryOk(s, g, i, id, MapOf(s, g, i)[id]);
    }
  }

  lemma OwnEntryKeepsRest(s: State, t: State, c: Cid, m: map<nat, Cid>)
    requires Inv(s) && OwnEntryMove(s, t, c, m)
    ensures GroupsOk(t) && ChannelsOk(t) && IdsDistinct(t) && ArrivalsOk(t)
  {
    assert GroupOk(s.groups[s.calls[c].gid]);
    SetMapFrame(s, s.calls[c].gid, Shard(s.calls[c].id), m);
    forall g | g in t.groups ensures GroupOk(t.groups[g]) {
      assert GroupOk(s.groups[g]);
    }
    forall n | 0 <= n < |t.arrivals| ensures ArrivalOk(t, t.arrivals[n]) {
      assert ArrivalOk(s, s.arrivals[n]);
    }
  }

  lemma OwnEntryKeeps(s: State, t: State, c: Cid, m: map<nat, Cid>)
    requires Inv(s) && OwnEntryMove(s, t, c, m) && CallOk(t, c, t.calls[c])
    ensures Inv(t)
  {
    OwnEntryKeepsCalls(s, t, c, m);
    OwnEntryKeepsEntries(s, t, c, m);
    OwnEntryKeepsRest(s, t, c, m);
  }

  lemma RegisterKeeps(s: State, c: Cid)
    requires Inv(s) && At(s, c, Registering)
    ensures Inv(RegisterStep(s, c))
  {
    var call := s.calls[c];
    var i := Shard(call.id);
    assert CallOk(s, c, call);
    if ClosedAt(s, call.gid, i) {
      LocalMove(s, c, call.(pc := Returned(NotEstablished)));
    } else {
      assert GroupOk(s.groups[call.gid]);
      var m := MapOf(s, call.gid, i)[call.id := c];
      SetMapFrame(s, call.gid, i, m);
      OwnEntryKeeps(s, RegisterStep(s, c), c, m);
    }
  }

  lemma EraseKeeps(s: State, c: Cid, parses: bool)
    requires Inv(s) && At(s, c, Erasing) && s.calls[c].popped.Some?
    ensures Inv(EraseStep(s, c, parses))
  {
    var call := s.calls[c];
    var i := Shard(call.id);
    assert CallOk(s, c, call);
    assert GroupOk(s.groups[call.gid]);
    var m := MapOf(s, call.gid, i) - {call.id};
    SetMapFrame(s, call.gid, i, m);
    OwnEntryKeeps(s, EraseStep(s, c, parses), c, m);
  }

  /** Changes to groups that touch no map and only move a status on. */
  lemma GroupMove(s: State, t: State)
    requires Inv(s) && GroupsOk(t) && ChannelsOk(t)
    requires t == s.(groups := t.groups, channels := t.channels)
    requires s.groups.Keys <= t.groups.Keys
    requires forall g, i: nat :: MapOf(t, g, i) == MapOf(s, g, i)
    requires forall g, i: nat :: g in s.groups ==> ClosedAt(t, g, i) == ClosedAt(s, g, i)
    requires forall g :: g in s.groups && s.groups[g].status.Closing? ==>
               t.groups[g].status.Closing? && t.groups[g].status.ec == s.groups[g].status.ec
    ensures Inv(t)
  {
    forall x | x in t.calls ensures CallOk(t, x, t.calls[x]) {
      assert CallOk(s, x, s.calls[x]);
    }
    forall g: Gid, i: nat, id: nat | id in MapOf(t, g, i) ensures EntryOk(t, g, i, id, MapOf(t, g, i)[id]) {
      assert id in MapOf(s, g, i) && EntryOk(s, g, i, id, MapOf(s, g, i)[id]);
    }
    forall n | 0 <= n < |t.arrivals| ensures ArrivalOk(t, t.arrivals[n]) {
      assert ArrivalOk(s, s.arrivals[n]);
    }
  }

  lemma EmptyGroupOk(tp: Tp)
    ensures GroupOk(EmptyGroup(tp))
    ensures forall i :: 0 <= i < GROUPS ==> EmptyGroup(tp).maps[i] == map[]
  {
  }

  lemma InstallFrame(s: State, tp: Tp, g: Gid)
    requires Inv(s) && g !in s.groups
    ensures var t := InstallStep(s, tp, g);
            && t == s.(groups := t.groups, channels := t.channels)
            && t.groups.Keys == s.groups.Keys + {g} && t.groups[g] == EmptyGroup(tp)
            && forall x :: x in s.groups ==>
                 t.groups[x] == s.groups[x].(status := t.groups[x].status)
                 && (s.groups[x].status.Closing? ==> t.groups[x].status == s.groups[x].status)
                 && (t.groups[x].status.Closing? ==> t.groups[x].status == s.groups[x].status)
  {
  }

  lemma InstallKeeps(s: State, tp: Tp, g: Gid)
    requires Inv(s) && g !in s.groups
    ensures Inv(InstallStep(s, tp, g))
  {
    var t := InstallStep(s, tp, g);
    InstallFrame(s, tp, g);
    EmptyGroupOk(tp);
    forall x | x in t.groups ensures GroupOk(t.groups[x]) {
      assert x in s.groups ==> GroupOk(s.groups[x]);
    }
    InstallKeepsChannels(s, tp, g);
    GroupMove(s, t);
  }

  lemma InstallKeepsChannels(s: State, tp: Tp, g: Gid)
    requires Inv(s) && g !in s.groups
    ensures ChannelsOk(InstallStep(s, tp, g))
  {
  }

  lemma DetachKeeps(s: State, tp: Tp, ec: nat)
    requires Inv(s)
    ensures Inv(DetachStep(s, tp, ec))
  {
    var t := DetachStep(s, tp, ec);
    forall x | x in t.groups ensures GroupOk(t.groups[x]) {
      assert x in s.groups ==> GroupOk(s.groups[x]);
    }
    GroupMove(s, t);
  }

  lemma CloseShardFrame(s: State, g0: Gid)
    requires Inv(s) && g0 in s.groups && s.groups[g0].status.Closing? && s.groups[g0].status.next < GROUPS
    ensures var t := CloseShardStep(s, g0);
            && GroupsOk(t)
            && (forall g, i: nat :: MapOf(t, g, i) == MapOf(s, g, i))
            && (forall g, i: nat :: ClosedAt(t, g, i) <==>
                  (ClosedAt(s, g, i) || (g == g0 && i == s.groups[g0].status.next)))
  {
    var t := CloseShardStep(s, g0);
    assert GroupOk(s.groups[g0]);
    forall x | x in t.groups ensures GroupOk(t.groups[x]) {
      assert GroupOk(s.groups[x]);
    }
  }

  /** The channels a sweep pushes to are those of the calls registered in the shard. */
  lemma SweepReachesRegistered(s: State, g: Gid, i: nat, x: Cid)
    requires Inv(s) && x in s.calls
    ensures x in MapOf(s, g, i).Values <==>
            Registered(s.calls[x].pc) && s.calls[x].gid == g && Shard(s.calls[x].id) == i
  {
    var m := MapOf(s, g, i);
    var call := s.calls[x];
    assert CallOk(s, x, call);
    if Registered(call.pc) && call.gid == g && Shard(call.id) == i {
      assert m[call.id] == x;
    }
    if x in m.Values {
      var id :| id in m && m[id] == x;
      assert EntryOk(s, g, i, id, x);
    }
  }

  lemma CloseShardKeepsCalls(s: State, g0: Gid)
    requires Inv(s) && g0 in s.groups && s.groups[g0].status.Closing? && s.groups[g0].status.next < GROUPS
    ensures CallsOk(CloseShardStep(s, g0))
  {
    var t := CloseShardStep(s, g0);
    CloseShardFrame(s, g0);
    forall x | x in t.calls ensures CallOk(t, x, t.calls[x]) {
      assert CallOk(s, x, s.calls[x]);
      SweepReachesRegistered(s, g0, s.groups[g0].status.next, x);
    }
  }

  lemma CloseShardKeeps(s: State, g0: Gid)
    requires Inv(s) && g0 in s.groups && s.groups[g0].status.Closing? && s.groups[g0].status.next < GROUPS
    ensures Inv(CloseShardStep(s, g0))
  {
    var t := CloseShardStep(s, g0);
    CloseShardFrame(s, g0);
    CloseShardKeepsCalls(s, g0);
    forall g: Gid, i: nat, id: nat | id in MapOf(t, g, i) ensures EntryOk(t, g, i, id, MapOf(t, g, i)[id]) {
      assert id in MapOf(s, g, i) && EntryOk(s, g, i, id, MapOf(s, g, i)[id]);
    }
    forall n | 0 <= n < |t.arrivals| ensures ArrivalOk(t, t.arrivals[n]) {
      assert ArrivalOk(s, s.arrivals[n]);
    }
  }

  /** Moving a frame along its receive path, or adding one. */
  lemma ArrivalMove(s: State, t: State)
    requires Inv(s) && ArrivalsOk(t)
    requires t == s.(arrivals := t.arrivals)
    requires |s.arrivals| <= |t.arrivals|
    requires forall n :: 0 <= n < |s.arrivals| && s.arrivals[n].stage.Settled? ==> t.arrivals[n] == s.arrivals[n]
    ensures Inv(t)
  {
    forall x | x in t.calls ensures CallOk(t, x, t.calls[x]) {
      assert CallOk(s, x, s.calls[x]);
    }
    forall g: Gid, i: nat, id: nat | id in MapOf(t, g, i) ensures EntryOk(t, g, i, id, MapOf(t, g, i)[id]) {
      assert id in MapOf(s, g, i) && EntryOk(s, g, i, id, MapOf(s, g, i)[id]);
    }
  }

  lemma ArriveKeeps(s: State, tp: Tp, id: nat, data: bytes)
    requires Inv(s)
    ensures Inv(ArriveStep(s, tp, id, data))
  {
    var t := ArriveStep(s, tp, id, data);
    forall n | 0 <= n < |t.arrivals| ensures ArrivalOk(t, t.arrivals[n]) {
      assert n < |s.arrivals| ==> ArrivalOk(s, s.arrivals[n]);
    }
    ArrivalMove(s, t);
  }

  lemma MatchKeeps(s: State, n0: nat)
    requires Inv(s) && n0 < |s.arrivals| && s.arrivals[n0].stage == Matching
    ensures Inv(MatchStep(s, n0))
  {
    var t := MatchStep(s, n0);
    var a := s.arrivals[n0];
    var m := MapOf(s, a.gid, Shard(a.id));
    if a.id in m {
      assert EntryOk(s, a.gid, Shard(a.id), a.id, m[a.id]);
      assert CallOk(s, m[a.id], s.calls[m[a.id]]);
    }
    forall n | 0 <= n < |t.arrivals| ensures ArrivalOk(t, t.arrivals[n]) {
      assert ArrivalOk(s, s.arrivals[n]);
    }
    ArrivalMove(s, t);
  }

  lemma PushKeeps(s: State, n0: nat)
    requires Inv(s) && n0 < |s.arrivals| && s.arrivals[n0].stage.Pushing? && s.arrivals[n0].stage.c in s.calls
    ensures Inv(PushStep(s, n0))
  {
    var a := s.arrivals[n0];
    var c := a.stage.c;
    assert ArrivalOk(s, a);
    assert CallOk(s, c, s.calls[c]);
    var settled := if s.calls[c].slot.Some? then None else Some(c);
    var u := SetStage(s, n0, Settled(settled));
    forall n | 0 <= n < |u.arrivals| ensures ArrivalOk(u, u.arrivals[n]) {
      assert ArrivalOk(s, s.arrivals[n]);
    }
    ArrivalMove(s, u);
    if s.calls[c].slot.None? {
      var call := TryPush(s.calls[c], Item(0, a.data, FromFrame(n0)));
      assert CallOk(u, c, u.calls[c]);
      LocalMove(u, c, call);
    }
  }

  // ---- Steps that only move their caller along ----

  /** Steps that leave everything alone but their caller and the window. */
  predicate MovesCaller(e: Event) {
    e.Start? || e.Pick? || e.PickNone? || e.Reconnect? || e.Lookup?
    || e.Send? || e.SendDone? || e.Count? || e.Pop? || e.Timeout? || e.Uncount?
  }

  lemma CallerMoved(cfg: Config, s: State, e: Event)
    requires Enabled(cfg, s, e) && MovesCaller(e)
    ensures var t := Step(cfg, s, e);
            e.c in t.calls && t == SetCall(s, e.c, t.calls[e.c]).(wnd := t.wnd)
  {
  }

  /** What `LocalMove` asks of a caller's old and new place. */
  predicate Along(s: State, c: Cid, call: Call) {
    if c !in s.calls then call.id == 0 && !Registered(call.pc)
    else
      var was := s.calls[c];
      && call.id == was.id
      && (was.pc != LookingUp ==> call.gid == was.gid)
      && (Registered(was.pc) ==> Registered(call.pc))
      && (was.pc !in {LookingUp, Registering} ==> call.pc !in {LookingUp, Registering})
  }

  lemma EarlyMoveOk(cfg: Config, s: State, e: Event)
    requires Enabled(cfg, s, e) && ChannelsOk(s)
    requires e.Start? || e.Pick? || e.PickNone? || e.Reconnect? || e.Lookup?
    requires e.c in s.calls ==> CallOk(s, e.c, s.calls[e.c])
    ensures e.c in Step(cfg, s, e).calls
    ensures CallOk(s, e.c, Step(cfg, s, e).calls[e.c]) && Along(s, e.c, Step(cfg, s, e).calls[e.c])
  {
  }

  lemma SendMoveOk(cfg: Config, s: State, e: Event)
    requires Enabled(cfg, s, e) && e.Send? && CallOk(s, e.c, s.calls[e.c])
    ensures e.c in Step(cfg, s, e).calls
    ensures CallOk(s, e.c, Step(cfg, s, e).calls[e.c]) && Along(s, e.c, Step(cfg, s, e).calls[e.c])
  {
  }

  lemma ReportMoveOk(cfg: Config, s: State, e: Event)
    requires Enabled(cfg, s, e) && e.SendDone? && CallOk(s, e.c, s.calls[e.c])
    ensures e.c in Step(cfg, s, e).calls
    ensures CallOk(s, e.c, Step(cfg, s, e).calls[e.c]) && Along(s, e.c, Step(cfg, s, e).calls[e.c])
  {
  }

  lemma WaitMoveOk(cfg: Config, s: State, e: Event)
    requires Enabled(cfg, s, e) && (e.Count? || e.Pop? || e.Timeout? || e.Uncount?) && CallOk(s, e.c, s.calls[e.c])
    ensures e.c in Step(cfg, s, e).calls
    ensures CallOk(s, e.c, Step(cfg, s, e).calls[e.c]) && Along(s, e.c, Step(cfg, s, e).calls[e.c])
  {
  }

  lemma MoveKeeps(cfg: Config, s: State, e: Event)
    requires Inv(s) && Enabled(cfg, s, e) && MovesCaller(e)
    ensures Inv(Step(cfg, s, e))
  {
    var t := Step(cfg, s, e);
    CallerMoved(cfg, s, e);
    assert ChannelsOk(s) && (e.c in s.calls ==> CallOk(s, e.c, s.calls[e.c]));
    hide Inv, Step, CallOk, ChannelsOk;
    if e.Send? {
      SendMoveOk(cfg, s, e);
    } else if e.SendDone? {
      ReportMoveOk(cfg, s, e);
    } else if e.Count? || e.Pop? || e.Timeout? || e.Uncount? {
      WaitMoveOk(cfg, s, e);
    } else {
      EarlyMoveOk(cfg, s, e);
    }
    hide Enabled;
    LocalMove(s, e.c, t.calls[e.c]);
    OutsideIrrelevant(SetCall(s, e.c, t.calls[e.c]), t);
  }

  /** One step of any kind keeps the invariant. */
  lemma StepKeeps(cfg: Config, s: State, e: Event)
    requires Inv(s) && Enabled(cfg, s, e)
    ensures Inv(Step(cfg, s, e))
  {
    hide Inv, StartStep, PickStep, TakeIdStep, LookupStep, RegisterStep, SendStep, SendDoneStep, PopStep, EraseStep,
         InstallStep, Without, DetachStep, ArriveStep, MatchStep, PushStep, CloseShardStep;
    match e
    case TakeId(c, oneWay) => TakeIdKeeps(s, c, oneWay);
    case Register(c) => RegisterKeeps(s, c);
    case Erase(c, parses) => EraseKeeps(s, c, parses);
    case Add(tp) => OutsideIrrelevant(s, Step(cfg, s, e));
    case Install(tp, g) => InstallKeeps(s, tp, g);
    case Del(tp) => OutsideIrrelevant(s, Step(cfg, s, e));
    case Detach(tp, ec) => DetachKeeps(s, tp, ec);
    case CloseShard(g) => CloseShardKeeps(s, g);
    case Arrive(tp, id, data) => ArriveKeeps(s, tp, id, data);
    case Match(n) => MatchKeeps(s, n);
    case Push(n) => PushKeeps(s, n);
    case _ => MoveKeeps(cfg, s, e);
  }

  lemma OutsideIrrelevant(s: State, t: State)
    requires Inv(s) && t == s.(wnd := t.wnd, tps := t.tps)
    ensures Inv(t)
  {
    forall x | x in t.calls ensures CallOk(t, x, t.calls[x]) {
      assert CallOk(s, x, s.calls[x]);
    }
    forall g: Gid, i: nat, id: nat | id in MapOf(t, g, i) ensures EntryOk(t, g, i, id, MapOf(t, g, i)[id]) {
      assert id in MapOf(s, g, i) && EntryOk(s, g, i, id, MapOf(s, g, i)[id]);
    }
    forall n | 0 <= n < |t.arrivals| ensures ArrivalOk(t, t.arrivals[n]) {
      assert ArrivalOk(s, s.arrivals[n]);
    }
  }

  /** Safety over whole runs: every state of every interleaving satisfies the invariant. */
  lemma {:induction false} RunKeeps(cfg: Config, s: State, es: seq<Event>)
    requires Inv(s) && Run(cfg, s, es)
    ensures Inv(Exec(cfg, s, es))
    decreases |es|
  {
    if es != [] {
      StepKeeps(cfg, s, es[0]);
      RunKeeps(cfg, Step(cfg, s, es[0]), es[1..]);
    }
  }
}
