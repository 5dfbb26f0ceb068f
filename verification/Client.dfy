/**
 `ClientImpl` in its own form: the fields the callbacks and callers share, and the code between two
 points where a coroutine can block. Each method runs alone and is shown to be a run of the call
 protocol; other coroutines act between methods, which is what the protocol's interleavings say.
 */
module Client {
  import opened Prelude
  import opened Headers
  import opened Reassembly
  import opened Framing
  import opened CallProtocol
  import opened CallInvariant
  import opened CallSafety

  /** What a caller asks for. */
  datatype Request = Request(oneWay: bool, service: bytes, method_: bytes, body: bytes)

  function RequestFrame(kind: Kind, id: nat, r: Request): Frame {
    var calltype := if r.oneWay then ONEWAY_REQUEST else REQUEST;
    Frame(MakeHead(kind, id, calltype, r.service, r.method_, |r.body|), r.body)
  }

  lemma RequestHead(kind: Kind, id: nat, r: Request)
    requires !r.oneWay
    ensures RequestFrame(kind, id, r) == Frame(MakeHead(kind, id, REQUEST, r.service, r.method_, |r.body|), r.body)
  {
  }

  // ---- `OnConnected` as a run ----

  /** The state after a whole `OnConnected`. */
  function Connect(s: State, tp: Tp, g: Gid): State {
    InstallStep(s.(tps := s.tps + [tp]), tp, g)
  }

  lemma ConnectIsRun(cfg: Config, s: State, tp: Tp, g: Gid)
    requires g !in s.groups
    ensures Run(cfg, s, [Add(tp)] + [Install(tp, g)])
    ensures Exec(cfg, s, [Add(tp)] + [Install(tp, g)]) == Connect(s, tp, g)
  {
    hide Run, Exec, InstallStep;
    var added := s.(tps := s.tps + [tp]);
    RunOne(cfg, added, Install(tp, g));
    RunCons(cfg, s, Add(tp), [Install(tp, g)]);
  }

  // ---- `OnResponse` as a run ----

  /** The state after `OnResponse` has handled one frame without being interrupted. */
  function Respond(s: State, tp: Tp, id: nat, data: bytes): State
  {
    var n := |s.arrivals|;
    var arrived := ArriveStep(s, tp, id, data);
    if |arrived.arrivals| == n then arrived else
    var matched := MatchStep(arrived, n);
    if !matched.arrivals[n].stage.Pushing? || matched.arrivals[n].stage.c !in matched.calls then matched
    else PushStep(matched, n)
  }

  function ResponseEvents(s: State, tp: Tp, id: nat, data: bytes): seq<Event>
  {
    var n := |s.arrivals|;
    var arrived := ArriveStep(s, tp, id, data);
    [Arrive(tp, id, data)] + if |arrived.arrivals| == n then [] else Handling(arrived, n)
  }

  lemma RunOne(cfg: Config, s: State, e: Event)
    requires Enabled(cfg, s, e)
    ensures Run(cfg, s, [e]) && Exec(cfg, s, [e]) == Step(cfg, s, e)
  {
    assert [e][1..] == [];
  }

  lemma RunCons(cfg: Config, s: State, e: Event, es: seq<Event>)
    requires Enabled(cfg, s, e) && Run(cfg, Step(cfg, s, e), es)
    ensures Run(cfg, s, [e] + es) && Exec(cfg, s, [e] + es) == Exec(cfg, Step(cfg, s, e), es)
  {
    assert ([e] + es)[1..] == es;
  }

  /** Handling a frame is a run of the protocol. */
  lemma RespondIsRun(cfg: Config, s: State, tp: Tp, id: nat, data: bytes)
    ensures Run(cfg, s, ResponseEvents(s, tp, id, data))
    ensures Exec(cfg, s, ResponseEvents(s, tp, id, data)) == Respond(s, tp, id, data)
  {
    hide Run, Exec;
    var n := |s.arrivals|;
    var arrived := ArriveStep(s, tp, id, data);
    var arrive := Arrive(tp, id, data);
    if |arrived.arrivals| == n {
      RunOne(cfg, s, arrive);
      assert [arrive] + [] == [arrive];
    } else {
      assert arrived.arrivals[n].stage == Matching;
      MatchAndPushIsRun(cfg, arrived, n);
      RunCons(cfg, s, arrive, Handling(arrived, n));
    }
  }

  /** The steps after a frame's group was found. */
  function Handling(s: State, n: nat): seq<Event>
    requires n < |s.arrivals|
  {
    var matched := MatchStep(s, n);
    if !matched.arrivals[n].stage.Pushing? || matched.arrivals[n].stage.c !in matched.calls then [Match(n)]
    else [Match(n), Push(n)]
  }

  lemma MatchAndPushIsRun(cfg: Config, s: State, n: nat)
    requires n < |s.arrivals| && s.arrivals[n].stage == Matching
    ensures Run(cfg, s, Handling(s, n))
    ensures var matched := MatchStep(s, n);
            Exec(cfg, s, Handling(s, n)) ==
              if Handling(s, n) == [Match(n)] then matched else PushStep(matched, n)
  {
    hide Run, Exec, PushStep;
    var matched := MatchStep(s, n);
    if Handling(s, n) == [Match(n)] {
      RunOne(cfg, s, Match(n));
    } else {
      RunOne(cfg, matched, Push(n));
      RunCons(cfg, s, Match(n), [Push(n)]);
      assert [Match(n)] + [Push(n)] == [Match(n), Push(n)];
    }
  }

  /** Handling the frames of one buffer in turn. */
  function RespondAll(s: State, tp: Tp, frames: seq<Frame>): State
  {
    if frames == [] then s
    else
      var k := |frames| - 1;
      Respond(RespondAll(s, tp, frames[..k]), tp, frames[k].head.callid, frames[k].body)
  }

  /** A whole buffer's frames are a run, and one of arriving frames only. */
  lemma {:induction false} RespondAllIsRun(cfg: Config, s: State, tp: Tp, frames: seq<Frame>)
    returns (es: seq<Event>)
    ensures Run(cfg, s, es) && Exec(cfg, s, es) == RespondAll(s, tp, frames)
    ensures forall e :: e in es ==> e.Arrive? || e.Match? || e.Push?
  {
    if frames == [] {
      es := [];
    } else {
      var k := |frames| - 1;
      var t := RespondAll(s, tp, frames[..k]);
      var id, data := frames[k].head.callid, frames[k].body;
      es := RespondAllIsRun(cfg, s, tp, frames[..k]);
      RespondIsRun(cfg, t, tp, id, data);
      hide Run, Exec, Respond;
      RunSplit(cfg, s, es, ResponseEvents(t, tp, id, data));
      es := es + ResponseEvents(t, tp, id, data);
    }
  }

  lemma RespondAllKeeps(cfg: Config, s: State, tp: Tp, frames: seq<Frame>)
    requires Inv(s)
    ensures Inv(RespondAll(s, tp, frames))
  {
    hide Inv, Run, Exec, RespondAll;
    var es := RespondAllIsRun(cfg, s, tp, frames);
    RunKeeps(cfg, s, es);
  }

  lemma RespondAllOneMore(s: State, tp: Tp, frames: seq<Frame>, f: Frame)
    ensures RespondAll(s, tp, frames + [f]) == Respond(RespondAll(s, tp, frames), tp, f.head.callid, f.body)
  {
    assert (frames + [f])[..|frames|] == frames;
  }

  // ---- `OnDisconnected` as a run ----

  function Sweeps(g: Gid, n: nat): seq<Event> {
    seq(n, _ => CloseShard(g))
  }

  /** The state after the first `n` shards of a detached group have been swept. */
  function SweepAll(s: State, g: Gid, n: nat): State
  {
    if n == 0 then s
    else
      var t := SweepAll(s, g, n - 1);
      if g in t.groups && t.groups[g].status.Closing? then CloseShardStep(t, g) else t
  }

  lemma SweepOneMore(s: State, g: Gid, i: nat)
    requires var t := SweepAll(s, g, i); g in t.groups && t.groups[g].status.Closing?
    ensures SweepAll(s, g, i + 1) == CloseShardStep(SweepAll(s, g, i), g)
  {
  }

  lemma {:induction false} SweepAllIsRun(cfg: Config, s: State, g: Gid, n: nat)
    requires g in s.groups && s.groups[g].status.Closing? && s.groups[g].status.next + n <= GROUPS
    ensures var t, was := SweepAll(s, g, n), s.groups[g].status;
            g in t.groups && t.groups[g].status == Closing(was.next + n, was.ec)
    ensures Run(cfg, s, Sweeps(g, n)) && Exec(cfg, s, Sweeps(g, n)) == SweepAll(s, g, n)
  {
    if n > 0 {
      SweepAllIsRun(cfg, s, g, n - 1);
      var t := SweepAll(s, g, n - 1);
      RunOne(cfg, t, CloseShard(g));
      RunSplit(cfg, s, Sweeps(g, n - 1), [CloseShard(g)]);
      assert Sweeps(g, n) == Sweeps(g, n - 1) + [CloseShard(g)];
    }
  }

  /** The state after a whole `OnDisconnected`. */
  function Disconnect(s: State, tp: Tp, ec: nat): State
  {
    var deleted := s.(tps := Without(s.tps, tp));
    if tp !in s.channels then deleted
    else SweepAll(DetachStep(deleted, tp, ec), s.channels[tp], GROUPS)
  }

  lemma DisconnectIsRun(cfg: Config, s: State, tp: Tp, ec: nat) returns (es: seq<Event>)
    requires Inv(s)
    ensures Run(cfg, s, es) && Exec(cfg, s, es) == Disconnect(s, tp, ec)
    ensures forall e :: e in es ==> e.Del? || e.Detach? || e.CloseShard?
  {
    var deleted := s.(tps := Without(s.tps, tp));
    var detached := DetachStep(deleted, tp, ec);
    var tail := if tp in s.channels then Sweeps(s.channels[tp], GROUPS) else [];
    if tp in s.channels {
      SweepAllIsRun(cfg, detached, s.channels[tp], GROUPS);
    }
    RunCons(cfg, deleted, Detach(tp, ec), tail);
    RunCons(cfg, s, Del(tp), [Detach(tp, ec)] + tail);
    es := [Del(tp)] + ([Detach(tp, ec)] + tail);
  }

  // ---- The object ----

  class ClientImpl {
    const kind: Kind
    const cfg: Config
    var tps: seq<Tp>
    var channels: map<Tp, Gid>
    var groups: map<Gid, Group>
    var msgId: nat
    var wnd: int
    var calls: map<Cid, Call>
    var arrivals: seq<Arrival>

    function State(): State
      reads this
    {
      CallProtocol.State.State(tps, channels, groups, msgId, wnd, calls, arrivals)
    }

    constructor (kind: Kind, cfg: Config)
      ensures this.kind == kind && this.cfg == cfg && State() == INIT
    {
      this.kind, this.cfg := kind, cfg;
      tps, channels, groups, msgId, wnd, calls, arrivals := [], map[], map[], 0, 0, map[], [];
    }

    /** `g` is the address of the group object allocated for the connection. */
    method OnConnected(tp: Tp, g: Gid)
      requires g !in groups
      modifies this
      ensures State() == Connect(old(State()), tp, g)
    {
      tps := tps + [tp];
      if tp in channels && channels[tp] in groups {
        var was := channels[tp];
        groups := groups[was := groups[was].(status := Replaced)];
      }
      channels := channels[tp := g];
      groups := groups[g := EmptyGroup(tp)];
    }

    /** One turn of the closing loop: under the shard's lock, close it and push to every channel in it. */
    method CloseShard(g: Gid)
      requires g in groups && groups[g].status.Closing?
      modifies this
      ensures State() == CloseShardStep(old(State()), g)
    {
      var grp := groups[g];
      var i := grp.status.next;
      var ec := grp.status.ec;
      var m := if i < |grp.maps| then grp.maps[i] else map[];
      groups := groups[g := grp.(closed := if i < |grp.closed| then grp.closed[i := true] else grp.closed,
                                 status := Closing(i + 1, ec))];
      var todo := m.Keys;
      ghost var pushed: set<Cid> := {};
      ghost var closed := State();
      while todo != {}
        invariant todo <= m.Keys && State() == closed.(calls := calls)
        invariant pushed == set id | id in m && id !in todo :: m[id]
        invariant calls == map c | c in old(calls) ::
                    if c in pushed then TryPush(old(calls)[c], Item(ec, [], FromClose)) else old(calls)[c]
        decreases |todo|
      {
        var id :| id in todo;
        var c := m[id];
        if c in calls {
          calls := calls[c := TryPush(calls[c], Item(ec, [], FromClose))];
        }
        todo := todo - {id};
        pushed := pushed + {c};
      }
      assert pushed == m.Values;
      assert m == MapOf(old(State()), g, i);
      assert calls == CloseShardStep(old(State()), g).calls;
    }

    /** Afterwards every waiting call of the connection has something to pop. */
    method OnDisconnected(tp: Tp, ec: nat)
      requires Inv(State())
      modifies this
      ensures State() == Disconnect(old(State()), tp, ec) && Inv(State())
      ensures tp in old(channels) ==>
                forall c :: c in calls && Awaiting(calls[c].pc) && calls[c].gid == old(channels)[tp] ==>
                  calls[c].slot.Some?
    {
      hide Inv, Exec, Run;
      ghost var before := State();
      ghost var es := DisconnectIsRun(cfg, before, tp, ec);
      RunKeeps(cfg, before, es);
      tps := Without(tps, tp);
      if tp in channels {
        var g := channels[tp];
        GroupShape(before, tp, g);
        groups := groups[g := groups[g].(status := Closing(0, ec))];
        channels := channels - {tp};
        ghost var detached := State();
        assert detached == DetachStep(before.(tps := Without(before.tps, tp)), tp, ec);
        for i := 0 to GROUPS
          invariant State() == SweepAll(detached, g, i)
          invariant g in groups && groups[g].status == Closing(i, ec)
        {
          hide DetachStep, SweepAll, Disconnect;
          SweepOneMore(detached, g, i);
          CloseShard(g);
        }
        DetachedHaveItems(State(), g);
      }
    }

    method OnResponse(tp: Tp, id: nat, data: bytes)
      requires Inv(State())
      modifies this
      ensures State() == Respond(old(State()), tp, id, data) && Inv(State())
    {
      ghost var before := State();
      RespondIsRun(cfg, before, tp, id, data);
      RunKeeps(cfg, before, ResponseEvents(before, tp, id, data));
      if tp !in channels {
        return;
      }
      var g := channels[tp];
      var n := |arrivals|;
      arrivals := arrivals + [Arrival(g, id, data, Matching)];
      var i := id % GROUPS;
      var m := if g in groups && i < |groups[g].maps| then groups[g].maps[i] else map[];
      if id !in m {
        arrivals := arrivals[n := arrivals[n].(stage := Settled(None))];
        return;
      }
      var c := m[id];
      arrivals := arrivals[n := arrivals[n].(stage := Pushing(c))];
      if c !in calls {
        return;
      }
      if calls[c].slot.Some? {
        arrivals := arrivals[n := arrivals[n].(stage := Settled(None))];
      } else {
        arrivals := arrivals[n := arrivals[n].(stage := Settled(Some(c)))];
        calls := calls[c := calls[c].(slot := Some(Item(0, data, FromFrame(n))))];
      }
    }

    /** Delivers every frame the buffer holds, in order, and returns the bytes consumed. */
    method OnReceiveData(tp: Tp, data: bytes) returns (consume: nat)
      requires Inv(State())
      modifies this
      ensures State() == RespondAll(old(State()), tp, TakenFrames(kind, data)) && Inv(State())
      ensures consume == TakenBytes(kind, data)
    {
      hide *;
      consume := 0;
      ghost var seen: seq<Frame>, ends: seq<nat> := [], [0];
      LoopStarts(kind, data, State(), tp);
      while consume < |data|
        invariant 0 <= consume <= |data|
        invariant Trace(Taken(kind), data, seen, ends) && |ends| == |seen| + 1 && ends[|seen|] == consume
        invariant State() == RespondAll(old(State()), tp, seen) && Inv(State())
        decreases |data| - consume
      {
        var next := TakeFrame(kind, data, consume);
        if next.Wait? {
          break;
        }
        OnResponse(tp, next.frame.head.callid, next.frame.body);
        RespondAllOneMore(old(State()), tp, seen, next.frame);
        TraceOneMore(Taken(kind), data, seen, ends, next.frame, consume + next.size);
        seen, ends := seen + [next.frame], ends + [consume + next.size];
        consume := consume + next.size;
      }
      LoopComplete(kind, data, seen, ends);
    }

    /** `++msg_id_`. */
    method TakeId(c: Cid) returns (id: nat)
      requires c in calls
      modifies this
      ensures State() == TakeIdStep(old(State()), c, false) && id == msgId == old(msgId) + 1
    {
      msgId := msgId + 1;
      id := msgId;
      calls := calls[c := calls[c].(pc := LookingUp, id := id)];
    }

    /** The region under `channel_mtx_`. */
    method FindGroup(c: Cid) returns (ok: bool)
      requires c in calls
      modifies this
      ensures State() == LookupStep(old(State()), c) && ok == At(State(), c, Registering)
    {
      var tp := calls[c].tp;
      ok := tp in channels;
      if ok {
        calls := calls[c := calls[c].(pc := Registering, gid := channels[tp])];
      } else {
        calls := calls[c := calls[c].(pc := Returned(NotEstablished))];
      }
    }

    /** The region under the shard's mutex: refuse a closed shard, else enter the map. */
    method EnterShard(c: Cid) returns (ok: bool)
      requires Inv(State()) && At(State(), c, Registering)
      modifies this
      ensures State() == RegisterStep(old(State()), c) && ok == At(State(), c, Sending)
    {
      RegisteringShape(State(), c);
      var g, id := calls[c].gid, calls[c].id;
      var i := id % GROUPS;
      ok := !groups[g].closed[i];
      if ok {
        var m: map<nat, Cid> := groups[g].maps[i];
        m := m[id := c];
        groups := groups[g := groups[g].(maps := groups[g].maps[i := m])];
        calls := calls[c := calls[c].(pc := Sending)];
      } else {
        calls := calls[c := calls[c].(pc := Returned(NotEstablished))];
      }
    }

    /** Hands the buffer to the transport, then `++wnd_size_`. */
    method SendAndCount(c: Cid)
      requires At(State(), c, Sending)
      modifies this
      ensures State() == SentAndCounted(old(State()), c)
    {
      calls := calls[c := calls[c].(pc := Counting, send := Outstanding)];
      wnd := wnd + 1;
      calls := calls[c := calls[c].(pc := Waiting)];
    }

    /**
     `Call` from the moment it has a transport until it waits: take an id, build the message, find
     the group, register, send, enter the window. `sent` is what went to the transport, if anything.
     */
    method Issue(c: Cid, r: Request) returns (sent: Option<bytes>)
      requires Inv(State()) && At(State(), c, Identifying) && !r.oneWay
      modifies this
      ensures State() == Issued(old(State()), c) && Inv(State())
      ensures sent == if At(State(), c, Waiting) then Some(FrameBytes(RequestFrame(kind, old(msgId) + 1, r))) else None
    {
      hide Inv, FrameBytes, RequestFrame, MakeHead, Entered, SendStep;
      RequestHead(kind, msgId + 1, r);
      IssuedKeeps(cfg, State(), c);
      TakeIdKeeps(State(), c, false);
      var id := TakeId(c);
      var buf := BuildMessage(kind, id, REQUEST, r.service, r.method_, r.body);
      NeverWaitsBeforeSending(State(), c);
      var ok := EnterMap(c);
      if !ok {
        return None;
      }
      SendAndCount(c);
      sent := Some(buf[..]);
    }

    /** The group's lock, then the shard's. */
    method EnterMap(c: Cid) returns (ok: bool)
      requires Inv(State()) && At(State(), c, LookingUp)
      modifies this
      ensures State() == Entered(old(State()), c) && ok == At(State(), c, Sending)
    {
      LookupKeeps(cfg, State(), c);
      hide Inv, RegisterStep;
      ok := FindGroup(c);
      if !ok {
        return;
      }
      ok := EnterShard(c);
    }

    /** `Call` from the pop to its return, for a call whose channel holds an item. */
    method Finish(c: Cid, parses: bool) returns (result: Result)
      requires Inv(State()) && At(State(), c, Waiting) && calls[c].slot.Some?
      modifies this
      ensures State() == Finished(old(State()), c, parses) && Inv(State())
      ensures At(State(), c, Returned(result)) && result == ResultOf(old(calls)[c].slot.value, parses)
      ensures var item := old(calls)[c].slot.value;
              && (forall ec :: result == Failed(ec) <==> ec == item.ec && ec != 0)
              && (result == Done <==> item.ec == 0 && item.data != [] && parses)
    {
      hide Inv;
      ghost var before := State();
      FinishedKeeps(cfg, before, c, parses);
      OwnGroupShape(before, c);
      var rsp := calls[c].slot.value;
      calls := calls[c := calls[c].(pc := Uncounting, popped := Some(rsp), slot := None)];
      wnd := wnd - 1;
      calls := calls[c := calls[c].(pc := Erasing)];
      var g, id := calls[c].gid, calls[c].id;
      var i := id % GROUPS;
      var m: map<nat, Cid> := groups[g].maps[i];
      m := m - {id};
      groups := groups[g := groups[g].(maps := groups[g].maps[i := m])];
      result := if rsp.ec != 0 then Failed(rsp.ec)
                else if rsp.data == [] || !parses then ParseError
                else Done;
      calls := calls[c := calls[c].(pc := Returned(result))];
    }
  }

  lemma LoopStarts(kind: Kind, data: bytes, s: State, tp: Tp)
    ensures Trace(Taken(kind), data, [], [0])
    ensures RespondAll(s, tp, []) == s
  {
  }

  lemma DetachedHaveItems(s: State, g: Gid)
    requires Inv(s) && g in s.groups && s.groups[g].status.Closing? && s.groups[g].status.next == GROUPS
    ensures forall c :: c in s.calls && Awaiting(s.calls[c].pc) && s.calls[c].gid == g ==> s.calls[c].slot.Some?
  {
    assert GroupOk(s.groups[g]);
    forall c | c in s.calls && Awaiting(s.calls[c].pc) && s.calls[c].gid == g ensures s.calls[c].slot.Some? {
      assert CallOk(s, c, s.calls[c]);
    }
  }

  // ---- The two halves of `Call` as runs ----

  /** The state after an uninterrupted `Issue`. */
  function Issued(s: State, c: Cid): State
    requires At(s, c, Identifying)
  {
    var entered := Entered(TakeIdStep(s, c, false), c);
    if !At(entered, c, Sending) then entered else SentAndCounted(entered, c)
  }

  /** Group and shard: registered, or refused. */
  function Entered(s: State, c: Cid): State
    requires At(s, c, LookingUp)
  {
    var found := LookupStep(s, c);
    if At(found, c, Registering) then RegisterStep(found, c) else found
  }

  lemma NeverWaitsBeforeSending(s: State, c: Cid)
    requires At(s, c, LookingUp)
    ensures !At(Entered(s, c), c, Waiting)
  {
  }

  lemma LookupKeeps(cfg: Config, s: State, c: Cid)
    requires Inv(s) && At(s, c, LookingUp)
    ensures Inv(LookupStep(s, c))
  {
    hide Inv, LookupStep;
    MoveKeeps(cfg, s, Lookup(c));
  }

  /** `Call` from the moment it has a transport, as far as it gets. */
  function IssueEvents(s: State, c: Cid): seq<Event>
    requires At(s, c, Identifying)
  {
    [TakeId(c, false)] + EnterEvents(TakeIdStep(s, c, false), c)
  }

  function EnterEvents(s: State, c: Cid): seq<Event>
    requires At(s, c, LookingUp)
  {
    var found := LookupStep(s, c);
    [Lookup(c)] + if At(found, c, Registering) then RegisterEvents(found, c) else []
  }

  function RegisterEvents(s: State, c: Cid): seq<Event>
    requires At(s, c, Registering)
  {
    [Register(c)] + if At(RegisterStep(s, c), c, Sending) then [Event.Send(c)] + [Count(c)] else []
  }

  /** The rest of an uninterrupted `Issue` once the caller has been through the group's and shard's locks. */
  function SentAndCounted(s: State, c: Cid): State
    requires c in s.calls
  {
    if !At(s, c, Sending) then s else
    var counting := SendStep(s, c);
    Goto(counting, c, Waiting).(wnd := counting.wnd + 1)
  }

  lemma SendAndCountIsRun(cfg: Config, s: State, c: Cid)
    requires At(s, c, Sending)
    ensures Run(cfg, s, [Event.Send(c)] + [Count(c)])
    ensures Exec(cfg, s, [Event.Send(c)] + [Count(c)]) == SentAndCounted(s, c)
  {
    hide Run, Exec;
    RunOne(cfg, SendStep(s, c), Count(c));
    RunCons(cfg, s, Event.Send(c), [Count(c)]);
  }

  lemma RegisterIsRun(cfg: Config, s: State, c: Cid)
    requires At(s, c, Registering)
    ensures Run(cfg, s, RegisterEvents(s, c)) && c in RegisterStep(s, c).calls
    ensures Exec(cfg, s, RegisterEvents(s, c)) == SentAndCounted(RegisterStep(s, c), c)
  {
    hide Run, Exec, SendStep;
    var entered := RegisterStep(s, c);
    if At(entered, c, Sending) {
      SendAndCountIsRun(cfg, entered, c);
      RunCons(cfg, s, Register(c), [Event.Send(c)] + [Count(c)]);
    } else {
      RunOne(cfg, s, Register(c));
      assert [Register(c)] + [] == [Register(c)];
    }
  }

  lemma EnterIsRun(cfg: Config, s: State, c: Cid)
    requires At(s, c, LookingUp)
    ensures Run(cfg, s, EnterEvents(s, c)) && c in Entered(s, c).calls
    ensures Exec(cfg, s, EnterEvents(s, c)) == SentAndCounted(Entered(s, c), c)
  {
    hide Run, Exec, SendStep, RegisterStep, RegisterEvents;
    var found := LookupStep(s, c);
    if At(found, c, Registering) {
      RegisterIsRun(cfg, found, c);
      RunCons(cfg, s, Lookup(c), RegisterEvents(found, c));
    } else {
      RunOne(cfg, s, Lookup(c));
      assert [Lookup(c)] + [] == [Lookup(c)];
    }
  }

  /** Issuing a call is a run of the protocol. */
  lemma IssuedIsRun(cfg: Config, s: State, c: Cid)
    requires At(s, c, Identifying)
    ensures Run(cfg, s, IssueEvents(s, c)) && Exec(cfg, s, IssueEvents(s, c)) == Issued(s, c)
  {
    hide Run, Exec, SendStep, Entered, EnterEvents;
    var taken := TakeIdStep(s, c, false);
    EnterIsRun(cfg, taken, c);
    RunCons(cfg, s, TakeId(c, false), EnterEvents(taken, c));
  }

  lemma IssuedKeeps(cfg: Config, s: State, c: Cid)
    requires Inv(s) && At(s, c, Identifying)
    ensures Inv(Issued(s, c))
  {
    hide Inv, Run, Exec, Issued, IssueEvents;
    IssuedIsRun(cfg, s, c);
    RunKeeps(cfg, s, IssueEvents(s, c));
  }

  lemma GroupShape(s: State, tp: Tp, g: Gid)
    requires Inv(s) && tp in s.channels && s.channels[tp] == g
    ensures g in s.groups && |s.groups[g].maps| == GROUPS && |s.groups[g].closed| == GROUPS
  {
    assert GroupOk(s.groups[g]);
  }

  lemma RegisteringShape(s: State, c: Cid)
    requires Inv(s) && At(s, c, Registering)
    ensures s.calls[c].gid in s.groups
    ensures |s.groups[s.calls[c].gid].maps| == GROUPS && |s.groups[s.calls[c].gid].closed| == GROUPS
  {
    assert CallOk(s, c, s.calls[c]);
    assert GroupOk(s.groups[s.calls[c].gid]);
  }

  lemma OwnGroupShape(s: State, c: Cid)
    requires Inv(s) && At(s, c, Waiting)
    ensures s.calls[c].gid in s.groups
    ensures |s.groups[s.calls[c].gid].maps| == GROUPS && |s.groups[s.calls[c].gid].closed| == GROUPS
  {
    assert CallOk(s, c, s.calls[c]);
    assert GroupOk(s.groups[s.calls[c].gid]);
  }

  /** The state after an uninterrupted `Finish`. */
  function Finished(s: State, c: Cid, parses: bool): State
    requires At(s, c, Waiting) && s.calls[c].slot.Some?
  {
    var popped := PopStep(s, c);
    EraseStep(Goto(popped, c, Erasing).(wnd := popped.wnd - 1), c, parses)
  }

  /** Finishing a call is a run of the protocol. */
  lemma FinishedIsRun(cfg: Config, s: State, c: Cid, parses: bool)
    requires At(s, c, Waiting) && s.calls[c].slot.Some?
    ensures Run(cfg, s, [Pop(c)] + ([Uncount(c)] + [Erase(c, parses)]))
    ensures Exec(cfg, s, [Pop(c)] + ([Uncount(c)] + [Erase(c, parses)])) == Finished(s, c, parses)
  {
    hide Run, Exec, EraseStep;
    var popped := PopStep(s, c);
    RunOne(cfg, Goto(popped, c, Erasing).(wnd := popped.wnd - 1), Erase(c, parses));
    RunCons(cfg, popped, Uncount(c), [Erase(c, parses)]);
    RunCons(cfg, s, Pop(c), [Uncount(c)] + [Erase(c, parses)]);
  }

  lemma FinishedKeeps(cfg: Config, s: State, c: Cid, parses: bool)
    requires Inv(s) && At(s, c, Waiting) && s.calls[c].slot.Some?
    ensures Inv(Finished(s, c, parses))
  {
    hide Inv, Run, Exec, Finished;
    FinishedIsRun(cfg, s, c, parses);
    RunKeeps(cfg, s, [Pop(c)] + ([Uncount(c)] + [Erase(c, parses)]));
  }
}
