/**
 The call multiplexer of `ClientImpl` as a state machine. Many callers share one transport; each
 caller runs `Call` with its own program counter, connection callbacks and arriving responses run
 beside it, and every region that holds a lock (or touches one atomic counter) is one step. An
 event names the step taken next and what the outside world contributed to it, so a list of events
 is one interleaving.

 `co_chan(1)` is a cell for one item: `TryPush` does nothing when it is full.
 */
module CallProtocol {
  import opened Prelude

  const GROUPS: nat := 16

  type Tp = nat
  type Gid = nat
  type Cid = nat

  /** What `Call` reports to its caller; an error code 0 means success. */
  datatype Result =
    | Done
    | WindowFull
    | NotEstablished
    | Unreachable(ec: nat)
    | TimedOut
    | Failed(ec: nat)
    | ParseError
    | SendReported(ec: nat)

  /** Where a caller stands in `Call`. */
  datatype Pc =
    | Picking | Reconnecting | Repicking | Identifying | OneWaySending
    | LookingUp | Registering | Sending | Counting | Waiting | Uncounting | Erasing
    | Returned(result: Result)

  datatype Origin = FromSend | FromClose | FromFrame(n: nat)

  /** `ResponseData`, with a record of who pushed it. */
  datatype Item = Item(ec: nat, data: bytes, origin: Origin)

  datatype SendState = Unsent | Outstanding | Reported(ec: nat)

  datatype Call = Call(
    pc: Pc, tp: Tp, id: nat, gid: Gid, slot: Option<Item>, send: SendState, popped: Option<Item>)

  /** Closing(next, ec) is `OnDisconnected(ec)` with shards below `next` already swept. */
  datatype Status = Attached | Closing(next: nat, ec: nat) | Replaced

  /** `RspChanGroup`: sixteen shards, each with its map and its closed flag. */
  datatype Group = Group(tp: Tp, maps: seq<map<nat, Cid>>, closed: seq<bool>, status: Status)

  datatype Stage = Matching | Pushing(c: Cid) | Settled(target: Option<Cid>)

  /** One response frame inside `OnResponse`, after its group was found. */
  datatype Arrival = Arrival(gid: Gid, id: nat, data: bytes, stage: Stage)

  datatype State = State(
    tps: seq<Tp>, channels: map<Tp, Gid>, groups: map<Gid, Group>,
    msgId: nat, wnd: int, calls: map<Cid, Call>, arrivals: seq<Arrival>)

  /** The options `request_wnd_size` and `rcv_timeout_ms != 0`. */
  datatype Config = Config(window: nat, timeouts: bool)

  const INIT := State([], map[], map[], 0, 0, map[], [])

  datatype Event =
    // the caller
    | Start(c: Cid)
    | Pick(c: Cid, tp: Tp, established: bool)
    | PickNone(c: Cid)
    | Reconnect(c: Cid, ec: nat)
    | TakeId(c: Cid, oneWay: bool)
    | Lookup(c: Cid)
    | Register(c: Cid)
    | Send(c: Cid)
    | SendDone(c: Cid, ec: nat)
    | Count(c: Cid)
    | Pop(c: Cid)
    | Timeout(c: Cid)
    | Uncount(c: Cid)
    | Erase(c: Cid, parses: bool)
    // the connection callbacks
    | Add(tp: Tp)
    | Install(tp: Tp, g: Gid)
    | Del(tp: Tp)
    | Detach(tp: Tp, ec: nat)
    | CloseShard(g: Gid)
    // an arriving response frame
    | Arrive(tp: Tp, id: nat, data: bytes)
    | Match(n: nat)
    | Push(n: nat)

  function Shard(id: nat): (i: nat)
    ensures i < GROUPS
  {
    id % GROUPS
  }

  predicate At(s: State, c: Cid, pc: Pc) {
    c in s.calls && s.calls[c].pc == pc
  }

  function SetCall(s: State, c: Cid, call: Call): State {
    s.(calls := s.calls[c := call])
  }

  function Goto(s: State, c: Cid, pc: Pc): State
    requires c in s.calls
  {
    SetCall(s, c, s.calls[c].(pc := pc))
  }

  function TryPush(call: Call, item: Item): Call {
    if call.slot.None? then call.(slot := Some(item)) else call
  }

  function EmptyGroup(tp: Tp): Group {
    Group(tp, seq(GROUPS, _ => map[]), seq(GROUPS, _ => false), Attached)
  }

  // ---- The caller's steps ----

  function StartStep(cfg: Config, s: State, c: Cid): State {
    var pc := if s.wnd > cfg.window then Returned(WindowFull) else Picking;
    SetCall(s, c, Call(pc, 0, 0, 0, None, Unsent, None))
  }

  function PickStep(s: State, c: Cid, tp: Tp, established: bool): State
    requires c in s.calls
  {
    var pc := if established then Identifying else Returned(NotEstablished);
    SetCall(s, c, s.calls[c].(pc := pc, tp := tp))
  }

  function TakeIdStep(s: State, c: Cid, oneWay: bool): State
    requires c in s.calls
  {
    var id := s.msgId + 1;
    var pc := if oneWay then OneWaySending else LookingUp;
    SetCall(s, c, s.calls[c].(pc := pc, id := id)).(msgId := id)
  }

  function LookupStep(s: State, c: Cid): State
    requires c in s.calls
  {
    var call := s.calls[c];
    if call.tp !in s.channels then Goto(s, c, Returned(NotEstablished))
    else SetCall(s, c, call.(pc := Registering, gid := s.channels[call.tp]))
  }

  /** The shard of a call's id in its group. */
  function MapOf(s: State, g: Gid, i: nat): map<nat, Cid>
  {
    if g in s.groups && i < |s.groups[g].maps| then s.groups[g].maps[i] else map[]
  }

  predicate ClosedAt(s: State, g: Gid, i: nat) {
    g in s.groups && i < |s.groups[g].closed| && s.groups[g].closed[i]
  }

  function SetMap(s: State, g: Gid, i: nat, m: map<nat, Cid>): State
  {
    if g in s.groups && i < |s.groups[g].maps| then
      var grp := s.groups[g];
      s.(groups := s.groups[g := grp.(maps := grp.maps[i := m])])
    else s
  }

  function RegisterStep(s: State, c: Cid): State
    requires c in s.calls
  {
    var call := s.calls[c];
    var i := Shard(call.id);
    if ClosedAt(s, call.gid, i) then Goto(s, c, Returned(NotEstablished))
    else Goto(SetMap(s, call.gid, i, MapOf(s, call.gid, i)[call.id := c]), c, Sending)
  }

  function SendStep(s: State, c: Cid): State
    requires c in s.calls
  {
    SetCall(s, c, s.calls[c].(pc := Counting, send := Outstanding))
  }

  /** The send callback: an error is pushed to the caller's own channel, success is not. */
  function SendDoneStep(s: State, c: Cid, ec: nat): State
    requires c in s.calls
  {
    var call := s.calls[c].(send := Reported(ec));
    SetCall(s, c, if ec != 0 then TryPush(call, Item(ec, [], FromSend)) else call)
  }

  function PopStep(s: State, c: Cid): State
    requires c in s.calls
  {
    SetCall(s, c, s.calls[c].(pc := Uncounting, popped := s.calls[c].slot, slot := None))
  }

  function ResultOf(item: Item, parses: bool): Result {
    if item.ec != 0 then Failed(item.ec)
    else if item.data == [] || !parses then ParseError
    else Done
  }

  function EraseStep(s: State, c: Cid, parses: bool): State
    requires c in s.calls && s.calls[c].popped.Some?
  {
    var call := s.calls[c];
    var i := Shard(call.id);
    Goto(SetMap(s, call.gid, i, MapOf(s, call.gid, i) - {call.id}), c,
         Returned(ResultOf(call.popped.value, parses)))
  }

  // ---- The connection callbacks' steps ----

  function SetStatus(s: State, g: Gid, status: Status): State {
    if g in s.groups then s.(groups := s.groups[g := s.groups[g].(status := status)]) else s
  }

  function InstallStep(s: State, tp: Tp, g: Gid): State {
    var s' := if tp in s.channels then SetStatus(s, s.channels[tp], Replaced) else s;
    s'.(channels := s.channels[tp := g], groups := s'.groups[g := EmptyGroup(tp)])
  }

  /** `Del` removes the first occurrence only. */
  function Without(tps: seq<Tp>, tp: Tp): seq<Tp> {
    if tps == [] then []
    else if tps[0] == tp then tps[1..]
    else [tps[0]] + Without(tps[1..], tp)
  }

  function DetachStep(s: State, tp: Tp, ec: nat): State {
    if tp !in s.channels then s
    else SetStatus(s, s.channels[tp], Closing(0, ec)).(channels := s.channels - {tp})
  }

  /** Marks the next shard closed and pushes the disconnect error to every channel in it. */
  function CloseShardStep(s: State, g: Gid): State
    requires g in s.groups && s.groups[g].status.Closing?
  {
    var grp := s.groups[g];
    var i := grp.status.next;
    var item := Item(grp.status.ec, [], FromClose);
    var swept := MapOf(s, g, i).Values;
    var grp' := grp.(closed := if i < |grp.closed| then grp.closed[i := true] else grp.closed,
                     status := Closing(i + 1, grp.status.ec));
    s.(groups := s.groups[g := grp'],
       calls := map c | c in s.calls :: if c in swept then TryPush(s.calls[c], item) else s.calls[c])
  }

  // ---- The receiving side's steps ----

  function ArriveStep(s: State, tp: Tp, id: nat, data: bytes): State {
    if tp !in s.channels then s
    else s.(arrivals := s.arrivals + [Arrival(s.channels[tp], id, data, Matching)])
  }

  function SetStage(s: State, n: nat, stage: Stage): State
    requires n < |s.arrivals|
  {
    s.(arrivals := s.arrivals[n := s.arrivals[n].(stage := stage)])
  }

  function MatchStep(s: State, n: nat): State
    requires n < |s.arrivals|
  {
    var a := s.arrivals[n];
    var m := MapOf(s, a.gid, Shard(a.id));
    SetStage(s, n, if a.id in m then Pushing(m[a.id]) else Settled(None))
  }

  function PushStep(s: State, n: nat): State
    requires n < |s.arrivals| && s.arrivals[n].stage.Pushing? && s.arrivals[n].stage.c in s.calls
  {
    var a := s.arrivals[n];
    var c := a.stage.c;
    if s.calls[c].slot.Some? then SetStage(s, n, Settled(None))
    else SetCall(SetStage(s, n, Settled(Some(c))), c, TryPush(s.calls[c], Item(0, a.data, FromFrame(n))))
  }

  // ---- Steps and runs ----

  /** Whether the event can be the next step of an interleaving. */
  predicate Enabled(cfg: Config, s: State, e: Event) {
    match e
    case Start(c) => c !in s.calls
    case Pick(c, tp, _) => (At(s, c, Picking) || At(s, c, Repicking)) && tp in s.tps
    case PickNone(c) => (At(s, c, Picking) || At(s, c, Repicking)) && s.tps == []
    case Reconnect(c, _) => At(s, c, Reconnecting)
    case TakeId(c, _) => At(s, c, Identifying)
    case Lookup(c) => At(s, c, LookingUp)
    case Register(c) => At(s, c, Registering)
    case Send(c) => At(s, c, Sending)
    case SendDone(c, _) => c in s.calls && (s.calls[c].send == Outstanding || s.calls[c].pc == OneWaySending)
    case Count(c) => At(s, c, Counting)
    case Pop(c) => At(s, c, Waiting) && s.calls[c].slot.Some?
    case Timeout(c) => At(s, c, Waiting) && cfg.timeouts
    case Uncount(c) => At(s, c, Uncounting)
    case Erase(c, _) => At(s, c, Erasing) && s.calls[c].popped.Some?
    case Add(_) => true
    case Install(_, g) => g !in s.groups
    case Del(_) => true
    case Detach(_, _) => true
    case CloseShard(g) => g in s.groups && s.groups[g].status.Closing? && s.groups[g].status.next < GROUPS
    case Arrive(_, _, _) => true
    case Match(n) => n < |s.arrivals| && s.arrivals[n].stage == Matching
    case Push(n) => n < |s.arrivals| && s.arrivals[n].stage.Pushing? && s.arrivals[n].stage.c in s.calls
  }

  function Step(cfg: Config, s: State, e: Event): State
    requires Enabled(cfg, s, e)
  {
    match e
    case Start(c) => StartStep(cfg, s, c)
    case Pick(c, tp, established) => PickStep(s, c, tp, established)
    case PickNone(c) =>
      Goto(s, c, if s.calls[c].pc == Picking then Reconnecting else Returned(NotEstablished))
    case Reconnect(c, ec) => Goto(s, c, if ec != 0 then Returned(Unreachable(ec)) else Repicking)
    case TakeId(c, oneWay) => TakeIdStep(s, c, oneWay)
    case Lookup(c) => LookupStep(s, c)
    case Register(c) => RegisterStep(s, c)
    case Send(c) => SendStep(s, c)
    case SendDone(c, ec) =>
      if s.calls[c].pc == OneWaySending then Goto(s, c, Returned(SendReported(ec)))
      else SendDoneStep(s, c, ec)
    case Count(c) => Goto(s, c, Waiting).(wnd := s.wnd + 1)
    case Pop(c) => PopStep(s, c)
    case Timeout(c) => Goto(s, c, Returned(TimedOut))
    case Uncount(c) => Goto(s, c, Erasing).(wnd := s.wnd - 1)
    case Erase(c, parses) => EraseStep(s, c, parses)
    case Add(tp) => s.(tps := s.tps + [tp])
    case Install(tp, g) => InstallStep(s, tp, g)
    case Del(tp) => s.(tps := Without(s.tps, tp))
    case Detach(tp, ec) => DetachStep(s, tp, ec)
    case CloseShard(g) => CloseShardStep(s, g)
    case Arrive(tp, id, data) => ArriveStep(s, tp, id, data)
    case Match(n) => MatchStep(s, n)
    case Push(n) => PushStep(s, n)
  }

  /** The events form an interleaving from `s`. */
  predicate Run(cfg: Config, s: State, es: seq<Event>)
    decreases |es|
  {
    es == [] || (Enabled(cfg, s, es[0]) && Run(cfg, Step(cfg, s, es[0]), es[1..]))
  }

  /** The state an interleaving ends in. */
  function Exec(cfg: Config, s: State, es: seq<Event>): State
    requires Run(cfg, s, es)
    decreases |es|
  {
    if es == [] then s else Exec(cfg, Step(cfg, s, es[0]), es[1..])
  }

  lemma {:induction false} RunSplit(cfg: Config, s: State, first: seq<Event>, then_: seq<Event>)
    requires Run(cfg, s, first) && Run(cfg, Exec(cfg, s, first), then_)
    ensures Run(cfg, s, first + then_)
    ensures Exec(cfg, s, first + then_) == Exec(cfg, Exec(cfg, s, first), then_)
    decreases |first|
  {
    if first == [] {
      assert first + then_ == then_;
    } else {
      assert (first + then_)[1..] == first[1..] + then_;
      RunSplit(cfg, Step(cfg, s, first[0]), first[1..], then_);
    }
  }
}
