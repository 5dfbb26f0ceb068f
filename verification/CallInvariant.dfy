/**
 What every interleaving of the call multiplexer keeps. The invariant is split into what it says
 of one call, of the shard maps, of the connections and of the response frames in flight.
 */
module CallInvariant {
  import opened Prelude
  import opened CallProtocol

  /** The call's entry is in its shard map: from registration until `chan_map.erase`, for ever after a timeout. */
  predicate Registered(pc: Pc) {
    pc in {Sending, Counting, Waiting, Uncounting, Erasing, Returned(TimedOut)}
  }

  /** The call has yet to take something from its channel. */
  predicate Awaiting(pc: Pc) {
    pc in {Sending, Counting, Waiting}
  }

  /** The call is between `++wnd_size_` and `--wnd_size_`, for ever after a timeout. */
  predicate Counted(pc: Pc) {
    pc in {Waiting, Uncounting, Returned(TimedOut)}
  }

  /**
   Where an item in a call's channel can come from: the call's own failed send, the disconnection
   of its own group, or a frame that arrived on its own group under its own id.
   */
  predicate ItemOk(s: State, c: Cid, call: Call, item: Item) {
    match item.origin
    case FromSend => call.send == Reported(item.ec) && item.ec != 0
    case FromClose =>
      && call.gid in s.groups && s.groups[call.gid].status.Closing?
      && item == Item(s.groups[call.gid].status.ec, [], FromClose)
    case FromFrame(n) =>
      && n < |s.arrivals| && s.arrivals[n] == Arrival(call.gid, call.id, item.data, Settled(Some(c)))
      && item.ec == 0
  }

  /** What the invariant says of one call, given the rest of the state. */
  predicate CallOk(s: State, c: Cid, call: Call) {
    && call.id <= s.msgId
    && (Registered(call.pc) || call.pc in {OneWaySending, LookingUp, Registering} ==> call.id != 0)
    && (Registered(call.pc) || call.pc == Registering ==> call.gid in s.groups)
    && (Registered(call.pc) ==>
          var m := MapOf(s, call.gid, Shard(call.id)); call.id in m && m[call.id] == c)
    && (Awaiting(call.pc) && ClosedAt(s, call.gid, Shard(call.id)) ==> call.slot.Some?)
    && (call.slot.Some? ==> ItemOk(s, c, call, call.slot.value))
    && (call.popped.Some? ==> ItemOk(s, c, call, call.popped.value))
    && (call.pc in {Uncounting, Erasing} ==> call.popped.Some?)
    && (call.pc in {Picking, Reconnecting, Repicking, Identifying} ==> call.id == 0)
    && (call.pc in {Picking, Reconnecting, Repicking, Identifying, LookingUp, Registering} ==>
          call.slot.None? && call.popped.None?)
    && (call.pc in {Picking, Reconnecting, Repicking, Identifying, LookingUp, Registering, Sending} ==>
          call.send == Unsent)
    && (Awaiting(call.pc) ==> call.popped.None?)
    && (call.pc in {Counting, Waiting} ==> call.send != Unsent)
    && (call.pc == Returned(Done) ==>
          call.popped.Some? && call.popped.value.ec == 0 && call.popped.value.data != [])
  }

  predicate GroupOk(grp: Group) {
    && |grp.maps| == GROUPS && |grp.closed| == GROUPS
    && (grp.status.Closing? ==> grp.status.next <= GROUPS)
    && forall i :: 0 <= i < GROUPS ==>
         (grp.closed[i] <==> grp.status.Closing? && i < grp.status.next)
  }

  ghost predicate GroupsOk(s: State) {
    forall g :: g in s.groups ==> GroupOk(s.groups[g])
  }

  /** `channels_` holds exactly the attached groups, each under its own transport. */
  ghost predicate ChannelsOk(s: State) {
    && (forall tp :: tp in s.channels ==>
          && s.channels[tp] in s.groups
          && s.groups[s.channels[tp]].tp == tp && s.groups[s.channels[tp]].status == Attached)
    && (forall g :: g in s.groups && s.groups[g].status == Attached ==>
          s.groups[g].tp in s.channels && s.channels[s.groups[g].tp] == g)
  }

  predicate EntryOk(s: State, g: Gid, i: nat, id: nat, c: Cid) {
    c in s.calls && Registered(s.calls[c].pc) && s.calls[c].id == id && s.calls[c].gid == g && i == Shard(id)
  }

  /** Each entry of a shard map belongs to a registered call of that id, group and shard. */
  ghost predicate EntriesOk(s: State) {
    forall g: Gid, i: nat, id: nat :: id in MapOf(s, g, i) ==> EntryOk(s, g, i, id, MapOf(s, g, i)[id])
  }

  ghost predicate IdsDistinct(s: State) {
    forall c, c' :: c in s.calls && c' in s.calls && c != c' && s.calls[c].id != 0 ==>
      s.calls[c].id != s.calls[c'].id
  }

  predicate ArrivalOk(s: State, a: Arrival) {
    && a.gid in s.groups
    && (a.stage.Pushing? ==>
          var c := a.stage.c;
          c in s.calls && s.calls[c].id == a.id && s.calls[c].gid == a.gid && a.id != 0
          && s.calls[c].pc !in {LookingUp, Registering})
  }

  ghost predicate ArrivalsOk(s: State) {
    forall n :: 0 <= n < |s.arrivals| ==> ArrivalOk(s, s.arrivals[n])
  }

  ghost predicate CallsOk(s: State) {
    forall c :: c in s.calls ==> CallOk(s, c, s.calls[c])
  }

  ghost predicate Inv(s: State) {
    GroupsOk(s) && ChannelsOk(s) && CallsOk(s) && EntriesOk(s) && IdsDistinct(s) && ArrivalsOk(s)
  }

  lemma InitInv()
    ensures Inv(INIT)
  {
  }

  // ---- Moving one caller along ----

  lemma MovedCallsOk(s: State, c: Cid, call: Call)
    requires CallsOk(s) && CallOk(s, c, call)
    ensures CallsOk(SetCall(s, c, call))
  {
    var t := SetCall(s, c, call);
    forall x | x in t.calls ensures CallOk(t, x, t.calls[x]) {
      assert x != c ==> CallOk(s, x, s.calls[x]);
    }
  }

  lemma MovedEntriesOk(s: State, c: Cid, call: Call)
    requires EntriesOk(s)
    requires c in s.calls && Registered(s.calls[c].pc) ==>
               Registered(call.pc) && call.id == s.calls[c].id && call.gid == s.calls[c].gid
    ensures EntriesOk(SetCall(s, c, call))
  {
    var t := SetCall(s, c, call);
    forall g: Gid, i: nat, id: nat | id in MapOf(t, g, i) ensures EntryOk(t, g, i, id, MapOf(t, g, i)[id]) {
      assert id in MapOf(s, g, i) && EntryOk(s, g, i, id, MapOf(s, g, i)[id]);
    }
  }

  lemma MovedArrivalsOk(s: State, c: Cid, call: Call)
    requires ArrivalsOk(s)
    requires c in s.calls && s.calls[c].pc !in {LookingUp, Registering} ==>
               call.pc !in {LookingUp, Registering} && call.id == s.calls[c].id && call.gid == s.calls[c].gid
    ensures ArrivalsOk(SetCall(s, c, call))
  {
    var t := SetCall(s, c, call);
    forall n | 0 <= n < |t.arrivals| ensures ArrivalOk(t, t.arrivals[n]) {
      assert ArrivalOk(s, s.arrivals[n]);
    }
  }

  /** A step that only moves one caller along keeps the invariant when it is kept for that call. */
  lemma LocalMove(s: State, c: Cid, call: Call)
    requires Inv(s) && CallOk(s, c, call)
    requires c !in s.calls ==> call.id == 0 && !Registered(call.pc)
    requires c in s.calls ==>
               var was := s.calls[c];
               && call.id == was.id
               && (was.pc != LookingUp ==> call.gid == was.gid)
               && (Registered(was.pc) ==> Registered(call.pc))
               && (was.pc !in {LookingUp, Registering} ==> call.pc !in {LookingUp, Registering})
    ensures Inv(SetCall(s, c, call))
  {
    MovedCallsOk(s, c, call);
    MovedEntriesOk(s, c, call);
    MovedArrivalsOk(s, c, call);
    hide CallsOk, EntriesOk, ArrivalsOk, CallOk;
  }
}
