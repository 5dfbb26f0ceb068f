/**
 How a response frame gets to its call while everything else goes on: a frame that arrives on a call's
 connection under the call's id while the call is waiting is never lost to it.
 */
module CallDelivery {
  import opened Prelude
  import opened CallProtocol
  import opened CallInvariant
  import CallSafety
  import opened CallTheorems

  // ---- What a run does not change ----

  lemma StepKeepsId(cfg: Config, s: State, e: Event, c: Cid)
    requires Inv(s) && Enabled(cfg, s, e) && c in s.calls && s.calls[c].id != 0
    ensures c in Step(cfg, s, e).calls && Step(cfg, s, e).calls[c].id == s.calls[c].id
  {
    if ActsOn(e, c) {
      assert CallOk(s, c, s.calls[c]);
      hide Inv, CallOk;
      OwnStepKeepsId(cfg, s, e, c);
    } else {
      hide Inv;
      OthersOnlyFillSlot(cfg, s, e, c);
    }
  }

  lemma OwnStepKeepsId(cfg: Config, s: State, e: Event, c: Cid)
    requires Enabled(cfg, s, e) && ActsOn(e, c) && c in s.calls && !e.TakeId?
    ensures c in Step(cfg, s, e).calls && Step(cfg, s, e).calls[c].id == s.calls[c].id
  {
  }

  /** Once taken, a call's id is its id for good. */
  lemma {:induction false} RunKeepsId(cfg: Config, s: State, es: seq<Event>, c: Cid)
    requires Inv(s) && Run(cfg, s, es) && c in s.calls && s.calls[c].id != 0
    ensures c in Exec(cfg, s, es).calls && Exec(cfg, s, es).calls[c].id == s.calls[c].id
    decreases |es|
  {
    if es != [] {
      StepKeepsId(cfg, s, es[0], c);
      CallSafety.StepKeeps(cfg, s, es[0]);
      hide Inv, Step, Enabled;
      RunKeepsId(cfg, Step(cfg, s, es[0]), es[1..], c);
    }
  }

  predicate SameFrame(a: Arrival, b: Arrival) {
    a.gid == b.gid && a.id == b.id && a.data == b.data
  }

  lemma StepKeepsArrivals(cfg: Config, s: State, e: Event)
    requires Enabled(cfg, s, e)
    ensures var t := Step(cfg, s, e);
            && |s.arrivals| <= |t.arrivals|
            && (forall n :: 0 <= n < |s.arrivals| ==> SameFrame(s.arrivals[n], t.arrivals[n]))
            && (|t.arrivals| > |s.arrivals| ==>
                  && e.Arrive? && |t.arrivals| == |s.arrivals| + 1
                  && t.arrivals[|s.arrivals|].id == e.id && t.arrivals[|s.arrivals|].data == e.data)
  {
    if !(e.Arrive? || e.Match? || e.Push?) {
      OtherStepsLeaveArrivals(cfg, s, e);
      hide Step;
    }
  }

  lemma {:induction false} RunKeepsArrival(cfg: Config, s: State, es: seq<Event>, n: nat)
    requires Run(cfg, s, es) && n < |s.arrivals|
    ensures n < |Exec(cfg, s, es).arrivals| && SameFrame(s.arrivals[n], Exec(cfg, s, es).arrivals[n])
    decreases |es|
  {
    if es != [] {
      StepKeepsArrivals(cfg, s, es[0]);
      hide Step, Enabled;
      RunKeepsArrival(cfg, Step(cfg, s, es[0]), es[1..], n);
    }
  }

  /** Every frame in the record came in by an event of the run. */
  lemma {:induction false} ArrivedByEvent(cfg: Config, s: State, es: seq<Event>, n: nat) returns (k: nat)
    requires Run(cfg, s, es) && |s.arrivals| <= n < |Exec(cfg, s, es).arrivals|
    ensures k < |es| && es[k].Arrive?
    ensures es[k].id == Exec(cfg, s, es).arrivals[n].id && es[k].data == Exec(cfg, s, es).arrivals[n].data
    decreases |es|
  {
    var t := Step(cfg, s, es[0]);
    StepKeepsArrivals(cfg, s, es[0]);
    hide Step, Enabled;
    if n < |t.arrivals| {
      RunKeepsArrival(cfg, t, es[1..], n);
      k := 0;
    } else {
      k := ArrivedByEvent(cfg, t, es[1..], n);
      k := k + 1;
    }
  }

  // ---- No response is lost ----

  /** Past registration: the call has an entry, or had one. */
  predicate PastRegistration(pc: Pc) {
    Registered(pc) || pc.Returned?
  }

  /** Frame `n` is on its way to call `c`, or the call has something, or the call no longer waits. */
  predicate OnItsWay(s: State, c: Cid, n: nat) {
    && c in s.calls && PastRegistration(s.calls[c].pc) && n < |s.arrivals|
    && s.arrivals[n].gid == s.calls[c].gid && s.arrivals[n].id == s.calls[c].id
    && (Awaiting(s.calls[c].pc) ==>
          match s.arrivals[n].stage
          case Matching => true
          case Pushing(x) => x == c
          case Settled(_) => s.calls[c].slot.Some?)
  }

  lemma MatchFindsOwner(s: State, c: Cid, n: nat)
    requires Inv(s) && OnItsWay(s, c, n) && s.arrivals[n].stage == Matching
    ensures OnItsWay(MatchStep(s, n), c, n)
  {
    assert CallOk(s, c, s.calls[c]);
  }

  lemma PushFillsOwner(s: State, c: Cid, n: nat)
    requires OnItsWay(s, c, n) && s.arrivals[n].stage.Pushing? && s.arrivals[n].stage.c in s.calls
    ensures OnItsWay(PushStep(s, n), c, n)
  {
  }

  /** What a call's own step does to it once it has registered. */
  lemma OwnStepAfterRegistration(cfg: Config, s: State, e: Event, c: Cid)
    requires Enabled(cfg, s, e) && ActsOn(e, c) && c in s.calls && PastRegistration(s.calls[c].pc)
    ensures var t := Step(cfg, s, e);
            && c in t.calls && PastRegistration(t.calls[c].pc) && t.arrivals == s.arrivals
            && t.calls[c].gid == s.calls[c].gid && t.calls[c].id == s.calls[c].id
            && (Awaiting(t.calls[c].pc) ==>
                  Awaiting(s.calls[c].pc) && (s.calls[c].slot.Some? ==> t.calls[c].slot == s.calls[c].slot))
  {
  }

  lemma StepKeepsOnItsWay(cfg: Config, s: State, e: Event, c: Cid, n: nat)
    requires Inv(s) && Enabled(cfg, s, e) && OnItsWay(s, c, n)
    ensures OnItsWay(Step(cfg, s, e), c, n)
  {
    if e == Match(n) {
      MatchFindsOwner(s, c, n);
      hide Inv, OnItsWay, MatchStep;
    } else if e == Push(n) {
      PushFillsOwner(s, c, n);
      hide Inv, OnItsWay, PushStep;
    } else if ActsOn(e, c) {
      hide Inv;
      OwnStepAfterRegistration(cfg, s, e, c);
      hide Step, Enabled;
    } else {
      hide Inv;
      OthersOnlyFillSlot(cfg, s, e, c);
      OtherFramesStay(cfg, s, e, n);
      hide Step, Enabled;
    }
  }

  lemma OtherFramesStay(cfg: Config, s: State, e: Event, n: nat)
    requires Enabled(cfg, s, e) && n < |s.arrivals| && e != Match(n) && e != Push(n)
    ensures n < |Step(cfg, s, e).arrivals| && Step(cfg, s, e).arrivals[n] == s.arrivals[n]
  {
    if !(e.Arrive? || e.Match? || e.Push?) {
      OtherStepsLeaveArrivals(cfg, s, e);
      hide Step;
    }
  }

  // ---- What the call finds in its channel ----

  /** What is in the call's channel when frame `n` is pushed to it. */
  ghost function HeldAtPush(cfg: Config, s: State, es: seq<Event>, c: Cid, n: nat): Option<Item>
    requires Run(cfg, s, es)
    decreases |es|
  {
    if es == [] then None
    else if es[0] == Push(n) && c in s.calls then s.calls[c].slot
    else HeldAtPush(cfg, Step(cfg, s, es[0]), es[1..], c, n)
  }

  /** The frame's body under the frame's number, unless something else was there first. */
  function Delivered(held: Option<Item>, data: bytes, n: nat): Item {
    if held.Some? then held.value else Item(0, data, FromFrame(n))
  }

  /** As long as the call waits its channel holds `item`. */
  predicate Holds(s: State, c: Cid, item: Item) {
    c in s.calls && PastRegistration(s.calls[c].pc) && (Awaiting(s.calls[c].pc) ==> s.calls[c].slot == Some(item))
  }

  lemma StepKeepsHeld(cfg: Config, s: State, e: Event, c: Cid, item: Item)
    requires Enabled(cfg, s, e) && Holds(s, c, item)
    ensures Holds(Step(cfg, s, e), c, item)
  {
    if ActsOn(e, c) {
      OwnStepAfterRegistration(cfg, s, e, c);
    } else {
      OthersOnlyFillSlot(cfg, s, e, c);
    }
    hide Step, Enabled;
  }

  lemma {:induction false} RunKeepsHeld(cfg: Config, s: State, es: seq<Event>, c: Cid, item: Item)
    requires Run(cfg, s, es) && Holds(s, c, item)
    ensures Holds(Exec(cfg, s, es), c, item)
    decreases |es|
  {
    if es != [] {
      StepKeepsHeld(cfg, s, es[0], c, item);
      hide Step, Enabled, Holds;
      RunKeepsHeld(cfg, Step(cfg, s, es[0]), es[1..], c, item);
    }
  }

  /** The frame has yet to be pushed, or the call no longer waits. */
  predicate StillToCome(s: State, c: Cid, n: nat) {
    OnItsWay(s, c, n) && (Awaiting(s.calls[c].pc) ==> !s.arrivals[n].stage.Settled?)
  }

  lemma PushHolds(s: State, c: Cid, n: nat)
    requires StillToCome(s, c, n) && s.arrivals[n].stage.Pushing? && s.arrivals[n].stage.c in s.calls
    ensures Holds(PushStep(s, n), c, Delivered(s.calls[c].slot, s.arrivals[n].data, n))
  {
  }

  lemma StepKeepsToCome(cfg: Config, s: State, e: Event, c: Cid, n: nat)
    requires Inv(s) && Enabled(cfg, s, e) && StillToCome(s, c, n) && e != Push(n)
    ensures StillToCome(Step(cfg, s, e), c, n)
  {
    StepKeepsOnItsWay(cfg, s, e, c, n);
    if e == Match(n) {
      assert CallOk(s, c, s.calls[c]);
      hide Inv, CallOk;
    } else {
      hide Inv;
      OtherFramesStay(cfg, s, e, n);
      if ActsOn(e, c) {
        OwnStepAfterRegistration(cfg, s, e, c);
      } else {
        OthersOnlyFillSlot(cfg, s, e, c);
      }
      hide Step, Enabled;
    }
  }

  lemma {:induction false} DeliveredExactly(cfg: Config, s: State, es: seq<Event>, c: Cid, n: nat)
    requires Inv(s) && Run(cfg, s, es) && StillToCome(s, c, n)
    ensures var t := Exec(cfg, s, es);
            StillToCome(t, c, n) || Holds(t, c, Delivered(HeldAtPush(cfg, s, es, c, n), s.arrivals[n].data, n))
    decreases |es|
  {
    if es != [] {
      var t := Step(cfg, s, es[0]);
      CallSafety.StepKeeps(cfg, s, es[0]);
      if es[0] == Push(n) {
        PushHolds(s, c, n);
        hide Inv, Holds, PushStep;
        RunKeepsHeld(cfg, t, es[1..], c, Delivered(s.calls[c].slot, s.arrivals[n].data, n));
      } else {
        StepKeepsToCome(cfg, s, es[0], c, n);
        StepKeepsArrivals(cfg, s, es[0]);
        hide Inv, Holds, Step, Enabled;
        DeliveredExactly(cfg, t, es[1..], c, n);
      }
    }
  }

  /**
   No lost response: a frame arrives on a waiting call's connection under the call's id. Whatever
   interleaving follows, once the frame has been handled the call, if it still waits, can pop, and what it
   pops is the frame's body under the frame's number, or the item that was in its channel when the frame
   was pushed.
   */
  lemma NoLostResponse(cfg: Config, s: State, es: seq<Event>, c: Cid, n: nat)
    requires Inv(s) && Run(cfg, s, es) && c in s.calls && Awaiting(s.calls[c].pc)
    requires n < |s.arrivals| && s.arrivals[n].gid == s.calls[c].gid && s.arrivals[n].id == s.calls[c].id
    requires s.arrivals[n].stage == Matching
    ensures var t := Exec(cfg, s, es);
            && c in t.calls && n < |t.arrivals|
            && (At(t, c, Waiting) && t.arrivals[n].stage.Settled? ==>
                  && Enabled(cfg, t, Pop(c))
                  && t.calls[c].slot == Some(Delivered(HeldAtPush(cfg, s, es, c, n), s.arrivals[n].data, n)))
  {
    hide Inv, HeldAtPush, Delivered;
    RunKeepsArrival(cfg, s, es, n);
    DeliveredExactly(cfg, s, es, c, n);
  }
}
