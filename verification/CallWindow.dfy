/**
 When the window closes for good. Timed-out calls and stranded callers keep their place in it for ever,
 everybody else can be made to leave: later calls can be admitted exactly as long as those two kinds do
 not outnumber the window.
 */
module CallWindow {
  import opened CallProtocol
  import opened CallInvariant
  import opened CallSafety
  import opened CallTheorems
  import opened CallBlocking
  import CallConnections
  import CallDelivery
  import Client

  ghost function StrandedCalls(s: State): set<Cid> {
    set c | c in s.calls && Stranded(s, c)
  }

  /** The calls that never leave the window: timed out, or waiting with nothing to wake them. */
  ghost function StuckCalls(s: State): set<Cid> {
    TimedOutCalls(s) + StrandedCalls(s)
  }

  /** Some continuation ends in a state where a new call gets past the test of the window. */
  ghost predicate Admits(cfg: Config, s: State) {
    exists es, c :: AdmitsAfter(cfg, s, es, c)
  }

  ghost predicate AdmitsAfter(cfg: Config, s: State, es: seq<Event>, c: Cid) {
    && Run(cfg, s, es) && Enabled(cfg, Exec(cfg, s, es), Start(c))
    && !At(Step(cfg, Exec(cfg, s, es), Start(c)), c, Returned(WindowFull))
  }

  // ---- Stuck calls stay in the window ----

  lemma StuckAreCounted(s: State)
    ensures StuckCalls(s) <= CountedCalls(s)
  {
  }

  /** A timed-out call stays so, and a stranded call stays stranded or times out. */
  lemma StuckStay(cfg: Config, s: State, e: Event)
    requires Inv(s) && Enabled(cfg, s, e)
    ensures StuckCalls(s) <= StuckCalls(Step(cfg, s, e))
  {
    hide Inv, Step, Enabled, NoneUnderWay;
    TimeoutsOnlyGrow(cfg, s, e);
    forall c | c in StrandedCalls(s) ensures c in StuckCalls(Step(cfg, s, e)) {
      if e == Timeout(c) {
        TimeoutTimesOut(cfg, s, c);
      } else {
        StrandedStays(cfg, s, e, c);
        assert c in StrandedCalls(Step(cfg, s, e));
      }
    }
  }

  lemma TimeoutTimesOut(cfg: Config, s: State, c: Cid)
    requires Enabled(cfg, s, Timeout(c))
    ensures c in TimedOutCalls(Step(cfg, s, Timeout(c)))
  {
  }

  lemma {:induction false} StuckForEver(cfg: Config, s: State, es: seq<Event>)
    requires Inv(s) && Run(cfg, s, es)
    ensures StuckCalls(s) <= StuckCalls(Exec(cfg, s, es))
    decreases |es|
  {
    if es != [] {
      StuckStay(cfg, s, es[0]);
      StepKeeps(cfg, s, es[0]);
      hide Inv, Step, Enabled, StuckCalls;
      StuckForEver(cfg, Step(cfg, s, es[0]), es[1..]);
    }
  }

  lemma StuckRefuse(cfg: Config, s: State, es: seq<Event>, c: Cid)
    requires Inv(s) && s.wnd == |CountedCalls(s)| && |StuckCalls(s)| > cfg.window
    ensures !AdmitsAfter(cfg, s, es, c)
  {
    if !Run(cfg, s, es) {
      return;
    }
    var t := Exec(cfg, s, es);
    StuckForEver(cfg, s, es);
    RunKeepsWindow(cfg, s, es);
    StuckAreCounted(t);
    SubsetSize(StuckCalls(s), CountedCalls(t));
  }

  // ---- A calm run adds no stuck call ----

  lemma OwnStepStrands(cfg: Config, s: State, e: Event, c: Cid)
    requires Enabled(cfg, s, e) && ActsOn(e, c)
    requires At(Step(cfg, s, e), c, Waiting) && Step(cfg, s, e).calls[c].slot.None?
    ensures c in s.calls && (e == Count(c) || e == SendDone(c, 0))
  {
  }

  /** A frame on its way to a waiting call stays on its way or fills the call's channel. */
  lemma FrameUnderWayStays(cfg: Config, s: State, e: Event, c: Cid)
    requires Inv(s) && Enabled(cfg, s, e) && At(s, c, Waiting) && !NoneUnderWay(s, s.calls[c].gid, s.calls[c].id)
    requires At(Step(cfg, s, e), c, Waiting) && Step(cfg, s, e).calls[c].slot.None?
    ensures !NoneUnderWay(Step(cfg, s, e), s.calls[c].gid, s.calls[c].id)
  {
    hide Inv, Step, Enabled;
    var n :| 0 <= n < |s.arrivals| && s.arrivals[n].gid == s.calls[c].gid && s.arrivals[n].id == s.calls[c].id
             && !s.arrivals[n].stage.Settled?;
    if s.arrivals[n].stage.Pushing? {
      PushesToOwner(s, c, n);
    }
    CallDelivery.StepKeepsOnItsWay(cfg, s, e, c, n);
    CallDelivery.StepKeepsArrivals(cfg, s, e);
  }

  /**
   A call is stranded by its own last step before the wait, by the report of its successful send, or by a
   connect made over its connection; by nothing else.
   */
  lemma StrandsOnlyBy(cfg: Config, s: State, e: Event, c: Cid)
    requires Inv(s) && Enabled(cfg, s, e) && Stranded(Step(cfg, s, e), c)
    ensures c in s.calls
    ensures Stranded(s, c) || e == Count(c) || e == SendDone(c, 0) || InstallsOver(s, e, s.calls[c].gid)
  {
    hide Inv, Step, Enabled, NoneUnderWay, InstallsOver;
    if ActsOn(e, c) {
      OwnStepStrands(cfg, s, e, c);
    } else {
      CallsPersist(cfg, s, e);
      OthersOnlyFillSlot(cfg, s, e, c);
      StepReplacesExactly(cfg, s, e, s.calls[c].gid);
      if IsReplaced(s, s.calls[c].gid) && !NoneUnderWay(s, s.calls[c].gid, s.calls[c].id) {
        FrameUnderWayStays(cfg, s, e, c);
      }
    }
  }

  lemma CalmAddsNone(cfg: Config, s: State, e: Event)
    requires Inv(s) && Enabled(cfg, s, e) && Calm(e)
    ensures StuckCalls(Step(cfg, s, e)) <= StuckCalls(s) && CountedCalls(Step(cfg, s, e)) <= CountedCalls(s)
  {
    var t := Step(cfg, s, e);
    CountedCallsMove(cfg, s, e);
    hide Inv, Step, Enabled, Stranded, Counted;
    forall c | c in StrandedCalls(t) ensures c in StrandedCalls(s) {
      StrandsOnlyBy(cfg, s, e, c);
    }
    forall c | c in TimedOutCalls(t) ensures c in TimedOutCalls(s) {
      TimesOutOnlyBy(cfg, s, e, c);
    }
  }

  lemma TimesOutOnlyBy(cfg: Config, s: State, e: Event, c: Cid)
    requires Enabled(cfg, s, e) && At(Step(cfg, s, e), c, Returned(TimedOut))
    ensures At(s, c, Returned(TimedOut)) || e == Timeout(c)
  {
    if !ActsOn(e, c) {
      CallsPersist(cfg, s, e);
      OthersOnlyFillSlot(cfg, s, e, c);
      hide Step, Enabled;
    }
  }

  lemma {:induction false} CalmRunAddsNone(cfg: Config, s: State, es: seq<Event>)
    requires Inv(s) && Run(cfg, s, es) && forall e :: e in es ==> Calm(e)
    ensures StuckCalls(Exec(cfg, s, es)) <= StuckCalls(s) && CountedCalls(Exec(cfg, s, es)) <= CountedCalls(s)
    decreases |es|
  {
    if es != [] {
      CalmAddsNone(cfg, s, es[0]);
      StepKeeps(cfg, s, es[0]);
      hide Inv, Step, Enabled, StuckCalls, CountedCalls;
      CalmRunAddsNone(cfg, Step(cfg, s, es[0]), es[1..]);
    }
  }

  // ---- Everybody else can be made to leave ----

  /** A calm run after which the call has left the window. */
  ghost predicate Leaves(cfg: Config, s: State, es: seq<Event>, c: Cid) {
    && Run(cfg, s, es) && (forall e :: e in es ==> Calm(e))
    && c !in CountedCalls(Exec(cfg, s, es))
  }

  lemma UncountLeaves(cfg: Config, s: State, c: Cid)
    requires At(s, c, Uncounting)
    ensures Leaves(cfg, s, [Uncount(c)], c)
  {
    CountedCallsMove(cfg, s, Uncount(c));
    Client.RunOne(cfg, s, Uncount(c));
    hide CountedCalls, Run, Exec, Step;
  }

  lemma PopLeaves(cfg: Config, s: State, c: Cid)
    requires Enabled(cfg, s, Pop(c))
    ensures Leaves(cfg, s, [Pop(c)] + [Uncount(c)], c)
  {
    hide CountedCalls, Run, Exec;
    UncountLeaves(cfg, PopStep(s, c), c);
    Client.RunCons(cfg, s, Pop(c), [Uncount(c)]);
  }

  lemma UnstuckCanLeave(cfg: Config, s: State, c: Cid) returns (es: seq<Event>)
    requires Inv(s) && c in CountedCalls(s) && c !in StuckCalls(s)
    ensures Leaves(cfg, s, es, c)
  {
    if s.calls[c].pc == Waiting {
      var woken := UnstrandedCanWake(cfg, s, c);
      hide Inv, Run, Exec, Step, Enabled, StuckCalls, CountedCalls, Calm;
      var t := Exec(cfg, s, woken);
      var left := [Pop(c)] + [Uncount(c)];
      PopLeaves(cfg, t, c);
      RunSplit(cfg, s, woken, left);
      es := woken + left;
    } else {
      UncountLeaves(cfg, s, c);
      es := [Uncount(c)];
    }
  }

  /** When the window counts more than the stuck calls, some run makes one of the others leave. */
  lemma OneLeaves(cfg: Config, s: State) returns (es: seq<Event>)
    requires Inv(s) && s.wnd == |CountedCalls(s)| > |StuckCalls(s)|
    ensures Run(cfg, s, es)
    ensures var t := Exec(cfg, s, es);
            && Inv(t) && t.wnd == |CountedCalls(t)| < |CountedCalls(s)| && |StuckCalls(t)| <= |StuckCalls(s)|
  {
    hide Inv, CountedCalls, StuckCalls, Run, Exec;
    if CountedCalls(s) <= StuckCalls(s) {
      SubsetSize(CountedCalls(s), StuckCalls(s));
      assert false;
    }
    var c :| c in CountedCalls(s) && c !in StuckCalls(s);
    es := UnstuckCanLeave(cfg, s, c);
    var t := Exec(cfg, s, es);
    CalmRunAddsNone(cfg, s, es);
    RunKeeps(cfg, s, es);
    RunKeepsWindow(cfg, s, es);
    SubsetSize(CountedCalls(t) + {c}, CountedCalls(s));
    SubsetSize(StuckCalls(t), StuckCalls(s));
  }

  /** As long as the stuck calls fit the window, some run makes room for one more call. */
  lemma {:induction false} RoomCanBeMade(cfg: Config, s: State) returns (es: seq<Event>)
    requires Inv(s) && s.wnd == |CountedCalls(s)| && |StuckCalls(s)| <= cfg.window
    ensures Run(cfg, s, es) && Exec(cfg, s, es).wnd <= cfg.window
    decreases |CountedCalls(s)|
  {
    if s.wnd <= cfg.window {
      es := [];
    } else {
      hide Inv, CountedCalls, StuckCalls, Run, Exec;
      var left := OneLeaves(cfg, s);
      var rest := RoomCanBeMade(cfg, Exec(cfg, s, left));
      RunSplit(cfg, s, left, rest);
      es := left + rest;
    }
  }

  lemma {:induction false} FreshCall(used: set<Cid>) returns (c: Cid)
    ensures forall x :: x in used ==> x < c
  {
    if used == {} {
      c := 0;
    } else {
      var x :| x in used;
      c := FreshCall(used - {x});
      assert used == (used - {x}) + {x};
      c := if x < c then c else x + 1;
    }
  }

  /**
   From any state reached: no call is admitted on any continuation if and only if the timed-out and the
   stranded calls outnumber the window. Whether callers time out or not makes no difference.
   */
  lemma WindowClosedExactly(cfg: Config, s: State)
    requires Reachable(cfg, s)
    ensures !Admits(cfg, s) <==> |StuckCalls(s)| > cfg.window
  {
    ReachableInv(cfg, s);
    WindowConserved(cfg, s);
    hide Run, Exec, Step, Enabled, Inv, StuckCalls, CountedCalls;
    if |StuckCalls(s)| > cfg.window {
      forall es, c ensures !AdmitsAfter(cfg, s, es, c) {
        StuckRefuse(cfg, s, es, c);
      }
    } else {
      var es := RoomCanBeMade(cfg, s);
      var c := FreshCall(Exec(cfg, s, es).calls.Keys);
      StartAdmitted(cfg, Exec(cfg, s, es), c);
      assert AdmitsAfter(cfg, s, es, c);
    }
  }

  lemma StartAdmitted(cfg: Config, s: State, c: Cid)
    requires s.wnd <= cfg.window && c !in s.calls
    ensures Enabled(cfg, s, Start(c)) && !At(Step(cfg, s, Start(c)), c, Returned(WindowFull))
  {
  }

  /** Without timeouts and with callbacks taking turns the window never closes for good. */
  lemma AlternatingKeepsAdmitting(cfg: Config, es: seq<Event>)
    requires Run(cfg, INIT, es) && CallConnections.Alternating(map[], es) && !cfg.timeouts
    ensures Admits(cfg, Exec(cfg, INIT, es))
  {
    var s := Exec(cfg, INIT, es);
    CallConnections.RunKeepsAgreement(cfg, INIT, map[], es);
    NoTimeoutsRun(cfg, INIT, es);
    assert Reachable(cfg, s);
    hide Run, Exec, Reachable, Admits, TimedOutCalls, CallConnections.Alternating;
    assert StuckCalls(s) == {};
    WindowClosedExactly(cfg, s);
  }
}
