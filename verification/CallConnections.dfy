/**
 Connection callbacks and the call multiplexer. When the connect and disconnect callbacks of each
 transport take turns, the dispatcher and `channels_` agree and no wakeup is ever lost. When a
 connect overtakes the second half of a disconnect, a caller can be left waiting for ever.
 */
module CallConnections {
  import opened Prelude
  import opened CallProtocol
  import opened CallInvariant
  import opened CallSafety
  import opened CallTheorems

  // ---- Taking turns ----

  /**
   `OnConnected` is Add then Install, `OnDisconnected` is Del then Detach (and the sweeps); a
   transport is Up or Down between callbacks.
   */
  datatype Phase = Down | Added | Up | Removed

  function PhaseOf(ph: map<Tp, Phase>, tp: Tp): Phase {
    if tp in ph then ph[tp] else Down
  }

  predicate InTurn(ph: map<Tp, Phase>, e: Event) {
    match e
    case Add(tp) => PhaseOf(ph, tp) == Down
    case Install(tp, _) => PhaseOf(ph, tp) == Added
    case Del(tp) => PhaseOf(ph, tp) == Up
    case Detach(tp, _) => PhaseOf(ph, tp) == Removed
    case _ => true
  }

  function NextPhases(ph: map<Tp, Phase>, e: Event): map<Tp, Phase> {
    match e
    case Add(tp) => ph[tp := Added]
    case Install(tp, _) => ph[tp := Up]
    case Del(tp) => ph[tp := Removed]
    case Detach(tp, _) => ph[tp := Down]
    case _ => ph
  }

  /** Each transport's connect and disconnect callbacks alternate; everything else is free. */
  predicate Alternating(ph: map<Tp, Phase>, es: seq<Event>)
    decreases |es|
  {
    es == [] || (InTurn(ph, es[0]) && Alternating(NextPhases(ph, es[0]), es[1..]))
  }

  function PhasesAfter(ph: map<Tp, Phase>, es: seq<Event>): map<Tp, Phase>
    decreases |es|
  {
    if es == [] then ph else PhasesAfter(NextPhases(ph, es[0]), es[1..])
  }

  /** What the step is to the transport: its Add 0, Install 1, Del 2, Detach 3, or nothing. */
  function TurnOf(e: Event, tp: Tp): seq<nat> {
    match e
    case Add(x) => if x == tp then [0] else []
    case Install(x, _) => if x == tp then [1] else []
    case Del(x) => if x == tp then [2] else []
    case Detach(x, _) => if x == tp then [3] else []
    case _ => []
  }

  function TurnsOf(es: seq<Event>, tp: Tp): seq<nat> {
    if es == [] then [] else TurnOf(es[0], tp) + TurnsOf(es[1..], tp)
  }

  /** The transport's steps go round and round: Add, Install, Del, Detach, Add, ... */
  predicate GoRound(turns: seq<nat>, from: nat) {
    forall i :: 0 <= i < |turns| ==> turns[i] == (from + i) % 4
  }

  function Rank(phase: Phase): nat {
    match phase
    case Down => 0
    case Added => 1
    case Up => 2
    case Removed => 3
  }

  lemma GoRoundUnfolds(turn: nat, turns: seq<nat>, from: nat)
    requires from < 4
    ensures GoRound([turn] + turns, from) <==> turn == from && GoRound(turns, (from + 1) % 4)
  {
    var all := [turn] + turns;
    if GoRound(all, from) {
      assert all[0] == (from + 0) % 4;
      forall i | 0 <= i < |turns| ensures turns[i] == ((from + 1) % 4 + i) % 4 {
        assert turns[i] == all[i + 1];
      }
    }
    if turn == from && GoRound(turns, (from + 1) % 4) {
      forall i | 0 <= i < |all| ensures all[i] == (from + i) % 4 {
        assert i > 0 ==> all[i] == turns[i - 1];
      }
    }
  }

  lemma StepGoesRound(ph: map<Tp, Phase>, e: Event, tp: Tp)
    ensures TurnOf(e, tp) == [] ==> PhaseOf(NextPhases(ph, e), tp) == PhaseOf(ph, tp)
    ensures TurnOf(e, tp) != [] && InTurn(ph, e) ==>
              TurnOf(e, tp) == [Rank(PhaseOf(ph, tp))]
              && Rank(PhaseOf(NextPhases(ph, e), tp)) == (Rank(PhaseOf(ph, tp)) + 1) % 4
    ensures TurnOf(e, tp) != [] && !InTurn(ph, e) ==> TurnOf(e, tp)[0] != Rank(PhaseOf(ph, tp))
  {
  }

  /** Callbacks take turns if and only if each transport's steps go round. */
  lemma {:induction false} AlternatingExactly(ph: map<Tp, Phase>, es: seq<Event>)
    ensures Alternating(ph, es) <==> forall tp :: GoRound(TurnsOf(es, tp), Rank(PhaseOf(ph, tp)))
    decreases |es|
  {
    if es != [] {
      var e := es[0];
      AlternatingExactly(NextPhases(ph, e), es[1..]);
      hide GoRound, PhaseOf, NextPhases, InTurn, TurnOf, Rank;
      forall tp
        ensures InTurn(ph, e) ==>
                  (GoRound(TurnsOf(es, tp), Rank(PhaseOf(ph, tp))) <==>
                   GoRound(TurnsOf(es[1..], tp), Rank(PhaseOf(NextPhases(ph, e), tp))))
        ensures !InTurn(ph, e) && TurnOf(e, tp) != [] ==> !GoRound(TurnsOf(es, tp), Rank(PhaseOf(ph, tp)))
      {
        TurnsUnfold(ph, e, es[1..], tp);
        assert es == [e] + es[1..];
      }
      if !InTurn(ph, e) {
        var tp := OwnTransport(ph, e);
        assert !GoRound(TurnsOf(es, tp), Rank(PhaseOf(ph, tp)));
      }
    }
  }

  lemma OwnTransport(ph: map<Tp, Phase>, e: Event) returns (tp: Tp)
    requires !InTurn(ph, e)
    ensures TurnOf(e, tp) != []
  {
    tp := e.tp;
  }

  lemma TurnsUnfold(ph: map<Tp, Phase>, e: Event, es: seq<Event>, tp: Tp)
    ensures var rank := Rank(PhaseOf(ph, tp));
            && (InTurn(ph, e) ==>
                  (GoRound(TurnsOf([e] + es, tp), rank) <==>
                   GoRound(TurnsOf(es, tp), Rank(PhaseOf(NextPhases(ph, e), tp)))))
            && (!InTurn(ph, e) && TurnOf(e, tp) != [] ==> !GoRound(TurnsOf([e] + es, tp), rank))
  {
    StepGoesRound(ph, e, tp);
    assert ([e] + es)[1..] == es;
    var turn, rank := TurnOf(e, tp), Rank(PhaseOf(ph, tp));
    OneTurn(e, tp);
    RankBelow(PhaseOf(ph, tp));
    hide GoRound, PhaseOf, NextPhases, InTurn, TurnOf, Rank;
    if turn != [] {
      GoRoundUnfolds(turn[0], TurnsOf(es, tp), rank);
    } else {
      assert [] + TurnsOf(es, tp) == TurnsOf(es, tp);
    }
  }

  lemma OneTurn(e: Event, tp: Tp)
    ensures TurnOf(e, tp) != [] ==> TurnOf(e, tp) == [TurnOf(e, tp)[0]]
  {
  }

  lemma RankBelow(phase: Phase)
    ensures Rank(phase) < 4
  {
  }

  /** The dispatcher's list and `channels_` say what the phases say, and no group was replaced. */
  ghost predicate Agree(s: State, ph: map<Tp, Phase>) {
    && (forall tp :: multiset(s.tps)[tp] == if PhaseOf(ph, tp) in {Added, Up} then 1 else 0)
    && (forall tp :: tp in s.channels <==> PhaseOf(ph, tp) in {Up, Removed})
    && (forall g :: g in s.groups ==> s.groups[g].status != Replaced)
  }

  lemma {:induction false} WithoutRemovesOne(tps: seq<Tp>, tp: Tp)
    ensures multiset(Without(tps, tp)) == multiset(tps) - multiset{tp}
  {
    if tps != [] {
      assert tps == [tps[0]] + tps[1..];
      if tps[0] != tp {
        WithoutRemovesOne(tps[1..], tp);
      }
    }
  }

  lemma OtherStepsLeaveConnections(cfg: Config, s: State, e: Event)
    requires Enabled(cfg, s, e) && !(e.Add? || e.Install? || e.Del? || e.Detach? || e.CloseShard?)
    ensures var t := Step(cfg, s, e);
            && t.tps == s.tps && t.channels == s.channels && t.groups.Keys == s.groups.Keys
            && forall g :: g in s.groups ==> t.groups[g].status == s.groups[g].status
  {
    if MovesCaller(e) {
      CallerMoved(cfg, s, e);
      hide Step;
    }
  }

  lemma AddKeepsAgreement(s: State, ph: map<Tp, Phase>, tp: Tp)
    requires Agree(s, ph) && PhaseOf(ph, tp) == Down
    ensures Agree(s.(tps := s.tps + [tp]), ph[tp := Added])
  {
    assert multiset(s.tps + [tp]) == multiset(s.tps) + multiset{tp};
  }

  lemma DelKeepsAgreement(s: State, ph: map<Tp, Phase>, tp: Tp)
    requires Agree(s, ph) && PhaseOf(ph, tp) == Up
    ensures Agree(s.(tps := Without(s.tps, tp)), ph[tp := Removed])
  {
    WithoutRemovesOne(s.tps, tp);
    hide Without;
    var t, ph' := s.(tps := Without(s.tps, tp)), ph[tp := Removed];
    forall x ensures multiset(t.tps)[x] == if PhaseOf(ph', x) in {Added, Up} then 1 else 0 {
      assert multiset(s.tps)[x] == if PhaseOf(ph, x) in {Added, Up} then 1 else 0;
    }
  }

  lemma InstallKeepsAgreement(s: State, ph: map<Tp, Phase>, tp: Tp, g: Gid)
    requires Agree(s, ph) && g !in s.groups && PhaseOf(ph, tp) == Added
    ensures Agree(InstallStep(s, tp, g), ph[tp := Up])
  {
    assert tp !in s.channels;
  }

  lemma DetachKeepsAgreement(s: State, ph: map<Tp, Phase>, tp: Tp, ec: nat)
    requires Agree(s, ph) && PhaseOf(ph, tp) == Removed
    ensures Agree(DetachStep(s, tp, ec), ph[tp := Down])
  {
  }

  lemma StepKeepsAgreement(cfg: Config, s: State, ph: map<Tp, Phase>, e: Event)
    requires Agree(s, ph) && Enabled(cfg, s, e) && InTurn(ph, e)
    ensures Agree(Step(cfg, s, e), NextPhases(ph, e))
  {
    hide Agree, StartStep, PickStep, TakeIdStep, LookupStep, RegisterStep, SendStep, SendDoneStep, PopStep, EraseStep,
         InstallStep, Without, DetachStep, CloseShardStep, ArriveStep, MatchStep, PushStep;
    match e
    case Add(tp) => AddKeepsAgreement(s, ph, tp);
    case Del(tp) => DelKeepsAgreement(s, ph, tp);
    case Install(tp, g) => InstallKeepsAgreement(s, ph, tp, g);
    case Detach(tp, ec) => DetachKeepsAgreement(s, ph, tp, ec);
    case CloseShard(g) => SweepKeepsAgreement(s, ph, g);
    case _ => OthersKeepAgreement(cfg, s, ph, e);
  }

  lemma SweepKeepsAgreement(s: State, ph: map<Tp, Phase>, g: Gid)
    requires Agree(s, ph) && g in s.groups && s.groups[g].status.Closing?
    ensures Agree(CloseShardStep(s, g), ph)
  {
  }

  lemma OthersKeepAgreement(cfg: Config, s: State, ph: map<Tp, Phase>, e: Event)
    requires Agree(s, ph) && Enabled(cfg, s, e)
    requires !(e.Add? || e.Install? || e.Del? || e.Detach? || e.CloseShard?)
    ensures Agree(Step(cfg, s, e), NextPhases(ph, e))
  {
    OtherStepsLeaveConnections(cfg, s, e);
    hide Step, Enabled;
  }

  lemma {:induction false} RunKeepsAgreement(cfg: Config, s: State, ph: map<Tp, Phase>, es: seq<Event>)
    requires Agree(s, ph) && Run(cfg, s, es) && Alternating(ph, es)
    ensures Agree(Exec(cfg, s, es), PhasesAfter(ph, es))
    decreases |es|
  {
    if es != [] {
      StepKeepsAgreement(cfg, s, ph, es[0]);
      RunKeepsAgreement(cfg, Step(cfg, s, es[0]), NextPhases(ph, es[0]), es[1..]);
    }
  }

  /**
   Membership agreement: between callbacks a transport is in the dispatcher, once, if and only if
   it has a group in `channels_`.
   */
  lemma MembershipAgreement(cfg: Config, es: seq<Event>, tp: Tp)
    requires Run(cfg, INIT, es) && Alternating(map[], es)
    requires PhaseOf(PhasesAfter(map[], es), tp) in {Down, Up}
    ensures var s := Exec(cfg, INIT, es);
            && (tp in s.tps <==> tp in s.channels)
            && multiset(s.tps)[tp] <= 1
  {
    RunKeepsAgreement(cfg, INIT, map[], es);
  }

  /**
   With callbacks taking turns no caller can block for ever: when nothing in flight can end a wait
   and no sweep of its group is under way, the group is the live group of its transport.
   */
  lemma AlternatingLosesNoWakeup(cfg: Config, es: seq<Event>, c: Cid)
    requires Run(cfg, INIT, es) && Alternating(map[], es)
    requires var s := Exec(cfg, INIT, es);
             && At(s, c, Waiting) && s.calls[c].slot.None?
             && s.calls[c].gid in s.groups
             && !(s.groups[s.calls[c].gid].status.Closing? && s.groups[s.calls[c].gid].status.next < GROUPS)
    ensures var s := Exec(cfg, INIT, es);
            s.calls[c].gid in s.channels.Values
  {
    var s := Exec(cfg, INIT, es);
    var g := s.calls[c].gid;
    RunKeepsAgreement(cfg, INIT, map[], es);
    NoLostWakeup(cfg, s, c);
    ReachableInv(cfg, s);
    assert s.channels[s.groups[g].tp] == g;
  }

  // ---- A connect that overtakes a disconnect ----

  /** Installing a group over a live one strands every caller waiting on the old one. */
  lemma InstallOverStrands(s: State, tp: Tp, g: Gid, c: Cid)
    requires Inv(s) && g !in s.groups && tp in s.channels
    requires At(s, c, Waiting) && s.calls[c].slot.None? && s.calls[c].send.Reported?
    requires s.calls[c].gid == s.channels[tp]
    requires NoneUnderWay(s, s.calls[c].gid, s.calls[c].id)
    ensures Stranded(InstallStep(s, tp, g), c)
  {
    InstallFrame(s, tp, g);
  }

  /**
   A caller waits on a connection that drops; before `OnDisconnected` reaches `channels_`, the
   reconnect's `OnConnected` runs; the disconnect then detaches and sweeps the new group.
   */
  const OVERLAP: seq<Event> :=
    [Add(0), Install(0, 1), Start(7), Pick(7, 0, true), TakeId(7, false), Lookup(7), Register(7),
     Send(7), SendDone(7, 0), Count(7), Del(0), Add(0), Install(0, 2), Detach(0, 5)]

  lemma Extend(cfg: Config, es: seq<Event>, k: nat, s: State, t: State)
    requires k < |es| && Run(cfg, INIT, es[..k]) && Exec(cfg, INIT, es[..k]) == s
    requires Enabled(cfg, s, es[k]) && Step(cfg, s, es[k]) == t
    ensures Run(cfg, INIT, es[..k + 1]) && Exec(cfg, INIT, es[..k + 1]) == t
  {
    assert es[..k + 1] == es[..k] + [es[k]];
    assert Run(cfg, s, [es[k]]);
    RunSplit(cfg, INIT, es[..k], [es[k]]);
  }

  /** The overlap is a run, and it leaves the caller stranded although its transport was detached. */
  lemma OverlapStrands(cfg: Config)
    ensures Run(cfg, INIT, OVERLAP)
    ensures Stranded(Exec(cfg, INIT, OVERLAP), 7)
    ensures Exec(cfg, INIT, OVERLAP).channels == map[]
  {
    OverlapPrefix(cfg, 14);
    assert OVERLAP[..14] == OVERLAP;
    OverlapEnd();
  }

  lemma OverlapEnd()
    ensures Stranded(After(14), 7) && After(14).channels == map[]
  {
  }

  lemma {:induction false} OverlapPrefix(cfg: Config, k: nat)
    requires k <= 14
    ensures Run(cfg, INIT, OVERLAP[..k]) && Exec(cfg, INIT, OVERLAP[..k]) == After(k)
  {
    if k == 0 {
      assert OVERLAP[..0] == [];
    } else {
      OverlapPrefix(cfg, k - 1);
      OverlapStep(cfg, k - 1);
      Extend(cfg, OVERLAP, k - 1, After(k - 1), After(k));
    }
  }

  lemma OverlapStep(cfg: Config, k: nat)
    requires k < 14
    ensures Enabled(cfg, After(k), OVERLAP[k]) && Step(cfg, After(k), OVERLAP[k]) == After(k + 1)
  {
    if k < 3 { ConnectStep(cfg, k); } else if k < 6 { TakeStep(cfg, k); }
    else if k < 10 { WaitStep(cfg, k); } else { DropStep(cfg, k); }
  }

  lemma ConnectStep(cfg: Config, k: nat)
    requires k < 3
    ensures Enabled(cfg, After(k), OVERLAP[k]) && Step(cfg, After(k), OVERLAP[k]) == After(k + 1)
  {
  }

  lemma TakeStep(cfg: Config, k: nat)
    requires 3 <= k < 6
    ensures Enabled(cfg, After(k), OVERLAP[k]) && Step(cfg, After(k), OVERLAP[k]) == After(k + 1)
  {
  }

  lemma WaitStep(cfg: Config, k: nat)
    requires 6 <= k < 10
    ensures Enabled(cfg, After(k), OVERLAP[k]) && Step(cfg, After(k), OVERLAP[k]) == After(k + 1)
  {
  }

  lemma DropStep(cfg: Config, k: nat)
    requires 10 <= k < 14
    ensures Enabled(cfg, After(k), OVERLAP[k]) && Step(cfg, After(k), OVERLAP[k]) == After(k + 1)
  {
  }

  /** The state after the first `k` events of the overlap. */
  function After(k: nat): State
    requires k <= 14
  {
    if k == 0 then INIT
    else if k == 1 then INIT.(tps := [0])
    else if k <= 10 then CallAfter(k)
    else DropAfter(k)
  }

  /** The state after the first connect. */
  function Connected(): State {
    INIT.(tps := [0], channels := map[0 := 1], groups := map[1 := EmptyGroup(0)])
  }

  /** The state after the first `k` events, while the call is made. */
  function CallAfter(k: nat): State
    requires 2 <= k <= 10
  {
    var call := Call(Picking, 0, 0, 0, None, Unsent, None);
    var s := Connected();
    var grp := EmptyGroup(0).(maps := EmptyGroup(0).maps[1 := map[1 := 7]]);
    if k == 2 then s
    else if k == 3 then s.(calls := map[7 := call])
    else if k == 4 then s.(calls := map[7 := call.(pc := Identifying)])
    else if k == 5 then s.(calls := map[7 := call.(pc := LookingUp, id := 1)], msgId := 1)
    else if k == 6 then s.(calls := map[7 := call.(pc := Registering, id := 1, gid := 1)], msgId := 1)
    else
      var t := s.(groups := map[1 := grp], msgId := 1);
      var call' := call.(id := 1, gid := 1);
      if k == 7 then t.(calls := map[7 := call'.(pc := Sending)])
      else if k == 8 then t.(calls := map[7 := call'.(pc := Counting, send := Outstanding)])
      else if k == 9 then t.(calls := map[7 := call'.(pc := Counting, send := Reported(0))])
      else t.(calls := map[7 := call'.(pc := Waiting, send := Reported(0))], wnd := 1)
  }

  /** The state after the first `k` events, while the connection drops and comes back. */
  function DropAfter(k: nat): State
    requires 10 <= k <= 14
  {
    var s := CallAfter(10);
    if k == 10 then s
    else if k == 11 then s.(tps := [])
    else if k == 12 then s
    else if k == 13 then
      s.(channels := map[0 := 2],
         groups := map[1 := s.groups[1].(status := Replaced), 2 := EmptyGroup(0)])
    else
      s.(channels := map[],
         groups := map[1 := s.groups[1].(status := Replaced), 2 := EmptyGroup(0).(status := Closing(0, 5))])
  }
}
