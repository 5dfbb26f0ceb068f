/**
 The dispatchers that choose a transport for a call: round robin over the connected transports, or
 consistent hashing over their keys.
 */
module Dispatcher {
  import opened Prelude
  import Decimal
  import opened ConHash
  import P = CallProtocol
  import C = CallConnections

  type Tp = P.Tp

  // ---- Round robin ----

  /** `robin_idx_` after one more `Get` on a list of `n`, in `size_t` arithmetic. */
  function Turn(idx: u64, n: nat): (i: u64)
    requires n > 0
    ensures i < n
  {
    (idx as int + 1) % TWO_64 % n
  }

  /** The positions that `k` consecutive `Get`s use. */
  function Turns(idx: u64, n: nat, k: nat): (positions: seq<nat>)
    requires n > 0
    ensures |positions| == k
    decreases k
  {
    if k == 0 then [] else [Turn(idx, n)] + Turns(Turn(idx, n), n, k - 1)
  }

  /** The index after them. */
  function IndexAfter(idx: u64, n: nat, k: nat): u64
    requires n > 0
    decreases k
  {
    if k == 0 then idx else IndexAfter(Turn(idx, n), n, k - 1)
  }

  /** a, a + 1, ..., b - 1 */
  function Range(a: nat, b: nat): (r: seq<nat>)
    requires a <= b
    ensures |r| == b - a
    decreases b - a
  {
    if a == b then [] else [a] + Range(a + 1, b)
  }

  lemma {:induction false} RangeCounts(a: nat, b: nat, p: nat)
    requires a <= b
    ensures multiset(Range(a, b))[p] == if a <= p < b then 1 else 0
    decreases b - a
  {
    if a < b {
      RangeCounts(a + 1, b, p);
    }
  }

  lemma QuotientIs(a: nat, n: nat, q: nat, r: nat)
    requires r < n && a == q * n + r
    ensures a / n == q && a % n == r
  {
    var q', r' := a / n, a % n;
    assert a == q' * n + r';
    if q < q' {
      assert (q' - q) * n >= n by {
        Times(q' - q, n);
      }
    } else if q' < q {
      assert (q - q') * n >= n by {
        Times(q - q', n);
      }
    }
  }

  lemma Times(a: nat, n: nat)
    requires a > 0
    ensures a * n >= n
  {
    assert a * n == n + (a - 1) * n;
  }

  lemma TurnCases(idx: u64, n: nat)
    requires idx < n <= TWO_64
    ensures Turn(idx, n) == if idx + 1 < n then idx + 1 else 0
  {
    var next := (idx as int + 1) % TWO_64;
    assert next == if idx + 1 == TWO_64 then 0 else idx + 1;
    if idx + 1 < n {
      QuotientIs(next, n, 0, next);
    } else if n == TWO_64 {
      QuotientIs(0, n, 0, 0);
    } else {
      QuotientIs(n, n, 1, 0);
    }
  }

  lemma RemainderExactly(a: nat, n: nat, r: nat)
    requires n > 0
    ensures r == a % n <==> r < n && exists rounds: nat :: rounds * n + r == a
  {
    if r == a % n {
      assert (a / n) * n + r == a;
    }
    if rounds: nat :| r < n && rounds * n + r == a {
      QuotientIs(a, n, rounds, r);
    }
  }

  /**
   `robin_idx_` goes up by one and wraps at the end of the list; an index that deletions have left behind
   the end is taken modulo the length, as `size_t` arithmetic has it.
   */
  lemma TurnExactly(idx: u64, n: nat, next: u64)
    requires n > 0
    ensures next == Turn(idx, n) <==>
            next < n && exists rounds: nat :: rounds * n + next == if idx == 0xffff_ffff_ffff_ffff then 0 else idx + 1
  {
    var up := (idx as int + 1) % TWO_64;
    assert up == if idx == 0xffff_ffff_ffff_ffff then 0 else idx + 1;
    assert Turn(idx, n) == up % n;
    hide Turn;
    RemainderExactly(up, n, next);
  }

  /** From an index in range the next positions run up to the end of the list. */
  lemma {:induction false} Climb(idx: u64, n: nat, k: nat)
    requires 0 < n <= TWO_64 && idx + k < n
    ensures Turns(idx, n, k) == Range(idx + 1, idx + 1 + k) && IndexAfter(idx, n, k) == idx + k
    decreases k
  {
    if k > 0 {
      TurnCases(idx, n);
      hide Turn;
      Climb(idx + 1, n, k - 1);
    }
  }

  lemma {:induction false} TurnsSplit(idx: u64, n: nat, a: nat, b: nat)
    requires n > 0
    ensures Turns(idx, n, a + b) == Turns(idx, n, a) + Turns(IndexAfter(idx, n, a), n, b)
    ensures IndexAfter(idx, n, a + b) == IndexAfter(IndexAfter(idx, n, a), n, b)
    decreases a
  {
    if a > 0 {
      TurnsSplit(Turn(idx, n), n, a - 1, b);
    }
  }

  /** A round of `n` Gets from any index at all: up to the end, then the rest from the front. */
  lemma RoundIsRotation(idx: u64, n: nat)
    requires 0 < n <= TWO_64
    ensures var first := Turn(idx, n);
            Turns(idx, n, n) == Range(first, n) + Range(0, first)
  {
    hide Turn, Turns, Range, IndexAfter;
    var first := Turn(idx, n);
    TurnsSplit(idx, n, n - first, first);
    ClimbToEnd(idx, n);
    ClimbFromFront(n, first);
  }

  lemma ClimbToEnd(idx: u64, n: nat)
    requires 0 < n <= TWO_64
    ensures var first := Turn(idx, n);
            Turns(idx, n, n - first) == Range(first, n) && IndexAfter(idx, n, n - first) == n - 1
  {
    hide Turn;
    var first := Turn(idx, n);
    Climb(first, n, n - first - 1);
  }

  lemma ClimbFromFront(n: nat, k: nat)
    requires 0 < n <= TWO_64 && k < n
    ensures Turns(n - 1, n, k) == Range(0, k)
  {
    if k > 0 {
      TurnCases(n - 1, n);
      hide Turn;
      Climb(0, n, k - 1);
    }
  }

  /** Within less than a round no position comes twice. */
  lemma PartOfRound(idx: u64, n: nat, k: nat, p: nat)
    requires 0 < n <= TWO_64 && k <= n && p < n
    ensures multiset(Turns(idx, n, k))[p] <= 1
    ensures k == n ==> multiset(Turns(idx, n, k))[p] == 1
  {
    hide Turn, Turns, IndexAfter, Range;
    var first := Turn(idx, n);
    TurnsSplit(idx, n, k, n - k);
    RoundIsRotation(idx, n);
    RangeCounts(first, n, p);
    RangeCounts(0, first, p);
    assert multiset(Turns(idx, n, n)) == multiset(Range(first, n)) + multiset(Range(0, first));
    assert multiset(Turns(idx, n, n))[p] == 1;
    assert multiset(Turns(idx, n, n)) ==
           multiset(Turns(idx, n, k)) + multiset(Turns(IndexAfter(idx, n, k), n, n - k));
    assert multiset(Turns(idx, n, k))[p] <= 1;
    if k == n {
      assert Turns(idx, n, k) == Turns(idx, n, n);
    }
  }

  /**
   Fairness: from any index, whatever adds and deletes left it, any `k` consecutive `Get`s on an
   unchanged list use each position at least floor(k / n) and at most ceil(k / n) times.
   */
  lemma {:induction false} Fairness(idx: u64, n: nat, k: nat, p: nat)
    requires 0 < n <= TWO_64 && p < n
    ensures k / n <= multiset(Turns(idx, n, k))[p] <= (k + n - 1) / n
    decreases k
  {
    hide Turn, Turns, IndexAfter;
    if k < n {
      PartOfRound(idx, n, k, p);
      Quotients(k, n);
    } else {
      TurnsSplit(idx, n, n, k - n);
      PartOfRound(idx, n, n, p);
      Fairness(IndexAfter(idx, n, n), n, k - n, p);
      assert multiset(Turns(idx, n, k)) ==
             multiset(Turns(idx, n, n)) + multiset(Turns(IndexAfter(idx, n, n), n, k - n));
      Quotients(k, n);
    }
  }

  lemma Quotients(k: nat, n: nat)
    requires n > 0
    ensures k < n ==> k / n == 0 && (k + n - 1) / n == if k == 0 then 0 else 1
    ensures k >= n ==> (k - n) / n == k / n - 1 && (k - n + n - 1) / n == (k + n - 1) / n - 1
  {
    if k >= n {
      OneLess(k, n);
      OneLess(k + n - 1, n);
    } else {
      QuotientIs(k, n, 0, k);
      if k == 0 {
        QuotientIs(n - 1, n, 0, n - 1);
      } else {
        QuotientIs(k + n - 1, n, 1, k - 1);
      }
    }
  }

  lemma OneLess(a: nat, n: nat)
    requires 0 < n <= a
    ensures (a - n) / n == a / n - 1
  {
    var q, r := (a - n) / n, (a - n) % n;
    assert (q + 1) * n == q * n + n;
    QuotientIs(a, n, q + 1, r);
  }

  /** Exactly `q` times each in `q` full rounds. */
  lemma FullRounds(idx: u64, n: nat, q: nat, p: nat)
    requires 0 < n <= TWO_64 && p < n
    ensures multiset(Turns(idx, n, q * n))[p] == q
  {
    Fairness(idx, n, q * n, p);
    QuotientIs(q * n, n, q, 0);
    QuotientIs(q * n + n - 1, n, q, n - 1);
  }

  /** The transports returned. */
  function Picked(list: seq<Tp>, idx: u64, k: nat): (picked: seq<Tp>)
    requires list != []
    ensures |picked| == k
    decreases k
  {
    if k == 0 then []
    else
      var i := Turn(idx, |list|);
      [list[i]] + Picked(list, i, k - 1)
  }

  lemma {:induction false} PickedAt(list: seq<Tp>, idx: u64, k: nat, i: nat)
    requires list != [] && i < k
    ensures Turns(idx, |list|, k)[i] < |list|
    ensures Picked(list, idx, k)[i] == list[Turns(idx, |list|, k)[i]]
    decreases k
  {
    if i > 0 {
      PickedAt(list, Turn(idx, |list|), k - 1, i - 1);
    }
  }

  lemma {:induction false} PickedOneMore(list: seq<Tp>, idx: u64, k: nat)
    requires list != []
    ensures var i := IndexAfter(idx, |list|, k);
            && Picked(list, idx, k + 1) == Picked(list, idx, k) + [list[Turn(i, |list|)]]
            && IndexAfter(idx, |list|, k + 1) == Turn(i, |list|)
    decreases k
  {
    hide Turn;
    if k > 0 {
      var i := Turn(idx, |list|);
      PickedOneMore(list, i, k - 1);
      Regrouped([list[i]], Picked(list, i, k - 1), [list[Turn(IndexAfter(i, |list|, k - 1), |list|)]]);
    }
  }

  /** The mutable dispatcher; the locks make `Add` and `Del` atomic. */
  class RobinDispatcher {
    var tpList: seq<Tp>
    var robinIdx: u64

    constructor ()
      ensures tpList == [] && robinIdx == 0
    {
      tpList, robinIdx := [], 0;
    }

    method Add(tp: Tp)
      modifies this`tpList
      ensures tpList == old(tpList) + [tp]
    {
      tpList := tpList + [tp];
    }

    /** Erases the first occurrence. */
    method Del(tp: Tp)
      modifies this`tpList
      ensures tpList == P.Without(old(tpList), tp)
      ensures multiset(tpList) == multiset(old(tpList)) - multiset{tp}
    {
      var i := 0;
      while i < |tpList| && tpList[i] != tp
        invariant 0 <= i <= |tpList| && tp !in tpList[..i]
      {
        i := i + 1;
      }
      WithoutAt(tpList, tp, i);
      C.WithoutRemovesOne(tpList, tp);
      if i < |tpList| {
        tpList := tpList[..i] + tpList[i + 1..];
      }
    }

    method Get() returns (tp: Option<Tp>)
      modifies this`robinIdx
      ensures tpList == [] ==> tp == None && robinIdx == old(robinIdx)
      ensures tpList != [] ==>
                && robinIdx == Turn(old(robinIdx), |tpList|) && robinIdx < |tpList|
                && tp == Some(tpList[robinIdx])
    {
      if |tpList| == 0 {
        return None;
      }
      robinIdx := (robinIdx as int + 1) % TWO_64;
      robinIdx := robinIdx as int % |tpList|;
      return Some(tpList[robinIdx]);
    }
  }

  lemma {:induction false} WithoutAt(tps: seq<Tp>, tp: Tp, i: nat)
    requires i <= |tps| && tp !in tps[..i] && (i < |tps| ==> tps[i] == tp)
    ensures P.Without(tps, tp) == if i < |tps| then tps[..i] + tps[i + 1..] else tps
  {
    if i > 0 {
      assert tps[0] == tps[..i][0];
      assert tps[1..][..i - 1] == tps[..i][1..];
      WithoutAt(tps[1..], tp, i - 1);
      if i < |tps| {
        assert tps[..i] + tps[i + 1..] == [tps[0]] + (tps[1..][..i - 1] + tps[1..][i..]);
      }
    }
  }

  /** `k` calls in a row, with no `Add` or `Del` in between. */
  method GetInARow(d: RobinDispatcher, k: nat) returns (picked: seq<Tp>)
    requires d.tpList != []
    modifies d`robinIdx
    ensures picked == Picked(d.tpList, old(d.robinIdx), k)
    ensures d.robinIdx == IndexAfter(old(d.robinIdx), |d.tpList|, k)
  {
    picked := [];
    var i := 0;
    while i < k
      invariant 0 <= i <= k && d.tpList == old(d.tpList)
      invariant picked == Picked(d.tpList, old(d.robinIdx), i)
      invariant d.robinIdx == IndexAfter(old(d.robinIdx), |d.tpList|, i)
    {
      PickedOneMore(d.tpList, old(d.robinIdx), i);
      var tp := d.Get();
      picked := picked + [tp.value];
      i := i + 1;
    }
  }

  // ---- Consistent hashing ----

  const DEFAULT_POINTS: nat := 64

  /** A change of membership, with the number of virtual points in force. */
  datatype Change = Added(tp: Tp, points: nat) | Removed(tp: Tp)

  function ToOp(key: Tp -> u64, hash: bytes -> u64, c: Change): Op<Option<Tp>> {
    match c
    case Added(tp, points) => Ins(key(tp), Points(hash, key(tp), points), Some(tp))
    case Removed(tp) => Op<Option<Tp>>.Del(key(tp))
  }

  function Changed(key: Tp -> u64, hash: bytes -> u64, r: Ring<Option<Tp>>, cs: seq<Change>): Ring<Option<Tp>>
    decreases |cs|
  {
    if cs == [] then r else Changed(key, hash, Apply(r, ToOp(key, hash, cs[0])), cs[1..])
  }

  function Changes(ms: set<Tp>, c: Change): set<Tp> {
    if c.Added? then ms + {c.tp} else ms - {c.tp}
  }

  function Members(ms: set<Tp>, cs: seq<Change>): set<Tp>
    decreases |cs|
  {
    if cs == [] then ms else Members(Changes(ms, cs[0]), cs[1..])
  }

  /** Ring and index agree, and each live key's value is a member with that key. */
  ghost predicate HoldsMembers(key: Tp -> u64, r: Ring<Option<Tp>>, live: map<u64, Owner<Option<Tp>>>, ms: set<Tp>) {
    && Agree(r, live)
    && forall k :: k in live ==> live[k].value.Some? && key(live[k].value.value) == k && live[k].value.value in ms
  }

  lemma {:induction false} ChangesHoldMembers(
      key: Tp -> u64, hash: bytes -> u64, r: Ring<Option<Tp>>, live: map<u64, Owner<Option<Tp>>>, ms: set<Tp>,
      cs: seq<Change>)
    returns (live': map<u64, Owner<Option<Tp>>>)
    requires HoldsMembers(key, r, live, ms)
    ensures HoldsMembers(key, Changed(key, hash, r, cs), live', Members(ms, cs))
    decreases |cs|
  {
    if cs == [] {
      live' := live;
    } else {
      var op := ToOp(key, hash, cs[0]);
      var next := ApplyLive(r, live, op);
      ChangeHoldsMembers(key, hash, r, live, ms, cs[0]);
      hide HoldsMembers, ApplyLive, Apply, ToOp;
      live' := ChangesHoldMembers(key, hash, Apply(r, op), next, Changes(ms, cs[0]), cs[1..]);
    }
  }

  lemma ChangeHoldsMembers(
      key: Tp -> u64, hash: bytes -> u64, r: Ring<Option<Tp>>, live: map<u64, Owner<Option<Tp>>>, ms: set<Tp>,
      c: Change)
    requires HoldsMembers(key, r, live, ms)
    ensures var op := ToOp(key, hash, c);
            HoldsMembers(key, Apply(r, op), ApplyLive(r, live, op), Changes(ms, c))
  {
    match c
    case Added(tp, points) =>
      InsertKeepsAgreement(r, live, key(tp), Points(hash, key(tp), points), Some(tp));
      hide Agree, Inserted, Free, Points;
    case Removed(tp) =>
      EraseKeepsAgreement(r, live, key(tp));
      hide Agree, Erased;
  }

  /**
   After any adds and removals, keys shared or not, a lookup yields a transport that has been added
   and not removed since, or none.
   */
  lemma LookupsYieldMembers(key: Tp -> u64, hash: bytes -> u64, cs: seq<Change>, h: u64)
    ensures var v := Lookup(Changed(key, hash, EmptyRing(), cs).table, h, None);
            v.Some? ==> v.value in Members({}, cs)
  {
    var live := ChangesHoldMembers(key, hash, EmptyRing(), map[], {}, cs);
    var r := Changed(key, hash, EmptyRing(), cs);
    if r.table != map[] {
      assert r.table.Keys != {} by { var p :| p in r.table; assert p in r.table.Keys; }
      var p := Successor(r.table.Keys, h);
      assert Owned(r, p);
      var k :| k in r.vir && p in r.vir[k];
      assert OwnsPoints(r, k, live[k]);
    }
  }

  // ---- Without collisions ----

  function Ops(key: Tp -> u64, hash: bytes -> u64, cs: seq<Change>): (ops: seq<Op<Option<Tp>>>)
    ensures |ops| == |cs| && forall i :: 0 <= i < |cs| ==> ops[i] == ToOp(key, hash, cs[i])
  {
    seq(|cs|, i requires 0 <= i < |cs| => ToOp(key, hash, cs[i]))
  }

  lemma {:induction false} ChangedIsExec(key: Tp -> u64, hash: bytes -> u64, r: Ring<Option<Tp>>, cs: seq<Change>)
    ensures Changed(key, hash, r, cs) == Exec(r, Ops(key, hash, cs))
    decreases |cs|
  {
    if cs != [] {
      hide Apply, ToOp;
      assert Ops(key, hash, cs)[1..] == Ops(key, hash, cs[1..]);
      ChangedIsExec(key, hash, Apply(r, ToOp(key, hash, cs[0])), cs[1..]);
    }
  }

  lemma OpsGenuine(key: Tp -> u64, hash: bytes -> u64, cs: seq<Change>)
    ensures Genuine(hash, Ops(key, hash, cs))
  {
  }

  /**
   When no two of the texts hashed collide, the dispatcher's ring depends only on which keys are live and
   what they were added with, not on the order or history of the changes.
   */
  lemma ChangesHistoryIndependent(key: Tp -> u64, hash: bytes -> u64, cs: seq<Change>, cs': seq<Change>)
    requires CollisionFree(hash, Ops(key, hash, cs)) && CollisionFree(hash, Ops(key, hash, cs'))
    requires ExecLive<Option<Tp>>(EmptyRing(), map[], Ops(key, hash, cs)) ==
             ExecLive<Option<Tp>>(EmptyRing(), map[], Ops(key, hash, cs'))
    ensures Changed(key, hash, EmptyRing(), cs) == Changed(key, hash, EmptyRing(), cs')
  {
    OpsGenuine(key, hash, cs);
    OpsGenuine(key, hash, cs');
    hide Genuine, CollisionFree, Ops;
    HashedHistoryIndependent(hash, Ops(key, hash, cs), Ops(key, hash, cs'));
    ChangedIsExec(key, hash, EmptyRing(), cs);
    ChangedIsExec(key, hash, EmptyRing(), cs');
  }

  lemma OneAdded(key: Tp -> u64, hash: bytes -> u64, tp: Tp, points: nat)
    ensures Changed(key, hash, EmptyRing(), [Added(tp, points)]) ==
              Inserted(EmptyRing(), key(tp), Points(hash, key(tp), points), Some(tp))
  {
    hide Inserted, Points;
    var cs := [Added(tp, points)];
    assert cs[1..] == [];
  }

  lemma AddedDistinct(key: Tp -> u64, hash: bytes -> u64, tp: Tp, points: nat)
    requires CollisionFree(hash, Ops(key, hash, [Added(tp, points)]))
    ensures NoDuplicates(Points(hash, key(tp), points))
  {
    var ops := Ops(key, hash, [Added(tp, points)]);
    assert ops[0].Ins? && ops[0].k == key(tp) && |ops[0].points| == points;
    hide Points, CandidateText, Collide;
    PointsDistinct(hash, key(tp), points);
  }

  /** A transport alone on the ring, added without collisions, owns exactly the points asked for. */
  lemma AddedAlone(key: Tp -> u64, hash: bytes -> u64, tp: Tp, points: nat)
    requires points > 0 && CollisionFree(hash, Ops(key, hash, [Added(tp, points)]))
    ensures var r := Changed(key, hash, EmptyRing(), [Added(tp, points)]);
            && key(tp) in r.vir && |r.vir[key(tp)]| == points && |r.table| == points
            && forall p :: p in r.table ==> p in r.vir[key(tp)] && r.table[p] == Some(tp)
  {
    var ps := Points(hash, key(tp), points);
    OneAdded(key, hash, tp, points);
    AddedDistinct(key, hash, tp, points);
    hide Points, CollisionFree, Ops, Changed;
    FreeOfDistinct<Option<Tp>>(ps);
    DistinctCount(ps);
    hide Free, NoDuplicates;
    var r := Inserted(EmptyRing(), key(tp), ps, Some(tp));
    assert r.table.Keys == Elements(ps);
    assert |r.table| == |r.table.Keys|;
  }

  function Elements(ps: seq<u64>): set<u64> {
    set x | x in ps
  }

  lemma {:induction false} DistinctCount(ps: seq<u64>)
    requires NoDuplicates(ps)
    ensures |Elements(ps)| == |ps|
  {
    if ps != [] {
      var front, p := ps[..|ps| - 1], ps[|ps| - 1];
      DistinctCount(front);
      assert p !in Elements(front);
      assert Elements(ps) == Elements(front) + {p};
    }
  }

  // ---- Members whose insert won points ----

  /** Whether adding the transport would win points. */
  predicate Wins(key: Tp -> u64, hash: bytes -> u64, r: Ring<Option<Tp>>, tp: Tp, points: nat) {
    key(tp) !in r.vir && Free(r.table, Points(hash, key(tp), points)) != []
  }

  /** The members whose last insert won points, after one more change. */
  function WinnersNext(key: Tp -> u64, hash: bytes -> u64, r: Ring<Option<Tp>>, ws: set<Tp>, c: Change): set<Tp> {
    match c
    case Added(tp, points) => if Wins(key, hash, r, tp, points) then ws + {tp} else ws
    case Removed(tp) => ws - {tp}
  }

  function Winners(key: Tp -> u64, hash: bytes -> u64, r: Ring<Option<Tp>>, ws: set<Tp>, cs: seq<Change>): set<Tp>
    decreases |cs|
  {
    if cs == [] then ws
    else Winners(key, hash, Apply(r, ToOp(key, hash, cs[0])), WinnersNext(key, hash, r, ws, cs[0]), cs[1..])
  }

  /** The transport owns points, and every point listed for its key leads to it. */
  predicate InRing(key: Tp -> u64, r: Ring<Option<Tp>>, tp: Tp) {
    && key(tp) in r.vir && r.vir[key(tp)] != []
    && forall p :: p in r.vir[key(tp)] ==> p in r.table && r.table[p] == Some(tp)
  }

  ghost predicate DistinctKeys(key: Tp -> u64, tps: set<Tp>) {
    forall a, b :: a in tps && b in tps && key(a) == key(b) ==> a == b
  }

  predicate Over(cs: seq<Change>, tps: set<Tp>) {
    forall c :: c in cs ==> c.tp in tps
  }

  /** The live keys are exactly the winners' keys, each with its winner as value. */
  ghost predicate WinnersLive(key: Tp -> u64, live: map<u64, Owner<Option<Tp>>>, ws: set<Tp>) {
    && (forall k :: k in live ==> live[k].value.Some? && key(live[k].value.value) == k && live[k].value.value in ws)
    && (forall tp :: tp in ws ==> key(tp) in live && live[key(tp)].value == Some(tp))
  }

  ghost predicate HoldsWinners(
      key: Tp -> u64, r: Ring<Option<Tp>>, live: map<u64, Owner<Option<Tp>>>, ws: set<Tp>, tps: set<Tp>)
  {
    Agree(r, live) && ws <= tps && WinnersLive(key, live, ws)
  }

  lemma WinLive(key: Tp -> u64, live: map<u64, Owner<Option<Tp>>>, ws: set<Tp>, tp: Tp, points: seq<u64>)
    requires WinnersLive(key, live, ws) && key(tp) !in live
    ensures WinnersLive(key, live[key(tp) := Owner(points, Some(tp))], ws + {tp})
  {
  }

  lemma RemoveLive(key: Tp -> u64, live: map<u64, Owner<Option<Tp>>>, ws: set<Tp>, tps: set<Tp>, tp: Tp)
    requires WinnersLive(key, live, ws) && DistinctKeys(key, tps) && ws <= tps && tp in tps
    ensures WinnersLive(key, live - {key(tp)}, ws - {tp})
  {
  }

  lemma ChangeHoldsWinners(
      key: Tp -> u64, hash: bytes -> u64, r: Ring<Option<Tp>>, live: map<u64, Owner<Option<Tp>>>, ws: set<Tp>,
      tps: set<Tp>, c: Change)
    requires HoldsWinners(key, r, live, ws, tps) && DistinctKeys(key, tps) && c.tp in tps
    ensures var op := ToOp(key, hash, c);
            HoldsWinners(key, Apply(r, op), ApplyLive(r, live, op), WinnersNext(key, hash, r, ws, c), tps)
  {
    assert r.vir.Keys == live.Keys;
    hide Agree, WinnersLive, DistinctKeys, Inserted, Erased, Free, Points;
    match c
    case Added(tp, points) =>
      InsertKeepsAgreement(r, live, key(tp), Points(hash, key(tp), points), Some(tp));
      if Wins(key, hash, r, tp, points) {
        WinLive(key, live, ws, tp, Points(hash, key(tp), points));
      }
    case Removed(tp) =>
      EraseKeepsAgreement(r, live, key(tp));
      RemoveLive(key, live, ws, tps, tp);
  }

  lemma {:induction false} ChangesHoldWinners(
      key: Tp -> u64, hash: bytes -> u64, r: Ring<Option<Tp>>, live: map<u64, Owner<Option<Tp>>>, ws: set<Tp>,
      tps: set<Tp>, cs: seq<Change>)
    returns (live': map<u64, Owner<Option<Tp>>>)
    requires HoldsWinners(key, r, live, ws, tps) && DistinctKeys(key, tps) && Over(cs, tps)
    ensures HoldsWinners(key, Changed(key, hash, r, cs), live', Winners(key, hash, r, ws, cs), tps)
    decreases |cs|
  {
    if cs == [] {
      live' := live;
    } else {
      HeadAndRest(cs);
      var op := ToOp(key, hash, cs[0]);
      ChangeHoldsWinners(key, hash, r, live, ws, tps, cs[0]);
      hide HoldsWinners, DistinctKeys, ApplyLive, Apply, ToOp, WinnersNext;
      live' := ChangesHoldWinners(key, hash, Apply(r, op), ApplyLive(r, live, op),
                                  WinnersNext(key, hash, r, ws, cs[0]), tps, cs[1..]);
    }
  }

  /**
   Transports with distinct keys: after any changes a transport is in the ring, under its own value, if
   and only if its insert won a point and it has not been removed since.
   */
  lemma WinnersStay(key: Tp -> u64, hash: bytes -> u64, tps: set<Tp>, cs: seq<Change>, tp: Tp)
    requires DistinctKeys(key, tps) && Over(cs, tps)
    ensures InRing(key, Changed(key, hash, EmptyRing(), cs), tp) <==> tp in Winners(key, hash, EmptyRing(), {}, cs)
  {
    var live := ChangesHoldWinners(key, hash, EmptyRing(), map[], {}, tps, cs);
    var r, ws := Changed(key, hash, EmptyRing(), cs), Winners(key, hash, EmptyRing(), {}, cs);
    hide Changed, Winners;
    if key(tp) in live {
      assert OwnsPoints(r, key(tp), live[key(tp)]);
      assert r.vir[key(tp)][0] in r.vir[key(tp)];
    }
  }

  /** Two transports with one key share its points: removing the second takes the first away. */
  lemma SharedKey(key: Tp -> u64, hash: bytes -> u64, a: Tp, b: Tp, points: nat)
    requires a != b && key(a) == key(b) && points > 0
    ensures var cs := [Added(a, points), Added(b, points), Removed(b)];
            && Changed(key, hash, EmptyRing(), cs) == EmptyRing() && Members({}, cs) == {a}
            && Winners(key, hash, EmptyRing(), {}, cs) == {a}
  {
    var k, ps := key(a), Points(hash, key(a), points);
    var e: Ring<Option<Tp>> := EmptyRing();
    var r := Inserted(e, k, ps, Some(a));
    FreeContents(e.table, ps);
    assert ps[0] in Free(e.table, ps);
    assert k in r.vir;
    InsertErase(e, map[], k, ps, Some(a));
    assert Erased(r, k) == e;
    assert Inserted(r, k, Points(hash, k, points), Some(b)) == r;
    hide Inserted, Erased, Free, Points;
    ThreeChanges(key, hash, e, Added(a, points), Added(b, points), Removed(b));
  }

  lemma ThreeChanges(key: Tp -> u64, hash: bytes -> u64, r: Ring<Option<Tp>>, a: Change, b: Change, c: Change)
    ensures var r1 := Apply(r, ToOp(key, hash, a));
            var r2 := Apply(r1, ToOp(key, hash, b));
            && Changed(key, hash, r, [a, b, c]) == Apply(r2, ToOp(key, hash, c))
            && Members({}, [a, b, c]) == Changes(Changes(Changes({}, a), b), c)
            && Winners(key, hash, r, {}, [a, b, c]) ==
                 WinnersNext(key, hash, r2, WinnersNext(key, hash, r1, WinnersNext(key, hash, r, {}, a), b), c)
  {
    var r1 := Apply(r, ToOp(key, hash, a));
    var r2 := Apply(r1, ToOp(key, hash, b));
    var r3 := Apply(r2, ToOp(key, hash, c));
    var ms1, ws1 := Changes({}, a), WinnersNext(key, hash, r, {}, a);
    var ms2, ws2 := Changes(ms1, b), WinnersNext(key, hash, r1, ws1, b);
    OneChange(key, hash, r, {}, {}, a, [b, c]);
    OneChange(key, hash, r1, ms1, ws1, b, [c]);
    OneChange(key, hash, r2, ms2, ws2, c, []);
    hide Apply, ToOp, Changes, WinnersNext;
    assert Changed(key, hash, r3, []) == r3;
    assert [a] + [b, c] == [a, b, c] && [b] + [c] == [b, c] && [c] + [] == [c];
  }

  lemma OneChange(key: Tp -> u64, hash: bytes -> u64, r: Ring<Option<Tp>>, ms: set<Tp>, ws: set<Tp>, c: Change,
                  cs: seq<Change>)
    ensures var r' := Apply(r, ToOp(key, hash, c));
            && Changed(key, hash, r, [c] + cs) == Changed(key, hash, r', cs)
            && Members(ms, [c] + cs) == Members(Changes(ms, c), cs)
            && Winners(key, hash, r, ws, [c] + cs) == Winners(key, hash, r', WinnersNext(key, hash, r, ws, c), cs)
  {
    assert ([c] + cs)[1..] == cs;
  }

  /**
   Key sharing is exactly what can push a member out: the keys of these transports are distinct if and
   only if no history of adds and removals leaves a winner outside the ring.
   */
  lemma WinnersStayExactly(key: Tp -> u64, hash: bytes -> u64, tps: set<Tp>)
    ensures DistinctKeys(key, tps) <==>
            forall cs, tp :: Over(cs, tps) && tp in Winners(key, hash, EmptyRing(), {}, cs) ==>
              InRing(key, Changed(key, hash, EmptyRing(), cs), tp)
  {
    if DistinctKeys(key, tps) {
      forall cs, tp | Over(cs, tps) && tp in Winners(key, hash, EmptyRing(), {}, cs)
        ensures InRing(key, Changed(key, hash, EmptyRing(), cs), tp)
      {
        WinnersStay(key, hash, tps, cs, tp);
      }
    } else {
      var a, b :| a in tps && b in tps && key(a) == key(b) && a != b;
      SharedKey(key, hash, a, b, 1);
      var cs := [Added(a, 1), Added(b, 1), Removed(b)];
      hide Changed, Winners;
      assert Over(cs, tps) && a in Winners(key, hash, EmptyRing(), {}, cs);
      assert !InRing(key, Changed(key, hash, EmptyRing(), cs), a);
    }
  }

  class HashDispatcher {
    const table: ConHashTable<bytes, Option<Tp>>
    /** `GetHashKey`: the tag of the transport's URL. */
    const tagOf: Tp -> bytes
    var virCount: nat
    var requestHash: Option<(bytes, bytes) -> u64>
    var hashIdx: u64

    constructor (tagOf: Tp -> bytes, strHash: bytes -> u64)
      ensures fresh(table) && table.Value() == EmptyRing() && table.keyHash == strHash && table.strHash == strHash
      ensures table.default == None && this.tagOf == tagOf && virCount == 0 && requestHash == None && hashIdx == 0
    {
      this.tagOf, virCount, requestHash, hashIdx := tagOf, 0, None, 0;
      table := new ConHashTable<bytes, Option<Tp>>(strHash, strHash, None);
    }

    function KeyOf(): Tp -> u64
      reads this, table
    {
      tp => table.keyHash(tagOf(tp))
    }

    method Add(tp: Tp)
      modifies table
      ensures table.Value() ==
                Apply(old(table.Value()),
                      ToOp(KeyOf(), table.strHash, Added(tp, if virCount == 0 then 64 else virCount)))
    {
      var hashkey := tagOf(tp);
      if virCount == 0 {
        var _ := table.Insert(hashkey, Some(tp), DEFAULT_POINTS);
      } else {
        var _ := table.Insert(hashkey, Some(tp), virCount);
      }
    }

    method Del(tp: Tp)
      modifies table
      ensures table.Value() == Apply(old(table.Value()), ToOp(KeyOf(), table.strHash, Removed(tp)))
    {
      var _ := table.Erase(tagOf(tp));
    }

    /** By the request's hash when a hash function is set, else by a running number. */
    method Get(serviceName: bytes, methodName: bytes) returns (tp: Option<Tp>)
      modifies this`hashIdx
      ensures requestHash.Some? ==>
                tp == Lookup(table.table, requestHash.value(serviceName, methodName), table.default) &&
                hashIdx == old(hashIdx)
      ensures requestHash.None? ==>
                && hashIdx == (old(hashIdx) as int + 1) % TWO_64
                && tp == Lookup(table.table, table.keyHash(Decimal.Digits(hashIdx)), table.default)
    {
      if requestHash.Some? {
        tp := table.HGet(requestHash.value(serviceName, methodName));
      } else {
        hashIdx := (hashIdx as int + 1) % TWO_64;
        tp := table.Get(Decimal.Digits(hashIdx));
      }
    }
  }
}
