/**
 The consistent-hash ring. `table_` maps ring points to values, `vir_table_` maps the hash of each
 inserted key to the list of ring points it won. `std::hash` is an uninterpreted function.
 */
module ConHash {
  import opened Prelude
  import Decimal

  const DASH: byte := 45

  datatype Ring<V> = Ring(table: map<u64, V>, vir: map<u64, seq<u64>>)

  function EmptyRing<V>(): Ring<V> {
    Ring(map[], map[])
  }

  // ---- Insert and erase as functions ----

  /** The candidate points of a key hash: the hashes of "<hash>-0", "<hash>-1", ... */
  function Points(hash: bytes -> u64, k: u64, n: nat): (p: seq<u64>)
    ensures |p| == n
  {
    seq<u64>(n, i requires 0 <= i < n => hash(Decimal.Digits(k) + [DASH] + Decimal.Digits(i)))
  }

  /** The candidates that are still free, each once, in order. */
  function Free<V>(table: map<u64, V>, points: seq<u64>): seq<u64>
  {
    if points == [] then []
    else
      var front := Free(table, points[..|points| - 1]);
      var p := points[|points| - 1];
      if p in table || p in front then front else front + [p]
  }

  function Place<V>(table: map<u64, V>, points: seq<u64>, v: V): map<u64, V> {
    table + map p | p in points :: v
  }

  function Inserted<V>(r: Ring<V>, k: u64, points: seq<u64>, v: V): Ring<V> {
    var won := Free(r.table, points);
    if k in r.vir || won == [] then r
    else Ring(Place(r.table, won, v), r.vir[k := won])
  }

  function Erased<V>(r: Ring<V>, k: u64): Ring<V> {
    if k !in r.vir then r
    else Ring(r.table - (set p | p in r.vir[k]), r.vir - {k})
  }

  // ---- Lookup ----

  predicate IsLeast(m: u64, s: set<u64>) {
    m in s && forall x :: x in s ==> m <= x
  }

  lemma {:induction false} LeastExists(s: set<u64>)
    requires s != {}
    ensures exists m :: IsLeast(m, s)
  {
    var x :| x in s;
    if s == {x} {
      assert IsLeast(x, s);
    } else {
      LeastExists(s - {x});
      var m :| IsLeast(m, s - {x});
      assert forall y :: y in s ==> y == x || y in s - {x};
      assert IsLeast(if m < x then m else x, s);
    }
  }

  function Least(s: set<u64>): (m: u64)
    requires s != {}
    ensures IsLeast(m, s)
  {
    LeastExists(s);
    var m :| IsLeast(m, s);
    m
  }

  /** `lower_bound` with wrap-around: the least point at or after `h`, else the least of all. */
  function Successor(points: set<u64>, h: u64): (p: u64)
    requires points != {}
    ensures p in points
  {
    var later := set x | x in points && h <= x;
    if later != {} then Least(later) else Least(points)
  }

  /** Clockwise distance on the ring of 2^64 points. */
  function Distance(h: u64, p: u64): u64 {
    (p as int - h as int) % TWO_64
  }

  lemma DistanceCases(h: u64, p: u64)
    ensures Distance(h, p) == if h <= p then p - h else p as int - h as int + TWO_64
  {
  }

  /**
   The lookup is the circular one: the successor is the one point at the smallest clockwise distance
   from the hash.
   */
  lemma SuccessorIsNearest(points: set<u64>, h: u64, q: u64)
    requires q in points
    ensures Distance(h, Successor(points, h)) <= Distance(h, q)
    ensures Distance(h, Successor(points, h)) == Distance(h, q) ==> q == Successor(points, h)
  {
    var later := set x | x in points && h <= x;
    var p := Successor(points, h);
    assert q in later <==> h <= q;
    if later != {} {
      assert IsLeast(p, later);
    } else {
      assert IsLeast(p, points) && p !in later;
    }
    DistanceCases(h, p);
    DistanceCases(h, q);
  }

  lemma NearestIsSuccessor(points: set<u64>, h: u64, p: u64)
    requires p in points && forall q :: q in points ==> Distance(h, p) <= Distance(h, q)
    ensures p == Successor(points, h)
  {
    SuccessorIsNearest(points, h, p);
  }

  function Lookup<V>(table: map<u64, V>, h: u64, default: V): V {
    if table == map[] then default else
    assert table.Keys != {} by { var p :| p in table; assert p in table.Keys; }
    table[Successor(table.Keys, h)]
  }

  /** An empty ring gives the default, any other the value of the point nearest clockwise. */
  lemma LookupExactly<V>(table: map<u64, V>, h: u64, default: V, p: u64)
    ensures table == map[] ==> Lookup(table, h, default) == default
    ensures p in table && (forall q :: q in table ==> (p - h) % TWO_64 <= (q - h) % TWO_64) ==>
              Lookup(table, h, default) == table[p]
  {
    if p in table && forall q :: q in table ==> (p - h) % TWO_64 <= (q - h) % TWO_64 {
      forall q | q in table.Keys ensures Distance(h, p) <= Distance(h, q) {
      }
      NearestIsSuccessor(table.Keys, h, p);
    }
  }

  // ---- The two maps agree ----

  predicate NoDuplicates(s: seq<u64>) {
    forall i, j :: 0 <= i < j < |s| ==> s[i] != s[j]
  }

  /** What is live: each live key hash with the candidates and value it was inserted with. */
  datatype Owner<V> = Owner(points: seq<u64>, value: V)

  ghost predicate OwnsPoints<V>(r: Ring<V>, k: u64, owner: Owner<V>) {
    && k in r.vir && r.vir[k] != [] && NoDuplicates(r.vir[k])
    && forall p :: p in r.vir[k] ==> p in r.table && r.table[p] == owner.value && p in owner.points
  }

  ghost predicate Owned<V>(r: Ring<V>, p: u64) {
    exists k :: k in r.vir && p in r.vir[k]
  }

  /**
   The ring and its index agree: lists are non-empty and duplicate-free, every listed point is in the
   table under its owner's value, every point of the table is listed, and no point is listed twice.
   */
  ghost predicate Agree<V>(r: Ring<V>, live: map<u64, Owner<V>>) {
    && r.vir.Keys == live.Keys
    && (forall k :: k in live ==> OwnsPoints(r, k, live[k]))
    && (forall p :: p in r.table ==> Owned(r, p))
    && (forall k, k' :: k in r.vir && k' in r.vir && k != k' ==> Disjoint(r.vir[k], r.vir[k']))
  }

  predicate Disjoint(a: seq<u64>, b: seq<u64>) {
    forall p :: p in a ==> p !in b
  }

  lemma {:induction false} FreeContents<V>(table: map<u64, V>, points: seq<u64>)
    ensures forall p :: p in Free(table, points) <==> p in points && p !in table
    ensures NoDuplicates(Free(table, points))
  {
    if points != [] {
      var k := |points| - 1;
      assert points == points[..k] + [points[k]];
      FreeContents(table, points[..k]);
    }
  }

  datatype Op<V> = Ins(k: u64, points: seq<u64>, v: V) | Del(k: u64)

  function Apply<V>(r: Ring<V>, op: Op<V>): Ring<V> {
    match op
    case Ins(k, points, v) => Inserted(r, k, points, v)
    case Del(k) => Erased(r, k)
  }

  /** The live keys after an operation: an insert counts when it wins a point. */
  function ApplyLive<V>(r: Ring<V>, live: map<u64, Owner<V>>, op: Op<V>): map<u64, Owner<V>> {
    match op
    case Ins(k, points, v) =>
      if k in r.vir || Free(r.table, points) == [] then live else live[k := Owner(points, v)]
    case Del(k) => live - {k}
  }

  /** What a successful insert does to both maps. */
  lemma InsertEffect<V>(r: Ring<V>, k: u64, points: seq<u64>, v: V)
    requires k !in r.vir && Free(r.table, points) != []
    ensures var t := Inserted(r, k, points, v);
            && t.vir == r.vir[k := Free(r.table, points)]
            && (forall p :: p in t.table <==> p in r.table || p in points)
            && (forall p :: p in t.table ==> t.table[p] == if p in r.table then r.table[p] else v)
            && (forall p :: p in t.vir[k] <==> p in points && p !in r.table)
            && NoDuplicates(t.vir[k])
  {
    FreeContents(r.table, points);
  }

  lemma InsertKeepsOwners<V>(r: Ring<V>, live: map<u64, Owner<V>>, k: u64, points: seq<u64>, v: V)
    requires Agree(r, live) && k !in r.vir && Free(r.table, points) != []
    ensures var t, live' := Inserted(r, k, points, v), live[k := Owner(points, v)];
            && (forall x :: x in live' ==> OwnsPoints(t, x, live'[x]))
            && (forall p :: p in t.table ==> Owned(t, p))
  {
    InsertEffect(r, k, points, v);
    hide Inserted, Free;
    var t, live' := Inserted(r, k, points, v), live[k := Owner(points, v)];
    forall x | x in live' ensures OwnsPoints(t, x, live'[x]) {
      assert x != k ==> OwnsPoints(r, x, live[x]);
    }
    forall p | p in t.table ensures Owned(t, p) {
      if p in r.table {
        assert Owned(r, p);
        var x :| x in r.vir && p in r.vir[x];
        assert t.vir[x] == r.vir[x];
      } else {
        assert p in t.vir[k];
      }
    }
  }

  lemma InsertKeepsListsApart<V>(r: Ring<V>, live: map<u64, Owner<V>>, k: u64, points: seq<u64>, v: V)
    requires Agree(r, live) && k !in r.vir && Free(r.table, points) != []
    ensures var t := Inserted(r, k, points, v);
            forall x, y :: x in t.vir && y in t.vir && x != y ==> Disjoint(t.vir[x], t.vir[y])
  {
    InsertEffect(r, k, points, v);
    hide Inserted, Free;
    var t := Inserted(r, k, points, v);
    forall x, y | x in t.vir && y in t.vir && x != y ensures Disjoint(t.vir[x], t.vir[y]) {
      assert x != k ==> OwnsPoints(r, x, live[x]);
      assert y != k ==> OwnsPoints(r, y, live[y]);
    }
  }

  lemma InsertKeepsAgreement<V>(r: Ring<V>, live: map<u64, Owner<V>>, k: u64, points: seq<u64>, v: V)
    requires Agree(r, live)
    ensures Agree(Inserted(r, k, points, v), ApplyLive(r, live, Ins(k, points, v)))
  {
    if k !in r.vir && Free(r.table, points) != [] {
      InsertKeepsOwners(r, live, k, points, v);
      InsertKeepsListsApart(r, live, k, points, v);
    }
  }

  lemma EraseKeepsAgreement<V>(r: Ring<V>, live: map<u64, Owner<V>>, k: u64)
    requires Agree(r, live)
    ensures Agree(Erased(r, k), live - {k})
  {
    if k in r.vir {
      var t := Erased(r, k);
      forall x | x in live - {k} ensures OwnsPoints(t, x, (live - {k})[x]) {
        assert OwnsPoints(r, x, live[x]);
        assert Disjoint(r.vir[x], r.vir[k]);
      }
      forall p | p in t.table ensures Owned(t, p) {
        var x :| x in r.vir && p in r.vir[x];
        assert x != k && t.vir[x] == r.vir[x];
      }
    } else {
      assert live - {k} == live;
    }
  }

  function Exec<V>(r: Ring<V>, ops: seq<Op<V>>): Ring<V>
    decreases |ops|
  {
    if ops == [] then r else Exec(Apply(r, ops[0]), ops[1..])
  }

  function ExecLive<V>(r: Ring<V>, live: map<u64, Owner<V>>, ops: seq<Op<V>>): map<u64, Owner<V>>
    decreases |ops|
  {
    if ops == [] then live else ExecLive(Apply(r, ops[0]), ApplyLive(r, live, ops[0]), ops[1..])
  }

  /** In every reachable state, collisions included, ring and index agree. */
  lemma {:induction false} RunKeepsAgreement<V>(r: Ring<V>, live: map<u64, Owner<V>>, ops: seq<Op<V>>)
    requires Agree(r, live)
    ensures Agree(Exec(r, ops), ExecLive(r, live, ops))
    decreases |ops|
  {
    if ops != [] {
      match ops[0] {
        case Ins(k, points, v) => InsertKeepsAgreement(r, live, k, points, v);
        case Del(k) => EraseKeepsAgreement(r, live, k);
      }
      RunKeepsAgreement(Apply(r, ops[0]), ApplyLive(r, live, ops[0]), ops[1..]);
    }
  }

  /** Inserting a new key and erasing it again restores both maps, collisions or not. */
  lemma InsertErase<V>(r: Ring<V>, live: map<u64, Owner<V>>, k: u64, points: seq<u64>, v: V)
    requires Agree(r, live) && k !in r.vir
    ensures Erased(Inserted(r, k, points, v), k) == r
  {
    FreeContents(r.table, points);
    var won := Free(r.table, points);
    if won != [] {
      assert Place(r.table, won, v) - (set p | p in won) == r.table;
      assert r.vir[k := won] - {k} == r.vir;
    }
  }

  // ---- Minimal disruption ----

  /** After an insert every hash maps where it did, or to the new value. */
  lemma InsertDisruptsMinimally<V>(r: Ring<V>, k: u64, points: seq<u64>, v: V, h: u64, default: V)
    ensures var was, now := Lookup(r.table, h, default), Lookup(Inserted(r, k, points, v).table, h, default);
            now == was || now == v
  {
    var t := Inserted(r, k, points, v).table;
    if t != r.table && r.table != map[] {
      FreeContents(r.table, points);
      var p := Successor(t.Keys, h);
      if p in r.table {
        forall q | q in r.table.Keys ensures Distance(h, p) <= Distance(h, q) {
          SuccessorIsNearest(t.Keys, h, q);
        }
        NearestIsSuccessor(r.table.Keys, h, p);
      }
    }
  }

  /** After an erase every hash whose point the key did not own maps exactly where it did. */
  lemma EraseDisruptsMinimally<V>(r: Ring<V>, k: u64, h: u64, default: V)
    requires r.table != map[] && r.table.Keys != {}
    requires k in r.vir ==> Successor(r.table.Keys, h) !in r.vir[k]
    ensures Lookup(Erased(r, k).table, h, default) == Lookup(r.table, h, default)
  {
    var t := Erased(r, k).table;
    var p := Successor(r.table.Keys, h);
    assert p in t;
    forall q | q in t.Keys ensures Distance(h, p) <= Distance(h, q) {
      SuccessorIsNearest(r.table.Keys, h, q);
    }
    NearestIsSuccessor(t.Keys, h, p);
  }

  /** Only the erased key's hashes move: the others' lookups are those of the larger ring. */
  lemma EraseMovesOnlyOwned<V>(r: Ring<V>, live: map<u64, Owner<V>>, k: u64, h: u64, default: V)
    requires Agree(r, live) && Lookup(Erased(r, k).table, h, default) != Lookup(r.table, h, default)
    ensures k in live && Lookup(r.table, h, default) == live[k].value
  {
    if r.table != map[] {
      assert r.table.Keys != {};
      if k !in r.vir || Successor(r.table.Keys, h) !in r.vir[k] {
        EraseDisruptsMinimally(r, k, h, default);
      }
    }
  }

  // ---- History independence ----

  /** Candidates of different keys never meet. */
  ghost predicate Apart<V>(ops: seq<Op<V>>, live: map<u64, Owner<V>>) {
    && (forall i, j :: 0 <= i < |ops| && 0 <= j < |ops| && ops[i].Ins? && ops[j].Ins? && ops[i].k != ops[j].k ==>
          Disjoint(ops[i].points, ops[j].points))
    && (forall i, k :: 0 <= i < |ops| && ops[i].Ins? && k in live && k != ops[i].k ==>
          Disjoint(ops[i].points, live[k].points))
  }

  ghost predicate Candidate<V>(live: map<u64, Owner<V>>, p: u64) {
    exists k :: k in live && p in live[k].points
  }

  ghost predicate HoldsAll<V>(table: map<u64, V>, owner: Owner<V>) {
    forall p :: p in owner.points ==> p in table && table[p] == owner.value
  }

  /** Each live key's list is its candidates without repetition. */
  ghost predicate ListsFollow<V>(vir: map<u64, seq<u64>>, live: map<u64, Owner<V>>) {
    vir.Keys == live.Keys && forall k :: k in live ==> vir[k] == Free<V>(map[], live[k].points)
  }

  ghost predicate PointsFollow<V>(table: map<u64, V>, live: map<u64, Owner<V>>) {
    forall p :: p in table <==> Candidate(live, p)
  }

  ghost predicate ValuesFollow<V>(table: map<u64, V>, live: map<u64, Owner<V>>) {
    forall k :: k in live ==> HoldsAll(table, live[k])
  }

  /** The ring and index that a set of live keys determines on its own. */
  ghost predicate Determined<V>(r: Ring<V>, live: map<u64, Owner<V>>) {
    ListsFollow(r.vir, live) && PointsFollow(r.table, live) && ValuesFollow(r.table, live)
  }

  lemma DeterminedIsUnique<V>(r: Ring<V>, r': Ring<V>, live: map<u64, Owner<V>>)
    requires Determined(r, live) && Determined(r', live)
    ensures r == r'
  {
    assert r.table.Keys == r'.table.Keys;
    forall p | p in r.table ensures r.table[p] == r'.table[p] {
      assert Candidate(live, p);
      var k :| k in live && p in live[k].points;
      assert HoldsAll(r.table, live[k]) && HoldsAll(r'.table, live[k]);
    }
    assert r.vir == r'.vir;
  }

  lemma {:induction false} FreeOfApart<V>(table: map<u64, V>, points: seq<u64>)
    requires forall p :: p in points ==> p !in table
    ensures Free(table, points) == Free<V>(map[], points)
  {
    if points != [] {
      FreeOfApart(table, points[..|points| - 1]);
    }
  }

  lemma FreeOfTable<V>(r: Ring<V>, live: map<u64, Owner<V>>, k: u64, points: seq<u64>)
    requires Determined(r, live) && k !in live
    requires forall x :: x in live && x != k ==> Disjoint(points, live[x].points)
    ensures forall p :: p in points ==> p !in r.table
  {
    forall p | p in r.table ensures p !in points {
      assert Candidate(live, p);
      var x :| x in live && p in live[x].points;
      assert Disjoint(points, live[x].points);
    }
  }

  /** Adding a key whose candidates are all free adds exactly those candidates. */
  lemma PointsGrow<V>(table: map<u64, V>, table': map<u64, V>, live: map<u64, Owner<V>>, k: u64, owner: Owner<V>)
    requires k !in live && PointsFollow(table, live)
    requires forall p :: p in table' <==> p in table || p in owner.points
    ensures PointsFollow(table', live[k := owner])
  {
    var live' := live[k := owner];
    forall p ensures p in table' <==> Candidate(live', p) {
      if p in owner.points {
        assert live'[k].points == owner.points;
      } else if p in table {
        var x :| x in live && p in live[x].points;
        assert live'[x] == live[x];
      } else {
        assert !Candidate(live, p);
        assert forall x :: x in live' && x != k ==> live'[x] == live[x];
      }
    }
  }

  lemma ValuesGrow<V>(table: map<u64, V>, table': map<u64, V>, live: map<u64, Owner<V>>, k: u64, owner: Owner<V>)
    requires ValuesFollow(table, live) && HoldsAll(table', owner)
    requires forall p :: p in table ==> p in table' && table'[p] == table[p]
    ensures ValuesFollow(table', live[k := owner])
  {
    var live' := live[k := owner];
    forall x | x in live' ensures HoldsAll(table', live'[x]) {
      assert x != k ==> HoldsAll(table, live[x]);
    }
  }

  lemma InsertDetermined<V>(r: Ring<V>, live: map<u64, Owner<V>>, k: u64, points: seq<u64>, v: V)
    requires Determined(r, live)
    requires forall x :: x in live && x != k ==> Disjoint(points, live[x].points)
    ensures Determined(Inserted(r, k, points, v), ApplyLive(r, live, Ins(k, points, v)))
  {
    if k !in r.vir && Free(r.table, points) != [] {
      var owner, t := Owner(points, v), Inserted(r, k, points, v);
      FreeOfTable(r, live, k, points);
      FreeOfApart(r.table, points);
      InsertEffect(r, k, points, v);
      assert ListsFollow(t.vir, live[k := owner]) by {
        hide Inserted, Free, PointsFollow, ValuesFollow;
      }
      PointsGrow(r.table, t.table, live, k, owner);
      ValuesGrow(r.table, t.table, live, k, owner);
    }
  }

  /** Candidate lists of the live keys do not meet. */
  ghost predicate LiveApart<V>(live: map<u64, Owner<V>>) {
    forall k, k' :: k in live && k' in live && k != k' ==> Disjoint(live[k].points, live[k'].points)
  }

  lemma PointsShrink<V>(table: map<u64, V>, table': map<u64, V>, live: map<u64, Owner<V>>, k: u64)
    requires k in live && LiveApart(live) && PointsFollow(table, live)
    requires forall p :: p in table' <==> p in table && p !in live[k].points
    ensures PointsFollow(table', live - {k})
  {
    var live' := live - {k};
    forall p | p in table' ensures Candidate(live', p) {
      assert Candidate(live, p);
      var x :| x in live && p in live[x].points;
      assert x in live' && live'[x] == live[x];
    }
    forall p | Candidate(live', p) ensures p in table' {
      var x :| x in live' && p in live'[x].points;
      assert live[x] == live'[x] && Candidate(live, p);
      assert Disjoint(live[x].points, live[k].points);
    }
  }

  lemma ValuesShrink<V>(table: map<u64, V>, table': map<u64, V>, live: map<u64, Owner<V>>, k: u64)
    requires k in live && LiveApart(live) && ValuesFollow(table, live)
    requires forall p :: p in table && p !in live[k].points ==> p in table' && table'[p] == table[p]
    ensures ValuesFollow(table', live - {k})
  {
    var live' := live - {k};
    forall x | x in live' ensures HoldsAll(table', live'[x]) {
      assert HoldsAll(table, live[x]);
      assert Disjoint(live[x].points, live[k].points);
    }
  }

  lemma EraseDetermined<V>(r: Ring<V>, live: map<u64, Owner<V>>, k: u64)
    requires Determined(r, live) && LiveApart(live)
    ensures Determined(Erased(r, k), live - {k})
  {
    if k in live {
      FreeContents<V>(map[], live[k].points);
      var t := Erased(r, k);
      assert forall p :: p in r.vir[k] <==> p in live[k].points;
      PointsShrink(r.table, t.table, live, k);
      ValuesShrink(r.table, t.table, live, k);
    } else {
      assert live - {k} == live;
    }
  }

  /**
   History independence: when the candidates of different keys never meet, after any inserts and
   erases the ring is determined by the live keys alone.
   */
  lemma {:induction false} HistoryIndependent<V>(r: Ring<V>, live: map<u64, Owner<V>>, ops: seq<Op<V>>)
    requires Determined(r, live) && LiveApart(live) && Apart(ops, live)
    ensures Determined(Exec(r, ops), ExecLive(r, live, ops))
    decreases |ops|
  {
    if ops != [] {
      hide Inserted, Erased, Free, Determined;
      var op := ops[0];
      match op {
        case Ins(k, points, v) => InsertDetermined(r, live, k, points, v);
        case Del(k) => EraseDetermined(r, live, k);
      }
      ApartNext(r, live, ops);
      HistoryIndependent(Apply(r, op), ApplyLive(r, live, op), ops[1..]);
    }
  }

  lemma ApartNext<V>(r: Ring<V>, live: map<u64, Owner<V>>, ops: seq<Op<V>>)
    requires ops != [] && LiveApart(live) && Apart(ops, live)
    ensures LiveApart(ApplyLive(r, live, ops[0])) && Apart(ops[1..], ApplyLive(r, live, ops[0]))
  {
    var op, rest := ops[0], ops[1..];
    var live' := ApplyLive(r, live, op);
    hide Free;
    forall i, k | 0 <= i < |rest| && rest[i].Ins? && k in live' && k != rest[i].k
      ensures Disjoint(rest[i].points, live'[k].points)
    {
      assert rest[i] == ops[i + 1];
      if k !in live || live'[k] != live[k] {
        assert op.Ins? && k == op.k && live'[k].points == op.points;
      }
    }
    forall i, j | 0 <= i < |rest| && 0 <= j < |rest| && rest[i].Ins? && rest[j].Ins? && rest[i].k != rest[j].k
      ensures Disjoint(rest[i].points, rest[j].points)
    {
      assert rest[i] == ops[i + 1] && rest[j] == ops[j + 1];
    }
  }

  /** Two histories with the same live keys give the same ring, hence the same lookups. */
  lemma SameLiveSameRing<V>(ops: seq<Op<V>>, ops': seq<Op<V>>)
    requires Apart(ops, map[]) && Apart(ops', map[])
    requires ExecLive<V>(EmptyRing(), map[], ops) == ExecLive<V>(EmptyRing(), map[], ops')
    ensures Exec<V>(EmptyRing(), ops) == Exec<V>(EmptyRing(), ops')
  {
    HistoryIndependent<V>(EmptyRing(), map[], ops);
    HistoryIndependent<V>(EmptyRing(), map[], ops');
    DeterminedIsUnique(Exec<V>(EmptyRing(), ops), Exec<V>(EmptyRing(), ops'), ExecLive<V>(EmptyRing(), map[], ops));
  }

  /**
   Without that condition order matters: two new keys can be inserted in either order with the same
   result exactly when no candidate still free belongs to both.
   */
  lemma InsertsCommuteExactly<V>(r: Ring<V>, k: u64, points: seq<u64>, v: V, k': u64, points': seq<u64>, v': V)
    requires k != k' && k !in r.vir && k' !in r.vir
    ensures Inserted(Inserted(r, k, points, v), k', points', v') == Inserted(Inserted(r, k', points', v'), k, points, v)
       <==> forall p :: p in points && p in points' ==> p in r.table
  {
    if p :| p in points && p in points' && p !in r.table {
      FirstInsertWins(r, k, points, v, k', points', v', p);
      FirstInsertWins(r, k', points', v', k, points, v, p);
    } else {
      InsertsCommute(r, k, points, v, k', points', v');
    }
  }

  /** A free candidate of both keys goes to whichever is inserted first. */
  lemma FirstInsertWins<V>(r: Ring<V>, k: u64, points: seq<u64>, v: V, k': u64, points': seq<u64>, v': V, p: u64)
    requires k != k' && k !in r.vir && k' !in r.vir && p in points && p in points' && p !in r.table
    ensures var t := Inserted(Inserted(r, k, points, v), k', points', v');
            k in t.vir && p in t.vir[k] && (k' in t.vir ==> p !in t.vir[k'])
  {
    FreeContents(r.table, points);
    assert p in Free(r.table, points);
    InsertEffect(r, k, points, v);
    var a := Inserted(r, k, points, v);
    hide Free;
    FreeContents(a.table, points');
  }

  lemma InsertsCommute<V>(r: Ring<V>, k: u64, points: seq<u64>, v: V, k': u64, points': seq<u64>, v': V)
    requires k != k' && k !in r.vir && k' !in r.vir
    requires forall p :: p in points && p in points' ==> p in r.table
    ensures Inserted(Inserted(r, k, points, v), k', points', v') == Inserted(Inserted(r, k', points', v'), k, points, v)
  {
    hide Free;
    var a, b := Inserted(r, k, points, v), Inserted(r, k', points', v');
    FreeContents(r.table, points);
    FreeContents(r.table, points');
    FreeUnaffected(r.table, a.table, points');
    FreeUnaffected(r.table, b.table, points);
    var won, won' := Free(r.table, points), Free(r.table, points');
    PlacesCommute(r.table, won, v, won', v');
    hide Place;
    if won != [] && won' != [] {
      assert r.vir[k := won][k' := won'] == r.vir[k' := won'][k := won];
    }
  }

  lemma PlacesCommute<V>(table: map<u64, V>, won: seq<u64>, v: V, won': seq<u64>, v': V)
    requires forall p :: p in won ==> p !in won'
    ensures Place(Place(table, won, v), won', v') == Place(Place(table, won', v'), won, v)
  {
    var a, b := Place(Place(table, won, v), won', v'), Place(Place(table, won', v'), won, v);
    assert a.Keys == b.Keys;
    forall p | p in a ensures a[p] == b[p] {
    }
  }

  lemma {:induction false} FreeUnaffected<V>(table: map<u64, V>, table': map<u64, V>, points: seq<u64>)
    requires forall p :: p in points ==> (p in table <==> p in table')
    ensures Free(table, points) == Free(table', points)
  {
    if points != [] {
      FreeUnaffected(table, table', points[..|points| - 1]);
    }
  }

  /** One more candidate is won exactly when no earlier insert and no earlier candidate took it. */
  lemma FreeOneMore<V>(table: map<u64, V>, points: seq<u64>, i: nat, v: V)
    requires i < |points|
    ensures var won, p := Free(table, points[..i]), points[i];
            var now := Place(table, won, v);
            && Free(table, points[..i + 1]) == (if p in now then won else won + [p])
            && (p !in now ==> Place(table, won + [p], v) == now[p := v])
  {
    assert points[..i + 1][..i] == points[..i];
    hide Free;
    var won, p := Free(table, points[..i]), points[i];
    FreeUnfolds(table, points[..i], p);
    assert points[..i + 1] == points[..i] + [p];
  }

  lemma FreeUnfolds<V>(table: map<u64, V>, front: seq<u64>, p: u64)
    ensures var won := Free(table, front);
            Free(table, front + [p]) == if p in table || p in won then won else won + [p]
  {
    assert (front + [p])[..|front|] == front;
  }

  // ---- The candidates the code really uses ----

  /** The text whose hash is candidate `i` of key hash `k`. */
  function CandidateText(k: u64, i: nat): bytes {
    Decimal.Digits(k) + ([45] + Decimal.Digits(i))
  }

  /** Different keys, or different numbers, give different texts. */
  lemma CandidateTextsDiffer(k: u64, i: nat, k': u64, i': nat)
    requires CandidateText(k, i) == CandidateText(k', i')
    ensures k == k' && i == i'
  {
    hide Decimal.Digits;
    Decimal.DigitsCut(k, k', [45] + Decimal.Digits(i), [45] + Decimal.Digits(i'));
    assert Decimal.Digits(i) == ([45] + Decimal.Digits(i))[1..];
    assert Decimal.Digits(i') == ([45] + Decimal.Digits(i'))[1..];
    Decimal.DigitsInjective(i, i');
  }

  lemma PointAt(hash: bytes -> u64, k: u64, n: nat, i: nat)
    requires i < n
    ensures Points(hash, k, n)[i] == hash(CandidateText(k, i))
  {
    hide Decimal.Digits;
    assert Decimal.Digits(k) + [DASH] + Decimal.Digits(i) == CandidateText(k, i);
  }

  /** Two different texts with one hash. */
  predicate Collide(hash: bytes -> u64, a: bytes, b: bytes) {
    a != b && hash(a) == hash(b)
  }

  /** Two candidates are one point only as the same candidate of the same key, or by a collision of `std::hash`. */
  lemma PointsMeetExactly(hash: bytes -> u64, k: u64, n: nat, i: nat, k': u64, n': nat, i': nat)
    requires i < n && i' < n'
    ensures Points(hash, k, n)[i] == Points(hash, k', n')[i'] <==>
            (k == k' && i == i') || Collide(hash, CandidateText(k, i), CandidateText(k', i'))
  {
    PointAt(hash, k, n, i);
    PointAt(hash, k', n', i');
    hide Points, CandidateText;
    if CandidateText(k, i) == CandidateText(k', i') {
      CandidateTextsDiffer(k, i, k', i');
    }
  }

  /** Every insert brings the candidates of its key hash, as `insert` does. */
  ghost predicate Genuine<V>(hash: bytes -> u64, ops: seq<Op<V>>) {
    forall i :: 0 <= i < |ops| && ops[i].Ins? ==> ops[i].points == Points(hash, ops[i].k, |ops[i].points|)
  }

  /** Among the texts that these inserts hash no two collide. */
  ghost predicate CollisionFree<V>(hash: bytes -> u64, ops: seq<Op<V>>) {
    forall x, y :: 0 <= x < |ops| && 0 <= y < |ops| && ops[x].Ins? && ops[y].Ins? ==>
      forall i, j :: 0 <= i < |ops[x].points| && 0 <= j < |ops[y].points| ==>
        !Collide(hash, CandidateText(ops[x].k, i), CandidateText(ops[y].k, j))
  }

  lemma GenuineApart<V>(hash: bytes -> u64, ops: seq<Op<V>>, x: nat, y: nat)
    requires Genuine(hash, ops) && CollisionFree(hash, ops)
    requires x < |ops| && y < |ops| && ops[x].Ins? && ops[y].Ins? && ops[x].k != ops[y].k
    ensures Disjoint(ops[x].points, ops[y].points)
  {
    hide Points, CandidateText, Collide;
    forall p | p in ops[x].points ensures p !in ops[y].points {
      if p in ops[y].points {
        var i :| 0 <= i < |ops[x].points| && ops[x].points[i] == p;
        var j :| 0 <= j < |ops[y].points| && ops[y].points[j] == p;
        PointsMeetExactly(hash, ops[x].k, |ops[x].points|, i, ops[y].k, |ops[y].points|, j);
        assert false;
      }
    }
  }

  /** Without collisions candidates of different keys never meet. */
  lemma CollisionFreeApart<V>(hash: bytes -> u64, ops: seq<Op<V>>)
    requires Genuine(hash, ops) && CollisionFree(hash, ops)
    ensures Apart<V>(ops, map[])
  {
    forall x, y | 0 <= x < |ops| && 0 <= y < |ops| && ops[x].Ins? && ops[y].Ins? && ops[x].k != ops[y].k
      ensures Disjoint(ops[x].points, ops[y].points)
    {
      GenuineApart(hash, ops, x, y);
    }
  }

  /** And all candidates of one key are different points. */
  lemma PointsDistinct(hash: bytes -> u64, k: u64, n: nat)
    requires forall i, j :: 0 <= i < n && 0 <= j < n ==> !Collide(hash, CandidateText(k, i), CandidateText(k, j))
    ensures NoDuplicates(Points(hash, k, n))
  {
    hide CandidateText, Collide;
    forall i, j | 0 <= i < j < n ensures Points(hash, k, n)[i] != Points(hash, k, n)[j] {
      PointsMeetExactly(hash, k, n, i, k, n, j);
    }
  }

  lemma {:induction false} FreeOfDistinct<V>(points: seq<u64>)
    requires NoDuplicates(points)
    ensures Free<V>(map[], points) == points
  {
    if points != [] {
      var front := points[..|points| - 1];
      assert points == front + [points[|points| - 1]];
      FreeOfDistinct<V>(front);
    }
  }

  /**
   History independence of the ring the code builds: without collisions among the texts hashed, two
   histories of inserts and erases with the same live keys leave the same ring.
   */
  lemma HashedHistoryIndependent<V>(hash: bytes -> u64, ops: seq<Op<V>>, ops': seq<Op<V>>)
    requires Genuine(hash, ops) && CollisionFree(hash, ops) && Genuine(hash, ops') && CollisionFree(hash, ops')
    requires ExecLive<V>(EmptyRing(), map[], ops) == ExecLive<V>(EmptyRing(), map[], ops')
    ensures Exec<V>(EmptyRing(), ops) == Exec<V>(EmptyRing(), ops')
  {
    CollisionFreeApart(hash, ops);
    CollisionFreeApart(hash, ops');
    hide Genuine, CollisionFree;
    SameLiveSameRing(ops, ops');
  }

  /** The live keys come from inserts of the history. */
  lemma {:induction false} LiveFromInsert<V>(r: Ring<V>, live: map<u64, Owner<V>>, ops: seq<Op<V>>, k: u64)
    requires k in ExecLive(r, live, ops)
    ensures var owner := ExecLive(r, live, ops)[k];
            (k in live && live[k] == owner) || Ins(k, owner.points, owner.value) in ops
    decreases |ops|
  {
    if ops != [] {
      hide Inserted, Erased, Free;
      LiveFromInsert(Apply(r, ops[0]), ApplyLive(r, live, ops[0]), ops[1..], k);
    }
  }

  /** And every live key owns all its candidates, in order: `vir_count` points, none lost to another key. */
  lemma LiveOwnsAll<V>(hash: bytes -> u64, ops: seq<Op<V>>, k: u64)
    requires Genuine(hash, ops) && CollisionFree(hash, ops) && k in ExecLive<V>(EmptyRing(), map[], ops)
    ensures var r, owner := Exec<V>(EmptyRing(), ops), ExecLive<V>(EmptyRing(), map[], ops)[k];
            && k in r.vir && r.vir[k] == owner.points == Points(hash, k, |owner.points|)
            && forall p :: p in owner.points ==> p in r.table && r.table[p] == owner.value
  {
    var owner := ExecLive<V>(EmptyRing(), map[], ops)[k];
    CollisionFreeApart(hash, ops);
    HistoryIndependent<V>(EmptyRing(), map[], ops);
    LiveFromInsert<V>(EmptyRing(), map[], ops, k);
    var x :| 0 <= x < |ops| && ops[x] == Ins(k, owner.points, owner.value);
    hide Points, CandidateText, Collide, Exec, ExecLive, Free;
    forall i, j | 0 <= i < |owner.points| && 0 <= j < |owner.points|
      ensures !Collide(hash, CandidateText(k, i), CandidateText(k, j))
    {
      assert ops[x].k == k && ops[x].points == owner.points;
    }
    PointsDistinct(hash, k, |owner.points|);
    FreeOfDistinct<V>(owner.points);
  }

  // ---- The object ----

  class ConHashTable<K, V(0)> {
    const keyHash: K -> u64
    const strHash: bytes -> u64
    const default: V
    var table: map<u64, V>
    var virTable: map<u64, seq<u64>>

    constructor (keyHash: K -> u64, strHash: bytes -> u64, default: V)
      ensures this.keyHash == keyHash && this.strHash == strHash && this.default == default
      ensures Value() == EmptyRing()
    {
      this.keyHash, this.strHash, this.default := keyHash, strHash, default;
      table, virTable := map[], map[];
    }

    function Value(): Ring<V>
      reads this
    {
      Ring(table, virTable)
    }

    /** Returns how many points the key won; 0 means nothing changed. */
    method Insert(key: K, value: V, virCount: nat) returns (count: nat)
      modifies this
      ensures var k := keyHash(key);
              Value() == Inserted(old(Value()), k, Points(strHash, k, virCount), value)
      ensures count == 0 <==> Value() == old(Value())
      ensures count > 0 ==> keyHash(key) in virTable && count == |virTable[keyHash(key)]|
    {
      var oriHashcode := keyHash(key);
      if oriHashcode in virTable {
        return 0;
      }
      ghost var points := Points(strHash, oriHashcode, virCount);
      var virList := [];
      var oriStr := Decimal.Digits(oriHashcode);
      var i := 0;
      while i < virCount
        invariant 0 <= i <= virCount
        invariant virList == Free(old(table), points[..i])
        invariant table == Place(old(table), virList, value)
        invariant virTable == old(virTable)
      {
        var hashcode := strHash(oriStr + [DASH] + Decimal.Digits(i));
        assert points[i] == hashcode;
        FreeOneMore(old(table), points, i, value);
        hide Points, Free, Place, Decimal.Digits;
        if hashcode !in table {
          table := table[hashcode := value];
          virList := virList + [hashcode];
        }
        i := i + 1;
      }
      assert points[..virCount] == points;
      if virList == [] {
        assert table == old(table);
        return 0;
      }
      FreeContents(old(table), points);
      assert virList[0] in table && virList[0] !in old(table);
      virTable := virTable[oriHashcode := virList];
      return |virList|;
    }

    method Erase(key: K) returns (found: bool)
      modifies this
      ensures Value() == Erased(old(Value()), keyHash(key))
      ensures found <==> keyHash(key) in old(virTable)
    {
      var oriHashcode := keyHash(key);
      if oriHashcode !in virTable {
        return false;
      }
      var virList := virTable[oriHashcode];
      var i := 0;
      while i < |virList|
        invariant 0 <= i <= |virList|
        invariant table == old(table) - (set p | p in virList[..i])
        invariant virTable == old(virTable)
      {
        table := table - {virList[i]};
        i := i + 1;
      }
      assert virList[..|virList|] == virList;
      virTable := virTable - {oriHashcode};
      return true;
    }

    method HGet(hashCode: u64) returns (v: V)
      ensures v == Lookup(table, hashCode, default)
    {
      if table == map[] {
        return default;
      }
      var later := set x | x in table && hashCode <= x;
      assert later == set x | x in table.Keys && hashCode <= x;
      if later != {} {
        var p := Least(later);
        return table[p];
      }
      assert table.Keys != {} by { var p :| p in table; assert p in table.Keys; }
      var p := Least(table.Keys);
      return table[p];
    }

    method Get(key: K) returns (v: V)
      ensures v == Lookup(table, keyHash(key), default)
    {
      v := HGet(keyHash(key));
    }
  }
}
