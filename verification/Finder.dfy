/**
 `ServerFinder::OnZookeeperChilds`: the live transports follow ZooKeeper's child list. Transports of
 nodes still listed are swapped into a new map, new nodes get a new transport, and what is left in
 the old map is shut down. A transport is its creation number.
 */
module Finder {
  import opened Prelude
  import opened NodeName

  /** `TransportGroup`: a key may hold an empty pointer. */
  type Group = map<string, Option<nat>>

  function One(slot: Option<nat>): multiset<nat> {
    if slot.Some? then multiset{slot.value} else multiset{}
  }

  function At(g: Group, url: string): Option<nat> {
    if url in g then g[url] else None
  }

  /** All transports a group holds, with multiplicity. */
  ghost function Held(g: Group): multiset<nat>
    decreases |g|
  {
    if g == map[] then multiset{}
    else
      var url :| url in g;
      One(g[url]) + Held(g - {url})
  }

  function Hit(slot: Option<nat>, tp: nat): nat {
    if slot == Some(tp) then 1 else 0
  }

  lemma {:induction false} HeldWithout(g: Group, url: string, tp: nat)
    requires url in g
    ensures Held(g)[tp] == Hit(g[url], tp) + Held(g - {url})[tp]
    decreases |g|
  {
    var first := HeldUnfolds(g, tp);
    hide Held;
    if first != url {
      WithoutTwo(g, first, url);
      WithoutTwo(g, url, first);
      HeldWithout(g - {first}, url, tp);
      HeldWithout(g - {url}, first, tp);
    }
  }

  lemma WithoutTwo(g: Group, a: string, b: string)
    requires a in g && b in g && a != b
    ensures b in g - {a} && (g - {a})[b] == g[b] && |g - {a}| < |g|
    ensures g - {a} - {b} == g - {b} - {a}
  {
  }

  lemma HeldUnfolds(g: Group, tp: nat) returns (first: string)
    requires g != map[]
    ensures first in g && Held(g)[tp] == Hit(g[first], tp) + Held(g - {first})[tp]
  {
    first :| first in g && Held(g) == One(g[first]) + Held(g - {first});
    hide Held;
    assert One(g[first])[tp] == Hit(g[first], tp);
  }

  /** Shutting down one transport of the group. */
  lemma HeldOneLess(before: multiset<nat>, g: Group, url: string)
    requires url in g
    ensures before + One(g[url]) + Held(g - {url}) == before + Held(g)
  {
    forall tp: nat
      ensures (before + One(g[url]) + Held(g - {url}))[tp] == (before + Held(g))[tp]
    {
      HeldWithout(g, url, tp);
      hide Held;
      assert One(g[url])[tp] == Hit(g[url], tp);
    }
  }

  lemma HeldUpdate(g: Group, url: string, slot: Option<nat>, tp: nat)
    ensures Held(g[url := slot])[tp] + Hit(At(g, url), tp) == Held(g)[tp] + Hit(slot, tp)
  {
    hide Held;
    HeldWithout(g[url := slot], url, tp);
    assert g[url := slot] - {url} == g - {url};
    if url in g {
      HeldWithout(g, url, tp);
    } else {
      assert g - {url} == g;
    }
  }

  // ---- One update ----

  /** The loop's variables: the new group, the old one, how many transports were created. */
  datatype Pass = Pass(group: Group, was: Group, created: nat)

  function Visit(p: Pass, url: string): Pass {
    if url in p.was then
      Pass(p.group[url := p.was[url]], p.was[url := At(p.group, url)], p.created)
    else
      Pass(p.group[url := Some(p.created)], p.was, p.created + 1)
  }

  function Visits(p: Pass, urls: seq<string>): Pass {
    if urls == [] then p else Visit(Visits(p, urls[..|urls| - 1]), urls[|urls| - 1])
  }

  lemma VisitsOneMore(p: Pass, urls: seq<string>, i: nat)
    requires i < |urls|
    ensures Visits(p, urls[..i + 1]) == Visit(Visits(p, urls[..i]), urls[i])
  {
    assert urls[..i + 1][..i] == urls[..i];
  }

  /** The object between updates; `shut` counts the shutdowns of each transport. */
  datatype Roster = Roster(live: Group, created: nat, shut: multiset<nat>)

  const EMPTY := Roster(map[], 0, multiset{})

  ghost function Update(r: Roster, urls: seq<string>): Roster {
    var p := Visits(Pass(map[], r.live, r.created), urls);
    Roster(p.group, p.created, r.shut + Held(p.was))
  }

  // ---- What one update does, for any list ----

  function Count(urls: seq<string>, url: string): nat {
    multiset(urls)[url]
  }

  lemma CountMore(urls: seq<string>, url: string)
    requires urls != []
    ensures var k := |urls| - 1;
            Count(urls, url) == Count(urls[..k], url) + if urls[k] == url then 1 else 0
  {
    assert urls == urls[..|urls| - 1] + [urls[|urls| - 1]];
  }

  /** After an even number of swaps a listed transport is back in the old group, after an odd number it moved. */
  lemma {:induction false} SwapParity(live: Group, created: nat, urls: seq<string>, url: string)
    requires url in live
    ensures var p := Visits(Pass(map[], live, created), urls);
            && p.was.Keys == live.Keys
            && (url in p.group <==> Count(urls, url) > 0)
            && At(p.group, url) == (if Count(urls, url) % 2 == 1 then live[url] else None)
            && p.was[url] == (if Count(urls, url) % 2 == 1 then None else live[url])
  {
    if urls != [] {
      var k := |urls| - 1;
      CountMore(urls, url);
      SwapParity(live, created, urls[..k], url);
    }
  }

  /** A new URL is in the new group with the transport created at its last occurrence. */
  lemma {:induction false} NewUrls(live: Group, created: nat, urls: seq<string>, url: string)
    requires url !in live
    ensures var p := Visits(Pass(map[], live, created), urls);
            && p.was.Keys == live.Keys && p.created >= created
            && (url in p.group <==> Count(urls, url) > 0)
            && (url in p.group ==> p.group[url].Some? && created <= p.group[url].value < p.created)
  {
    if urls != [] {
      var k := |urls| - 1;
      CountMore(urls, url);
      NewUrls(live, created, urls[..k], url);
    }
  }

  /** Whatever the list, the group's keys are the listed URLs. */
  lemma KeysFollowList(r: Roster, urls: seq<string>)
    ensures forall url :: url in Update(r, urls).live <==> url in urls
  {
    forall url
      ensures url in Update(r, urls).live <==> url in urls
    {
      if url in r.live {
        SwapParity(r.live, r.created, urls, url);
      } else {
        NewUrls(r.live, r.created, urls, url);
      }
      assert url in urls <==> url in multiset(urls);
    }
  }

  /** A listed URL keeps its transport exactly when it is listed an odd number of times. */
  lemma KeptExactly(r: Roster, urls: seq<string>, url: string)
    requires url in r.live && r.live[url].Some? && url in urls
    ensures var r' := Update(r, urls);
            url in r'.live && (r'.live[url] == r.live[url] <==> Count(urls, url) % 2 == 1)
  {
    assert url in multiset(urls);
    SwapParity(r.live, r.created, urls, url);
  }

  // ---- Conservation ----

  /**
   How often transport `tp` was created in the loop and then overwritten in the new group: created,
   never kept, never shut down.
   */
  function Dropped(p: Pass, urls: seq<string>, tp: nat): nat {
    if urls == [] then 0
    else
      var q, url := Visits(p, urls[..|urls| - 1]), urls[|urls| - 1];
      Dropped(p, urls[..|urls| - 1], tp) + if url in q.was then 0 else Hit(At(q.group, url), tp)
  }

  lemma VisitConserves(p: Pass, url: string, tp: nat)
    ensures var q := Visit(p, url);
            Held(q.group)[tp] + Held(q.was)[tp] + (if url in p.was then 0 else Hit(At(p.group, url), tp)) ==
              Held(p.group)[tp] + Held(p.was)[tp] + if url !in p.was && tp == p.created then 1 else 0
  {
    hide Held;
    if url in p.was {
      HeldUpdate(p.group, url, p.was[url], tp);
      HeldUpdate(p.was, url, At(p.group, url), tp);
    } else {
      HeldUpdate(p.group, url, Some(p.created), tp);
    }
  }

  /** Swapping loses nothing; only an overwritten new entry drops out. */
  lemma {:induction false} VisitsConserve(p: Pass, urls: seq<string>, tp: nat)
    ensures var q := Visits(p, urls);
            && p.created <= q.created
            && Held(q.group)[tp] + Held(q.was)[tp] + Dropped(p, urls, tp) ==
                 Held(p.group)[tp] + Held(p.was)[tp] + if p.created <= tp < q.created then 1 else 0
  {
    hide Held;
    if urls != [] {
      var k := |urls| - 1;
      VisitsConserve(p, urls[..k], tp);
      VisitConserves(Visits(p, urls[..k]), urls[k], tp);
    }
  }

  /** Every transport ever created is in the group once, or has been shut down exactly once. */
  ghost predicate Conserved(r: Roster) {
    forall tp: nat :: Held(r.live)[tp] + r.shut[tp] == if tp < r.created then 1 else 0
  }

  /** No URL that is new to the roster is listed twice. */
  predicate NewOnce(live: Group, urls: seq<string>) {
    forall url :: url in urls && url !in live ==> Count(urls, url) == 1
  }

  lemma {:induction false} NothingDropped(live: Group, created: nat, urls: seq<string>, tp: nat)
    requires NewOnce(live, urls)
    ensures Dropped(Pass(map[], live, created), urls, tp) == 0
  {
    if urls != [] {
      var init, last := urls[..|urls| - 1], urls[|urls| - 1];
      NewOnceMore(live, urls);
      NothingDropped(live, created, init, tp);
      LastSlot(live, created, init, last);
    }
  }

  lemma {:induction false} SomethingDropped(live: Group, created: nat, urls: seq<string>) returns (tp: nat)
    requires !NewOnce(live, urls)
    ensures Dropped(Pass(map[], live, created), urls, tp) > 0
  {
    var init, last := urls[..|urls| - 1], urls[|urls| - 1];
    NewOnceMore(live, urls);
    if NewOnce(live, init) {
      LastSlot(live, created, init, last);
      tp := Visits(Pass(map[], live, created), init).group[last].value;
    } else {
      tp := SomethingDropped(live, created, init);
    }
  }

  /** Before the last visit: where its URL stands. */
  lemma LastSlot(live: Group, created: nat, init: seq<string>, last: string)
    ensures var p := Visits(Pass(map[], live, created), init);
            && p.was.Keys == live.Keys
            && (last !in live ==> if last in init then At(p.group, last).Some? else At(p.group, last).None?)
  {
    assert last in init <==> last in multiset(init);
    if last in live {
      SwapParity(live, created, init, last);
    } else {
      NewUrls(live, created, init, last);
    }
  }

  lemma NewOnceMore(live: Group, urls: seq<string>)
    requires urls != []
    ensures var k := |urls| - 1;
            NewOnce(live, urls) <==> NewOnce(live, urls[..k]) && (urls[k] in live || urls[k] !in urls[..k])
  {
    var k := |urls| - 1;
    assert urls == urls[..k] + [urls[k]];
    forall url
      ensures url in urls <==> url in urls[..k] || url == urls[k]
      ensures Count(urls, url) == Count(urls[..k], url) + if urls[k] == url then 1 else 0
      ensures url in urls[..k] <==> Count(urls[..k], url) > 0
    {
      CountMore(urls, url);
      assert url in urls[..k] <==> url in multiset(urls[..k]);
    }
    hide Count;
    if NewOnce(live, urls) {
      forall url | url in urls[..k] && url !in live
        ensures Count(urls[..k], url) == 1
      {
        assert url in urls;
      }
    }
  }

  lemma ShutAfter(r: Roster, urls: seq<string>, tp: nat)
    ensures Update(r, urls).shut[tp] == r.shut[tp] + Held(Visits(Pass(map[], r.live, r.created), urls).was)[tp]
  {
  }

  /** An update conserves transports exactly when no new URL is listed twice. */
  lemma UpdateConservesExactly(r: Roster, urls: seq<string>)
    requires Conserved(r)
    ensures Conserved(Update(r, urls)) <==> NewOnce(r.live, urls)
  {
    var p, r' := Pass(map[], r.live, r.created), Update(r, urls);
    forall tp: nat
      ensures Held(r'.live)[tp] + r'.shut[tp] + Dropped(p, urls, tp) == if tp < r'.created then 1 else 0
    {
      VisitsConserve(p, urls, tp);
      ShutAfter(r, urls, tp);
    }
    hide Update, Held;
    if NewOnce(r.live, urls) {
      forall tp: nat
        ensures Held(r'.live)[tp] + r'.shut[tp] == if tp < r'.created then 1 else 0
      {
        NothingDropped(r.live, r.created, urls, tp);
      }
    } else {
      var tp := SomethingDropped(r.live, r.created, urls);
      assert Held(r'.live)[tp] + r'.shut[tp] + Dropped(p, urls, tp) == if tp < r'.created then 1 else 0;
    }
  }

  // ---- Any sequence of updates with distinct URLs ----

  ghost function History(r: Roster, lists: seq<seq<string>>): Roster {
    if lists == [] then r else Update(History(r, lists[..|lists| - 1]), lists[|lists| - 1])
  }

  /** What every update with distinct URLs keeps. */
  ghost predicate Good(r: Roster) {
    && Conserved(r)
    && (forall url :: url in r.live ==> r.live[url].Some? && r.live[url].value < r.created)
    && (forall url, url' :: url in r.live && url' in r.live && url != url' ==> r.live[url] != r.live[url'])
  }

  lemma DistinctCounts(urls: seq<string>, url: string)
    requires Distinct(urls) && url in urls
    ensures Count(urls, url) == 1
  {
    var i :| 0 <= i < |urls| && urls[i] == url;
    assert urls == urls[..i] + [urls[i]] + urls[i + 1..];
    assert url !in urls[..i] && url !in urls[i + 1..];
    assert multiset(urls[..i])[url] == 0 && multiset(urls[i + 1..])[url] == 0;
  }

  /** What a kept URL holds after the update: its own transport; a new one: a transport created since. */
  lemma SlotAfter(r: Roster, urls: seq<string>, url: string)
    requires Distinct(urls) && Good(r) && url in urls
    ensures var r' := Update(r, urls);
            && url in r'.live && r'.live[url].Some? && r.created <= r'.created
            && (if url in r.live then r'.live[url] == r.live[url]
                else r.created <= r'.live[url].value < r'.created)
  {
    assert url in r.live ==> r.live[url].Some?;
    DistinctCounts(urls, url);
    hide Count, Held, Visits, Good, Distinct, Dropped;
    SlotOfOnce(r.live, r.created, urls, url);
  }

  /** Where a URL listed once stands after the loop. */
  lemma SlotOfOnce(live: Group, created: nat, urls: seq<string>, url: string)
    requires Count(urls, url) == 1 && (url in live ==> live[url].Some?)
    ensures var p := Visits(Pass(map[], live, created), urls);
            && url in p.group && p.group[url].Some? && created <= p.created
            && (if url in live then p.group[url] == live[url] else created <= p.group[url].value < p.created)
  {
    hide Count, Held, Visits, Dropped;
    VisitsConserve(Pass(map[], live, created), urls, 0);
    if url in live {
      SwapParity(live, created, urls, url);
    } else {
      NewUrls(live, created, urls, url);
    }
  }

  lemma TwoHeld(g: Group, url: string, url': string)
    requires url in g && url' in g && url != url' && g[url].Some? && g[url] == g[url']
    ensures Held(g)[g[url].value] >= 2
  {
    HeldWithout(g, url, g[url].value);
    HeldWithout(g - {url}, url', g[url].value);
  }

  lemma UpdateKeepsGood(r: Roster, urls: seq<string>)
    requires Good(r) && Distinct(urls)
    ensures Good(Update(r, urls))
  {
    hide Update, Held, Conserved, Count;
    var r' := Update(r, urls);
    forall url | url in urls && url !in r.live
      ensures Count(urls, url) == 1
    {
      DistinctCounts(urls, url);
    }
    UpdateConservesExactly(r, urls);
    KeysFollowList(r, urls);
    forall url | url in r'.live
      ensures r'.live[url].Some? && r'.live[url].value < r'.created
    {
      SlotAfter(r, urls, url);
    }
    forall url, url' | url in r'.live && url' in r'.live && url != url'
      ensures r'.live[url] != r'.live[url']
    {
      ConservedOnce(r', url, url');
    }
  }

  lemma ConservedOnce(r: Roster, url: string, url': string)
    requires Conserved(r) && url in r.live && url' in r.live && url != url' && r.live[url].Some?
    ensures r.live[url] != r.live[url']
  {
    if r.live[url] == r.live[url'] {
      TwoHeld(r.live, url, url');
    }
  }

  /**
   Over any sequence of child lists with distinct URLs: the keys are the last list's URLs, they hold
   distinct transports, and each transport ever created is held once or was shut down exactly once.
   */
  lemma {:induction false} Reconciliation(lists: seq<seq<string>>)
    requires forall l :: l in lists ==> Distinct(l)
    ensures var r := History(EMPTY, lists);
            && Good(r)
            && (lists != [] ==> forall url :: url in r.live <==> url in lists[|lists| - 1])
            && (forall tp: nat :: tp < r.created ==> Held(r.live)[tp] + r.shut[tp] == 1)
  {
    var r := History(EMPTY, lists);
    if lists != [] {
      var k := |lists| - 1;
      Reconciliation(lists[..k]);
      assert Distinct(lists[k]);
      UpdateKeepsGood(History(EMPTY, lists[..k]), lists[k]);
      KeysFollowList(History(EMPTY, lists[..k]), lists[k]);
    }
  }

  /** A URL in two consecutive lists keeps its transport, which is not shut down. */
  lemma Continuity(lists: seq<seq<string>>, url: string)
    requires |lists| >= 2 && forall l :: l in lists ==> Distinct(l)
    requires url in lists[|lists| - 2] && url in lists[|lists| - 1]
    ensures var before, after := History(EMPTY, lists[..|lists| - 1]), History(EMPTY, lists);
            && url in before.live && before.live[url].Some? && url in after.live
            && after.live[url] == before.live[url]
            && after.shut[before.live[url].value] == 0
  {
    var before, after := lists[..|lists| - 1], lists;
    Reconciliation(before);
    assert before[|before| - 1] == lists[|lists| - 2];
    Reconciliation(after);
    assert Distinct(lists[|lists| - 1]);
    SlotAfter(History(EMPTY, before), lists[|lists| - 1], url);
    HeldWithout(History(EMPTY, after).live, url, History(EMPTY, after).live[url].value);
  }

  // ---- Lists with repetitions ----

  /** A known URL listed twice loses its transport: the entry is empty and the transport shut down. */
  lemma ListedTwice(r: Roster, url: string)
    requires url in r.live && r.live[url].Some?
    ensures var r' := Update(r, [url, url]);
            r'.live == map[url := None] && r'.shut[r.live[url].value] >= r.shut[r.live[url].value] + 1
  {
    var urls := [url, url];
    assert Count(urls, url) == 2;
    KeysFollowList(r, urls);
    assert forall x :: x in Update(r, urls).live <==> x == url;
    hide Visits, Held, Count;
    var p := Visits(Pass(map[], r.live, r.created), urls);
    SwapParity(r.live, r.created, urls, url);
    ShutAfter(r, urls, r.live[url].value);
    HeldWithout(p.was, url, r.live[url].value);
    OneEntry(p.group, url, None);
  }

  lemma OneEntry(g: Group, url: string, slot: Option<nat>)
    requires (forall x :: x in g <==> x == url) && g[url] == slot
    ensures g == map[url := slot]
  {
  }

  // ---- The nodes ----

  /** ZooKeeper's distinct child names give distinct URLs when at most one of them has no colon. */
  lemma ReconcileNodes(r: Roster, nodes: seq<string>)
    requires Good(r) && Distinct(nodes)
    requires forall i, j :: 0 <= i < j < |nodes| ==> ':' in nodes[i] || ':' in nodes[j]
    ensures Good(Update(r, Urls(nodes)))
  {
    UrlsDistinctExactly(nodes);
    UpdateKeepsGood(r, Urls(nodes));
  }

  // ---- The object ----

  class ServerFinder {
    var transports: Group
    var created: nat
    var shut: multiset<nat>

    constructor ()
      ensures State() == EMPTY
    {
      transports, created, shut := map[], 0, multiset{};
    }

    function State(): Roster
      reads this
    {
      Roster(transports, created, shut)
    }

    /** `locked` is what `try_lock` on the destroy mutex gave, `alive` the token; without both nothing happens. */
    method OnZookeeperChilds(nodes: seq<string>, locked: bool, alive: bool)
      modifies this
      ensures State() == if locked && alive then Update(old(State()), Urls(nodes)) else old(State())
    {
      if !locked || !alive {
        return;
      }
      var group: Group := map[];
      ghost var start := Pass(map[], transports, created);
      assert Visits(start, Urls(nodes)[..0]) == start;
      hide Visits, ZookeeperNode2Url, Held;
      var i := 0;
      while i < |nodes|
        invariant 0 <= i <= |nodes|
        invariant Pass(group, transports, created) == Visits(start, Urls(nodes)[..i])
        invariant shut == old(shut)
      {
        var url := ZookeeperNode2Url(nodes[i]);
        VisitsOneMore(start, Urls(nodes), i);
        if url in transports {
          var mine := At(group, url);
          group := group[url := transports[url]];
          transports := transports[url := mine];
        } else {
          group := group[url := Some(created)];
          created := created + 1;
        }
        i := i + 1;
      }
      assert Urls(nodes)[..|nodes|] == Urls(nodes);
      var leftover := transports;
      transports := group;
      ShutDown(leftover);
    }

    /** The loop over what is left in the old map. */
    method ShutDown(group: Group)
      modifies this`shut
      ensures shut == old(shut) + Held(group)
    {
      var rest := group;
      while rest != map[]
        invariant shut + Held(rest) == old(shut) + Held(group)
        decreases |rest|
      {
        hide Held;
        var url :| url in rest;
        HeldOneLess(shut, rest, url);
        if rest[url].Some? {
          shut := shut + multiset{rest[url].value};
        }
        rest := rest - {url};
      }
    }
  }
}
