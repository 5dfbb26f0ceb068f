/**
 Server addresses as ZooKeeper node names: `proto://addr` is stored as `addr:proto`. The naming
 functions decide whether two child nodes can ever stand for the same transport.
 */
module NodeName {
  import opened Prelude

  const SCHEME: string := "://"
  const DEFAULT_PROTO: string := "TCP"

  /** The last position of `c`, or -1. */
  function LastIndexOf(s: string, c: char): (i: int)
    ensures -1 <= i < |s|
    ensures i >= 0 ==> s[i] == c
  {
    if s == [] then -1
    else if s[|s| - 1] == c then |s| - 1
    else LastIndexOf(s[..|s| - 1], c)
  }

  lemma {:induction false} LastIndexAt(front: string, c: char, back: string)
    requires c !in back
    ensures LastIndexOf(front + [c] + back, c) == |front|
  {
    if back != [] {
      var init := back[..|back| - 1];
      assert back == init + [back[|back| - 1]];
      assert (front + [c] + back)[..|front| + 1 + |init|] == front + [c] + init;
      LastIndexAt(front, c, init);
    }
  }

  /** The text around the last `c`. */
  lemma {:induction false} LastIndexSplits(s: string, c: char)
    ensures var i := LastIndexOf(s, c);
            if i < 0 then c !in s else s == s[..i] + [c] + s[i + 1..] && c !in s[i + 1..]
  {
    if s != [] && s[|s| - 1] != c {
      var init := s[..|s| - 1];
      assert s == init + [s[|s| - 1]];
      LastIndexSplits(init, c);
    }
  }

  /** What the pattern `((.*)://)?([^/]+)` captures: an optional protocol and an address. */
  datatype Parts = Parts(proto: Option<string>, addr: string)

  /** The pattern read as a relation between the whole text and its captures. */
  predicate Matches(url: string, parts: Parts) {
    && parts.addr != "" && '/' !in parts.addr
    && url == (if parts.proto.Some? then parts.proto.value + SCHEME else "") + parts.addr
  }

  /** The match, found from the last slash. */
  function Parse(url: string): Option<Parts> {
    var i := LastIndexOf(url, '/');
    if i + 1 == |url| then None
    else if i < 0 then Some(Parts(None, url))
    else if i >= 2 && url[i - 2..i + 1] == SCHEME then Some(Parts(Some(url[..i - 2]), url[i + 1..]))
    else None
  }

  /** A text matches in at most one way, and `Parse` finds it. */
  lemma ParseMatchesExactly(url: string, parts: Parts)
    ensures Parse(url) == Some(parts) <==> Matches(url, parts)
  {
    if Parse(url) == Some(parts) {
      ParsedMatches(url, parts);
    }
    if Matches(url, parts) {
      MatchIsParsed(url, parts);
    }
  }

  lemma ParsedMatches(url: string, parts: Parts)
    requires Parse(url) == Some(parts)
    ensures Matches(url, parts)
  {
    LastIndexSplits(url, '/');
    var i := LastIndexOf(url, '/');
    hide LastIndexOf;
    if i >= 0 {
      assert url == url[..i - 2] + url[i - 2..i + 1] + url[i + 1..];
    }
  }

  lemma MatchIsParsed(url: string, parts: Parts)
    requires Matches(url, parts)
    ensures Parse(url) == Some(parts)
  {
    hide LastIndexOf;
    if parts.proto.Some? {
      var front, i := parts.proto.value + ":/", |parts.proto.value| + 2;
      assert url == front + ['/'] + parts.addr;
      LastIndexAt(front, '/', parts.addr);
      assert url[i - 2..i + 1] == SCHEME;
      assert url[..i - 2] == parts.proto.value && url[i + 1..] == parts.addr;
    } else {
      assert url == parts.addr;
      LastIndexSplits(url, '/');
    }
  }

  function Url2ZookeeperNode(url: string): string {
    match Parse(url)
    case None => ""
    case Some(parts) =>
      parts.addr + ":" + if parts.proto.None? || parts.proto.value == "" then DEFAULT_PROTO else parts.proto.value
  }

  function ZookeeperNode2Url(node: string): string {
    var pos := LastIndexOf(node, ':');
    if pos < 0 then "" else node[pos + 1..] + SCHEME + node[..pos]
  }

  lemma NodeOf(url: string, parts: Parts)
    requires Matches(url, parts)
    ensures Url2ZookeeperNode(url) == parts.addr + ":" +
              if parts.proto.None? || parts.proto.value == "" then DEFAULT_PROTO else parts.proto.value
  {
    ParseMatchesExactly(url, parts);
  }

  lemma UrlOf(addr: string, proto: string)
    requires ':' !in proto
    ensures ZookeeperNode2Url(addr + ":" + proto) == proto + SCHEME + addr
  {
    LastIndexAt(addr, ':', proto);
    assert (addr + ":" + proto)[..|addr|] == addr && (addr + ":" + proto)[|addr| + 1..] == proto;
  }

  // ---- Round trips ----

  /** Every `proto://addr` with a non-empty colon-free protocol survives the trip through a node. */
  lemma UrlRoundTrip(proto: string, addr: string)
    requires proto != "" && ':' !in proto && addr != "" && '/' !in addr
    ensures Url2ZookeeperNode(proto + "://" + addr) == addr + ":" + proto
    ensures ZookeeperNode2Url(Url2ZookeeperNode(proto + "://" + addr)) == proto + "://" + addr
  {
    NodeOf(proto + SCHEME + addr, Parts(Some(proto), addr));
    UrlOf(addr, proto);
  }

  /** With a slash-free protocol the URL survives exactly when the protocol is non-empty and colon-free. */
  lemma UrlRoundTripExactly(proto: string, addr: string)
    requires '/' !in proto && addr != "" && '/' !in addr
    ensures ZookeeperNode2Url(Url2ZookeeperNode(proto + SCHEME + addr)) == proto + SCHEME + addr
       <==> proto != "" && ':' !in proto
  {
    var url := proto + SCHEME + addr;
    NodeOf(url, Parts(Some(proto), addr));
    if proto == "" {
      UrlOf(addr, DEFAULT_PROTO);
      assert ZookeeperNode2Url(Url2ZookeeperNode(url))[0] == 'T';
    } else if ':' in proto {
      ColonMovesSlash(proto, addr);
    } else {
      UrlRoundTrip(proto, addr);
    }
  }

  /** A colon in the protocol moves what stands before it behind the address. */
  lemma ColonMovesSlash(proto: string, addr: string)
    requires '/' !in proto && ':' in proto && addr != "" && '/' !in addr
    ensures ZookeeperNode2Url(addr + ":" + proto) != proto + SCHEME + addr
  {
    LastIndexSplits(proto, ':');
    var pos := LastIndexOf(proto, ':');
    hide LastIndexOf, ZookeeperNode2Url;
    var front, back := proto[..pos], proto[pos + 1..];
    assert proto == front + ":" + back;
    assert addr + ":" + proto == (addr + ":" + front) + ":" + back;
    UrlOf(addr + ":" + front, back);
    var moved := back + SCHEME + (addr + ":" + front);
    assert moved == (back + ":/") + ['/'] + (addr + ":" + front);
    assert proto + SCHEME + addr == (proto + ":/") + ['/'] + addr;
    LastIndexAt(back + ":/", '/', addr + ":" + front);
    LastIndexAt(proto + ":/", '/', addr);
  }

  /** Slashes in the protocol can hide the loss: here a colon in the protocol does no harm. */
  lemma ColonWithSlashes()
    ensures var url := "//a://a://a";
            Parse(url) == Some(Parts(Some("//a://a"), "a")) && ZookeeperNode2Url(Url2ZookeeperNode(url)) == url
  {
    var url := "//a://a://a";
    NodeOf(url, Parts(Some("//a://a"), "a"));
    ParseMatchesExactly(url, Parts(Some("//a://a"), "a"));
    assert Url2ZookeeperNode(url) == "a://a" + ":" + "//a";
    UrlOf("a://a", "//a");
  }

  /** An address without a scheme comes back with the default one. */
  lemma PlainAddress(addr: string)
    requires addr != "" && '/' !in addr
    ensures Url2ZookeeperNode(addr) == addr + ":TCP" && ZookeeperNode2Url(addr + ":TCP") == "TCP://" + addr
  {
    hide Url2ZookeeperNode, ZookeeperNode2Url;
    NodeOf(addr, Parts(None, addr));
    UrlOf(addr, DEFAULT_PROTO);
    Tagged(addr);
    assert DEFAULT_PROTO + SCHEME == "TCP://";
  }

  lemma Tagged(addr: string)
    ensures addr + ":" + DEFAULT_PROTO == addr + ":TCP"
  {
  }

  /** And so does one with an empty scheme. */
  lemma EmptyProtocol(addr: string)
    requires addr != "" && '/' !in addr
    ensures Url2ZookeeperNode("://" + addr) == addr + ":TCP"
  {
    hide Url2ZookeeperNode;
    assert "" + SCHEME + addr == "://" + addr;
    NodeOf("://" + addr, Parts(Some(""), addr));
    Tagged(addr);
  }

  /** The converse, for nodes whose address part has no slash. */
  lemma NodeRoundTripExactly(addr: string, proto: string)
    requires '/' !in addr && ':' !in proto
    ensures Url2ZookeeperNode(ZookeeperNode2Url(addr + ":" + proto)) == addr + ":" + proto
       <==> addr != "" && proto != ""
  {
    UrlOf(addr, proto);
    var url := proto + SCHEME + addr;
    if addr != "" {
      NodeOf(url, Parts(Some(proto), addr));
    } else {
      assert url == (proto + ":/") + ['/'] + "";
      LastIndexAt(proto + ":/", '/', "");
    }
  }

  // ---- Distinct nodes, distinct URLs ----

  /** Two nodes share a URL only when they are the same node or neither contains a colon. */
  lemma SameUrlExactly(n: string, m: string)
    ensures ZookeeperNode2Url(n) == ZookeeperNode2Url(m) <==> n == m || (':' !in n && ':' !in m)
  {
    var i, j := LastIndexOf(n, ':'), LastIndexOf(m, ':');
    LastIndexSplits(n, ':');
    LastIndexSplits(m, ':');
    hide LastIndexOf;
    if i >= 0 && j >= 0 && ZookeeperNode2Url(n) == ZookeeperNode2Url(m) {
      SplitAtColon(n[i + 1..], n[..i], m[j + 1..], m[..j]);
    }
  }

  /** A node without a colon, and no other, has the empty URL. */
  lemma EmptyUrlExactly(n: string)
    ensures ZookeeperNode2Url(n) == "" <==> ':' !in n
  {
    LastIndexSplits(n, ':');
    hide LastIndexOf;
  }

  /** A URL with a colon-free protocol determines protocol and address. */
  lemma SplitAtColon(proto: string, addr: string, proto': string, addr': string)
    requires ':' !in proto && ':' !in proto' && proto + SCHEME + addr == proto' + SCHEME + addr'
    ensures proto == proto' && addr == addr'
  {
    var url := proto + SCHEME + addr;
    assert url[|proto|] == ':' && url[|proto'|] == ':';
    assert proto == url[..|proto|] && proto' == url[..|proto'|];
    if |proto| < |proto'| {
      assert false;
    } else if |proto'| < |proto| {
      assert false;
    }
    assert addr == url[|proto| + 3..] && addr' == url[|proto'| + 3..];
  }

  predicate Distinct(s: seq<string>) {
    forall i, j :: 0 <= i < j < |s| ==> s[i] != s[j]
  }

  function Urls(nodes: seq<string>): (urls: seq<string>)
    ensures |urls| == |nodes|
  {
    seq(|nodes|, i requires 0 <= i < |nodes| => ZookeeperNode2Url(nodes[i]))
  }

  /** ZooKeeper's child names are distinct; their URLs are so exactly when at most one lacks a colon. */
  lemma UrlsDistinctExactly(nodes: seq<string>)
    requires Distinct(nodes)
    ensures Distinct(Urls(nodes))
       <==> forall i, j :: 0 <= i < j < |nodes| ==> ':' in nodes[i] || ':' in nodes[j]
  {
    forall i, j | 0 <= i < j < |nodes|
      ensures Urls(nodes)[i] == Urls(nodes)[j] <==> ':' !in nodes[i] && ':' !in nodes[j]
    {
      SameUrlExactly(nodes[i], nodes[j]);
    }
  }

  /** Servers register nodes that contain a colon, or the empty name for a URL that does not parse. */
  lemma RegisteredNodes(url: string)
    ensures Url2ZookeeperNode(url) == "" <==> Parse(url).None?
    ensures Url2ZookeeperNode(url) != "" ==> ':' in Url2ZookeeperNode(url)
  {
    if Parse(url).Some? {
      var parts := Parse(url).value;
      ParseMatchesExactly(url, parts);
      assert Url2ZookeeperNode(url)[|parts.addr|] == ':';
    }
  }
}
