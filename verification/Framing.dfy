/**
 The frames of this protocol: a header and the body its length field announces, as both receive
 loops take them off the front of the buffer they are shown.
 */
module Framing {
  import opened Prelude
  import opened Headers
  import opened Reassembly

  datatype Frame = Frame(head: Head, body: bytes)

  /** The frame at the front of `b` when `p` is what header parsing made of `b`. */
  function Cut(b: bytes, p: Parsed): (n: Next<Frame>)
    requires p.Accept? ==> 0 < p.size <= |b|
    ensures n.One? ==> 0 < n.size <= |b|
  {
    if p.Reject? || p.size + p.head.bodyLength as int > |b| then Wait
    else
      var end := p.size + p.head.bodyLength as int;
      One(Frame(p.head, b[p.size..end]), end)
  }

  /** The next frame as the program's loops take it. */
  function Taken(kind: Kind): bytes -> Next<Frame>
  {
    b => Cut(b, ParseHead(kind, b))
  }

  /** The next frame by the wire format, free of the 16-bit cut in `UcorfHead::Parse`. */
  function OnWire(kind: Kind): bytes -> Next<Frame>
  {
    b => Cut(b, WireHead(kind, b))
  }

  lemma TakenIsOnWire(kind: Kind, b: bytes)
    ensures Taken(kind)(b).One? ==> Taken(kind)(b) == OnWire(kind)(b)
  {
    ParseMatchesWireExactly(kind, b);
  }

  /**
   A connection is stalled exactly when a whole frame is in the tail and the 16-bit cut of the
   length hides the end of its header; that takes a Ucorf tail of 65536 bytes or more.
   */
  lemma StallIsHiddenFrame(kind: Kind, pending: bytes)
    ensures Stalled(Taken(kind), OnWire(kind), pending)
       <==> HiddenByCut(kind, pending) && OnWire(kind)(pending).One?
    ensures Stalled(Taken(kind), OnWire(kind), pending) ==> kind == UcorfKind && |pending| >= TWO_16
  {
    ParseMatchesWireExactly(kind, pending);
  }

  lemma OnWireStable(kind: Kind, b: bytes, more: bytes)
    requires OnWire(kind)(b).One?
    ensures OnWire(kind)(b + more) == OnWire(kind)(b)
  {
    WireHeadStable(kind, b, more);
    var p := WireHead(kind, b);
    hide WireHead;
    SliceOfFront(b, more, p.size, p.size + p.head.bodyLength as int);
  }

  /** Both cutters meet the reassembly theory. */
  lemma Reassembles(kind: Kind)
    ensures Progresses(Taken(kind)) && Progresses(OnWire(kind))
    ensures Stable(OnWire(kind)) && Sound(Taken(kind), OnWire(kind))
  {
    forall b: bytes, more: bytes | OnWire(kind)(b).One?
      ensures OnWire(kind)(b + more) == OnWire(kind)(b)
    {
      OnWireStable(kind, b, more);
    }
    forall b: bytes ensures Taken(kind)(b).One? ==> Taken(kind)(b) == OnWire(kind)(b) {
      TakenIsOnWire(kind, b);
    }
  }

  ghost function FramesOf(kind: Kind, stream: bytes): seq<Frame>
  {
    Reassembles(kind);
    Frames(OnWire(kind), stream)
  }

  ghost function TailOf(kind: Kind, stream: bytes): bytes
  {
    Reassembles(kind);
    Tail(OnWire(kind), stream)
  }

  /** What one connection delivers and leaves over when the stream arrives in these chunks. */
  ghost function Connection(kind: Kind, chunks: seq<bytes>): Fed<Frame>
  {
    Reassembles(kind);
    Feed(Taken(kind), [], chunks)
  }

  /** For every chunking: delivered frames, then frames still in the tail, are the stream's. */
  lemma ConnectionConserves(kind: Kind, chunks: seq<bytes>)
    ensures var r := Connection(kind, chunks);
            FramesOf(kind, Flatten(chunks)) == r.frames + FramesOf(kind, r.pending)
  {
    Reassembles(kind);
    StreamConserved(Taken(kind), OnWire(kind), [], chunks);
    assert [] + Flatten(chunks) == Flatten(chunks);
  }

  // ---- Which cuttings deliver the stream ----

  function FrameSize(f: Frame): nat {
    ByteSize(f.head) + |f.body|
  }

  /**
   Whether a loop recognises `f` in a buffer that ends `n` bytes after the frame begins: all of the
   frame is there, and the 16-bit cut of `n` does not hide the end of a Ucorf header.
   */
  function Shows(kind: Kind): (Frame, nat) -> bool {
    (f: Frame, n: nat) => FrameSize(f) <= n && (kind == UcorfKind ==> ByteSize(f.head) <= n % TWO_16)
  }

  lemma WireFrameSize(kind: Kind, s: bytes)
    requires OnWire(kind)(s).One?
    ensures 0 < OnWire(kind)(s).size == FrameSize(OnWire(kind)(s).frame) <= |s|
  {
  }

  lemma WireFrameInPrefix(kind: Kind, s: bytes, n: nat)
    requires n <= |s| && OnWire(kind)(s).One? && OnWire(kind)(s).size <= n
    ensures OnWire(kind)(s[..n]) == OnWire(kind)(s)
  {
    WireHeadInPrefix(kind, s, n);
    var p := WireHead(kind, s);
    hide WireHead;
    SliceOfPrefix(s, n, p.size, p.size + p.head.bodyLength as int);
  }

  lemma TakenShows(kind: Kind, s: bytes, n: nat)
    requires n <= |s|
    ensures Taken(kind)(s[..n]) ==
              if OnWire(kind)(s).One? && Shows(kind)(OnWire(kind)(s).frame, n) then OnWire(kind)(s) else Wait
  {
    var b := s[..n];
    assert s == b + s[n..];
    TakenIsOnWire(kind, b);
    ParseMatchesWireExactly(kind, b);
    if OnWire(kind)(b).One? {
      OnWireStable(kind, b, s[n..]);
      WireFrameSize(kind, b);
    } else if OnWire(kind)(s).One? && FrameSize(OnWire(kind)(s).frame) <= n {
      WireFrameSize(kind, s);
      WireFrameInPrefix(kind, s, n);
    }
  }

  lemma LoopsExpose(kind: Kind)
    ensures Exposes(Taken(kind), OnWire(kind), Shows(kind))
  {
    forall s: bytes, n: nat | n <= |s|
      ensures Taken(kind)(s[..n]) ==
                if OnWire(kind)(s).One? && Shows(kind)(OnWire(kind)(s).frame, n) then OnWire(kind)(s) else Wait
    {
      TakenShows(kind, s, n);
    }
    hide Taken, OnWire, Shows;
  }

  /**
   A property of the stream and of where it is cut: the frames can be given cuts, in order, at which
   the loop recognises them.
   */
  ghost predicate CutsShowAll(kind: Kind, chunks: seq<bytes>) {
    Reassembles(kind);
    Showable(OnWire(kind), Shows(kind), Flatten(chunks), 0, Cuts(0, chunks))
  }

  /**
   Chunking invariance of the two receive loops: a connection delivers the frames of its stream and
   leaves the stream's tail if and only if the cuts show every frame.
   */
  lemma ConnectionDeliversExactly(kind: Kind, chunks: seq<bytes>)
    ensures Connection(kind, chunks) == Fed(FramesOf(kind, Flatten(chunks)), TailOf(kind, Flatten(chunks))) <==>
            CutsShowAll(kind, chunks)
  {
    hide Taken, OnWire, Shows, Feed, Frames, Tail, Showable, Cuts, Progresses, Stable, Sound, Exposes, Flatten;
    Reassembles(kind);
    LoopsExpose(kind);
    ChunkingInvariantExactly(Taken(kind), OnWire(kind), Shows(kind), [], chunks, 0);
    assert [] + Flatten(chunks) == Flatten(chunks);
  }

  /** Hence two splits of one stream that both show every frame agree. */
  lemma ChunkingInvariant(kind: Kind, chunks: seq<bytes>, chunks': seq<bytes>)
    requires Flatten(chunks) == Flatten(chunks') && CutsShowAll(kind, chunks)
    ensures Connection(kind, chunks) == Connection(kind, chunks') <==> CutsShowAll(kind, chunks')
  {
    ConnectionDeliversExactly(kind, chunks);
    ConnectionDeliversExactly(kind, chunks');
  }

  lemma UnstalledShowsAll(kind: Kind, chunks: seq<bytes>)
    requires !Stalled(Taken(kind), OnWire(kind), Connection(kind, chunks).pending)
    ensures CutsShowAll(kind, chunks)
  {
    Reassembles(kind);
    DeliversUnlessStalled(Taken(kind), OnWire(kind), chunks);
    ConnectionDeliversExactly(kind, chunks);
  }

  /** Hprose headers: every cutting of every stream will do. */
  lemma HproseShowsAll(chunks: seq<bytes>)
    ensures CutsShowAll(HproseKind, chunks)
  {
    StallIsHiddenFrame(HproseKind, Connection(HproseKind, chunks).pending);
    UnstalledShowsAll(HproseKind, chunks);
  }

  /** Every buffer the loop is shown, leftover and chunk together, is below `limit`. */
  ghost predicate PresentedBelow(kind: Kind, pending: bytes, chunks: seq<bytes>, limit: nat)
    decreases |chunks|
  {
    Reassembles(kind);
    chunks == [] ||
    (|pending + chunks[0]| < limit &&
     PresentedBelow(kind, Tail(Taken(kind), pending + chunks[0]), chunks[1..], limit))
  }

  lemma {:induction false} SmallLeftover(kind: Kind, pending: bytes, chunks: seq<bytes>, limit: nat)
    requires Progresses(Taken(kind)) && |pending| < limit && PresentedBelow(kind, pending, chunks, limit)
    ensures |Feed(Taken(kind), pending, chunks).pending| < limit
    decreases |chunks|
  {
    if chunks != [] {
      hide Taken;
      SmallLeftover(kind, Tail(Taken(kind), pending + chunks[0]), chunks[1..], limit);
    }
  }

  /** Buffers below 65536 bytes show everything. */
  lemma SmallBuffersShowAll(kind: Kind, chunks: seq<bytes>)
    requires PresentedBelow(kind, [], chunks, TWO_16)
    ensures CutsShowAll(kind, chunks)
  {
    Reassembles(kind);
    SmallLeftover(kind, [], chunks, TWO_16);
    StallIsHiddenFrame(kind, Connection(kind, chunks).pending);
    UnstalledShowsAll(kind, chunks);
  }

  predicate GapsWithin(cuts: seq<nat>, most: nat) {
    |cuts| > 1 ==> cuts[1] <= cuts[0] + most && GapsWithin(cuts[1..], most)
  }

  ghost predicate SizesWithin(kind: Kind, s: bytes, largest: nat)
    decreases |s|
  {
    var next := OnWire(kind)(s);
    next.One? ==> FrameSize(next.frame) <= largest && SizesWithin(kind, s[next.size..], largest)
  }

  lemma {:induction false} SizesOfAll(kind: Kind, s: bytes, largest: nat)
    requires forall f :: f in FramesOf(kind, s) ==> FrameSize(f) <= largest
    ensures SizesWithin(kind, s, largest)
    decreases |s|
  {
    Reassembles(kind);
    var next := OnWire(kind)(s);
    if next.One? {
      TakeFirst(OnWire(kind), s, next.frame, next.size);
      assert FramesOf(kind, s) == [next.frame] + FramesOf(kind, s[next.size..]);
      hide OnWire, FramesOf;
      assert next.frame in FramesOf(kind, s);
      SizesOfAll(kind, s[next.size..], largest);
    }
  }

  lemma {:induction false} CutsAreClose(base: nat, chunks: seq<bytes>, most: nat)
    requires forall c :: c in chunks ==> |c| <= most
    ensures var cuts := Cuts(base, chunks);
            && GapsWithin(cuts, most) && |cuts| == |chunks|
            && (chunks != [] ==> cuts[0] <= base + most && cuts[|cuts| - 1] == base + |Flatten(chunks)|)
    decreases |chunks|
  {
    if chunks != [] {
      assert chunks[0] in chunks;
      CutsAreClose(base + |chunks[0]|, chunks[1..], most);
      var rest := Cuts(base + |chunks[0]|, chunks[1..]);
      assert Cuts(base, chunks) == [base + |chunks[0]|] + rest;
    }
  }

  lemma {:induction false} CloseCutsShow(kind: Kind, s: bytes, off: nat, cuts: seq<nat>, largest: nat, most: nat)
    requires Progresses(OnWire(kind)) && largest + most <= TWO_16 && GapsWithin(cuts, most)
    requires SizesWithin(kind, s, largest)
    requires s != [] ==> cuts != [] && cuts[0] < off + largest + most && off + |s| <= cuts[|cuts| - 1]
    ensures Showable(OnWire(kind), Shows(kind), s, off, cuts)
    decreases |s| + |cuts|
  {
    hide OnWire, Showable, Progresses, FrameSize;
    var next := OnWire(kind)(s);
    if next.Wait? {
      NothingToShow(OnWire(kind), Shows(kind), s, off, cuts);
    } else {
      WireFrameSize(kind, s);
      if off + next.size <= cuts[0] {
        ShownBelowLimit(kind, next.frame, off, cuts);
        FirstCutShows(OnWire(kind), Shows(kind), s, off, cuts);
        CloseCutsShow(kind, s[next.size..], off + next.size, cuts, largest, most);
      } else {
        FirstCutHides(OnWire(kind), Shows(kind), s, off, cuts);
        assert cuts[1..][|cuts| - 2] == cuts[|cuts| - 1];
        CloseCutsShow(kind, s, off, cuts[1..], largest, most);
      }
    }
  }

  lemma ShownBelowLimit(kind: Kind, f: Frame, off: nat, cuts: seq<nat>)
    requires cuts != [] && off + FrameSize(f) <= cuts[0] < off + TWO_16
    ensures ShownAt(f, Shows(kind), off, cuts, 0)
  {
  }

  /** Frames of at most `largest` bytes in chunks of at most `most`, together at most 65536: all are shown. */
  lemma SmallFramesShowAll(kind: Kind, chunks: seq<bytes>, largest: nat, most: nat)
    requires 0 < largest && largest + most <= TWO_16
    requires forall f :: f in FramesOf(kind, Flatten(chunks)) ==> FrameSize(f) <= largest
    requires forall c :: c in chunks ==> |c| <= most
    ensures CutsShowAll(kind, chunks)
  {
    Reassembles(kind);
    CutsAreClose(0, chunks, most);
    SizesOfAll(kind, Flatten(chunks), largest);
    CloseCutsShow(kind, Flatten(chunks), 0, Cuts(0, chunks), largest, most);
  }

  /** The head of both receive loops: parse a header, check that the body has arrived. */
  method TakeFrame(kind: Kind, data: bytes, at: nat) returns (next: Next<Frame>)
    requires at <= |data|
    ensures next == Taken(kind)(data[at..])
    ensures next.One? ==>
              && next.frame.head.Kind() == kind && 0 < next.size <= |data| - at
              && TakenAt(Taken(kind), data, at, next.frame, at + next.size)
  {
    hide ParseSeeing;
    var buf := data[at..];
    var head, headLen := ParseNew(kind, buf);
    if headLen == 0 || headLen + head.bodyLength as int > |buf| {
      return Wait;
    }
    var end := headLen + head.bodyLength as int;
    return One(Frame(head, buf[headLen..end]), end);
  }

  ghost function TakenFrames(kind: Kind, data: bytes): seq<Frame>
  {
    Reassembles(kind);
    Frames(Taken(kind), data)
  }

  ghost function TakenBytes(kind: Kind, data: bytes): nat
  {
    Reassembles(kind);
    |data| - |Tail(Taken(kind), data)|
  }

  /** No frame boundary of the buffer begins a header that the 16-bit cut hides. */
  ghost predicate BoundariesVisible(kind: Kind, b: bytes)
    decreases |b|
  {
    OnWire(kind)(b).One? ==> !HiddenByCut(kind, b) && BoundariesVisible(kind, b[OnWire(kind)(b).size..])
  }

  /** One call of a loop takes all whole frames of its buffer if and only if none of them is hidden. */
  lemma {:induction false} LoopTakesAllExactly(kind: Kind, b: bytes)
    ensures TakenFrames(kind, b) == FramesOf(kind, b) <==> BoundariesVisible(kind, b)
    decreases |b|
  {
    Reassembles(kind);
    StallIsHiddenFrame(kind, b);
    TakenIsOnWire(kind, b);
    if Taken(kind)(b).One? {
      var f, n := Taken(kind)(b).frame, Taken(kind)(b).size;
      TakeFirst(Taken(kind), b, f, n);
      TakeFirst(OnWire(kind), b, f, n);
      hide Taken, OnWire, Frames;
      CancelFront([f], TakenFrames(kind, b[n..]), FramesOf(kind, b[n..]));
      LoopTakesAllExactly(kind, b[n..]);
    }
  }

  /** A loop that stopped where no frame could be taken has taken them all. */
  lemma LoopComplete(kind: Kind, data: bytes, frames: seq<Frame>, ends: seq<nat>)
    requires Trace(Taken(kind), data, frames, ends) && ends[|frames|] <= |data|
    requires ends[|frames|] == |data| || Taken(kind)(data[ends[|frames|]..]) == Wait
    ensures TakenFrames(kind, data) == frames && TakenBytes(kind, data) == ends[|frames|]
  {
    Reassembles(kind);
    if ends[|frames|] == |data| {
      assert data[|data|..] == [];
      NothingOnEmptyWire(kind);
    }
    TraceComplete(Taken(kind), data, frames, ends);
  }

  lemma LoopPrefix(kind: Kind, data: bytes, frames: seq<Frame>, ends: seq<nat>)
    requires Trace(Taken(kind), data, frames, ends)
    ensures frames <= TakenFrames(kind, data)
  {
    Reassembles(kind);
    TraceTakesFrames(Taken(kind), data, frames, ends);
  }

  // ---- Sending side ----

  /** The bytes of one frame, as `Call` and `DispatchMsg` lay them out. */
  function FrameBytes(f: Frame): bytes
  {
    Encode(f.head) + f.body
  }

  function StreamBytes(frames: seq<Frame>): bytes
  {
    if frames == [] then [] else FrameBytes(frames[0]) + StreamBytes(frames[1..])
  }

  /** A frame whose header says what follows it and whose names fit the wire. */
  predicate Sendable(kind: Kind, f: Frame)
  {
    f.head.Kind() == kind && NamesFit(f.head) && f.head.bodyLength == |f.body|
  }

  lemma SentFrameIsNext(kind: Kind, f: Frame, rest: bytes)
    requires Sendable(kind, f)
    ensures OnWire(kind)(FrameBytes(f) + rest) == One(f, |FrameBytes(f)|)
  {
    hide WireHead, Encode;
    var b := FrameBytes(f) + rest;
    Regrouped(Encode(f.head), f.body, rest);
    WireRoundTripExactly(f.head, f.body + rest);
    assert b[ByteSize(f.head)..|FrameBytes(f)|] == f.body;
  }

  /**
   The bytes begin with a frame if and only if they begin with what a sender lays out for it: whole, with
   names that fit and a header that says how long the body is.
   */
  lemma OnWireExactly(kind: Kind, b: bytes, f: Frame, n: nat)
    ensures OnWire(kind)(b) == One(f, n) <==> Sendable(kind, f) && FrameBytes(f) <= b && n == |FrameBytes(f)|
  {
    hide ParseSeeing, Encode;
    if OnWire(kind)(b) == One(f, n) {
      var p := WireHead(kind, b);
      WireHeadExactly(kind, b, p.head, p.size);
      assert b[..n] == b[..ByteSize(f.head)] + b[ByteSize(f.head)..n];
    }
    if Sendable(kind, f) && FrameBytes(f) <= b && n == |FrameBytes(f)| {
      assert b == FrameBytes(f) + b[n..];
      SentFrameIsNext(kind, f, b[n..]);
    }
  }

  /** The loops take it if and only if the 16-bit cut of the buffer's size does not hide its header. */
  lemma TakenExactly(kind: Kind, b: bytes, f: Frame, n: nat)
    ensures Taken(kind)(b) == One(f, n) <==>
            && Sendable(kind, f) && FrameBytes(f) <= b && n == |FrameBytes(f)|
            && (kind == UcorfKind ==> ByteSize(f.head) <= |b| % 0x1_0000)
  {
    OnWireExactly(kind, b, f, n);
    TakenIsOnWire(kind, b);
    ParseMatchesWireExactly(kind, b);
    hide ParseSeeing, FrameBytes, Sendable;
  }

  lemma FirstFrameOf(kind: Kind, b: bytes, f: Frame, n: nat)
    requires n <= |b| && OnWire(kind)(b) == One(f, n)
    ensures FramesOf(kind, b) == [f] + FramesOf(kind, b[n..]) && TailOf(kind, b) == TailOf(kind, b[n..])
  {
    Reassembles(kind);
    TakeFirst(OnWire(kind), b, f, n);
  }

  lemma NothingOnEmptyWire(kind: Kind)
    ensures OnWire(kind)([]) == Wait && Taken(kind)([]) == Wait
  {
  }

  /** Pipelined frames are recovered from their stream one for one, with nothing left over. */
  lemma {:induction false} StreamRoundTrip(kind: Kind, frames: seq<Frame>)
    requires forall f :: f in frames ==> Sendable(kind, f)
    ensures FramesOf(kind, StreamBytes(frames)) == frames
    ensures TailOf(kind, StreamBytes(frames)) == []
  {
    if frames == [] {
      NothingOnEmptyWire(kind);
    } else {
      hide OnWire, FrameBytes, Sendable, FramesOf, TailOf;
      HeadAndRest(frames);
      var front, rest := FrameBytes(frames[0]), StreamBytes(frames[1..]);
      SentFrameIsNext(kind, frames[0], rest);
      FirstFrameOf(kind, front + rest, frames[0], |front|);
      DropFront(front, rest, |front|);
      assert front[|front|..] + rest == rest;
      StreamRoundTrip(kind, frames[1..]);
    }
  }

  /** The header both sides fill in; every numeric field is cut to its width on the wire. */
  function MakeHead(kind: Kind, id: nat, calltype: byte, service: bytes, method_: bytes, length: nat): (h: Head)
    ensures h.Kind() == kind
  {
    match kind
    case UcorfKind => Ucorf(calltype, id % TWO_32, length % TWO_32, service, method_)
    case HproseKind => Hprose(id % TWO_32, length % TWO_32)
  }

  /** Lays out one message: the header serialised into a fresh buffer, the body copied behind it. */
  method BuildMessage(kind: Kind, id: nat, calltype: byte, service: bytes, method_: bytes, body: bytes)
      returns (buf: array<byte>)
    ensures fresh(buf)
    ensures buf[..] == FrameBytes(Frame(MakeHead(kind, id, calltype, service, method_, |body|), body))
  {
    var size;
    match kind {
      case UcorfKind =>
        var header := new UcorfHead();
        header.SetId(id);
        header.SetType(calltype);
        header.SetFollowBytes(|body|);
        header.SetNames(service, method_);
        size := ByteSize(header.Value());
        buf := new byte[size + |body|];
        var ok := header.Serialize(buf, size);
        assert ok && buf[..size] == Encode(header.Value());
      case HproseKind =>
        var header := new HproseHead();
        header.SetId(id);
        header.SetFollowBytes(|body|);
        size := ByteSize(header.Value());
        buf := new byte[size + |body|];
        var ok := header.Serialize(buf, size);
        assert ok && buf[..size] == Encode(header.Value());
    }
    CopyInto(buf, size, body);
    assert buf[..] == buf[..size + |body|];
  }

  lemma OneFrameStream(kind: Kind, f: Frame)
    requires Sendable(kind, f)
    ensures FramesOf(kind, FrameBytes(f)) == [f]
  {
    StreamRoundTrip(kind, [f]);
    assert StreamBytes([f]) == FrameBytes(f) + StreamBytes([]) == FrameBytes(f);
  }

  lemma FullBufferStalls(b: bytes)
    requires |b| == TWO_16
    ensures Connection(UcorfKind, [b]).frames == []
  {
    Reassembles(UcorfKind);
    FullBufferHidesEveryHeader(b);
    assert [] + b == b;
    assert Taken(UcorfKind)(b) == Wait;
    assert Frames(Taken(UcorfKind), b) == [];
    assert Feed(Taken(UcorfKind), Tail(Taken(UcorfKind), b), []).frames == [];
    assert [b][1..] == [];
  }

  // ---- A stall can happen ----

  /** A request with empty names and a body of 65522 bytes: 65536 bytes in all. */
  function LongFrame(): Frame
  {
    Frame(Ucorf(REQUEST, 1, 65522, [], []), seq(65522, i => 0))
  }

  /**
   The frame is complete, well formed and on the wire, yet a loop that is shown it whole delivers
   nothing.
   */
  lemma WholeFrameStalls()
    ensures Sendable(UcorfKind, LongFrame())
    ensures Connection(UcorfKind, [FrameBytes(LongFrame())]).frames == []
    ensures FramesOf(UcorfKind, FrameBytes(LongFrame())) == [LongFrame()]
    ensures !CutsShowAll(UcorfKind, [FrameBytes(LongFrame())])
  {
    var f := LongFrame();
    OneFrameStream(UcorfKind, f);
    FullBufferStalls(FrameBytes(f));
    ConnectionDeliversExactly(UcorfKind, [FrameBytes(f)]);
    hide Connection, FramesOf, TailOf, FrameBytes, CutsShowAll, LongFrame;
    assert Flatten([FrameBytes(f)]) == FrameBytes(f);
  }
}
