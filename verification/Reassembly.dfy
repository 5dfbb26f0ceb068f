/**
 Reassembling frames from a byte stream, for any way of cutting a frame off the front of a buffer.
 `wire` is what the format says is at the front; `seen` is what a program recognises there, which
 may be less. The loop takes frames for as long as it recognises one and its unconsumed tail is
 shown to it again in front of the next bytes.
 */
module Reassembly {
  import opened Prelude

  datatype Next<+F> = Wait | One(frame: F, size: nat)

  ghost predicate Progresses<F(!new)>(next: bytes -> Next<F>) {
    forall b :: next(b).One? ==> 0 < next(b).size <= |b|
  }

  /** A recognised frame is not changed by bytes that arrive behind it. */
  ghost predicate Stable<F(!new)>(next: bytes -> Next<F>) {
    forall b, more :: next(b).One? ==> next(b + more) == next(b)
  }

  /** What the program recognises is what the format has there. */
  ghost predicate Sound<F(!new)>(seen: bytes -> Next<F>, wire: bytes -> Next<F>) {
    forall b :: seen(b).One? ==> seen(b) == wire(b)
  }

  /** Every complete frame at the front of a stream. */
  ghost function Frames<F(!new)>(next: bytes -> Next<F>, b: bytes): seq<F>
    requires Progresses(next)
    decreases |b|
  {
    match next(b)
    case Wait => []
    case One(f, n) => [f] + Frames(next, b[n..])
  }

  /** What is left of a stream after its complete frames. */
  ghost function Tail<F(!new)>(next: bytes -> Next<F>, b: bytes): (t: bytes)
    requires Progresses(next)
    ensures next(t) == Wait
    ensures |t| <= |b| && t == b[|b| - |t|..]
    decreases |b|
  {
    match next(b)
    case Wait => b
    case One(_, n) => Tail(next, b[n..])
  }

  datatype Fed<+F> = Fed(frames: seq<F>, pending: bytes)

  /** A whole connection: each chunk is shown behind the tail the loop left unconsumed. */
  ghost function Feed<F(!new)>(seen: bytes -> Next<F>, pending: bytes, chunks: seq<bytes>): Fed<F>
    requires Progresses(seen)
    decreases |chunks|
  {
    if chunks == [] then Fed([], pending) else
    var shown := pending + chunks[0];
    var rest := Feed(seen, Tail(seen, shown), chunks[1..]);
    Fed(Frames(seen, shown) + rest.frames, rest.pending)
  }

  lemma TakeFirst<F(!new)>(next: bytes -> Next<F>, b: bytes, f: F, n: nat)
    requires Progresses(next) && n <= |b| && next(b) == One(f, n)
    ensures Frames(next, b) == [f] + Frames(next, b[n..]) && Tail(next, b) == Tail(next, b[n..])
  {
  }

  lemma {:induction false} LoopTakesWireFrames<F(!new)>(
      seen: bytes -> Next<F>, wire: bytes -> Next<F>, b: bytes, more: bytes)
    requires Progresses(seen) && Progresses(wire) && Stable(wire) && Sound(seen, wire)
    ensures Frames(wire, b + more) == Frames(seen, b) + Frames(wire, Tail(seen, b) + more)
    decreases |b|
  {
    if seen(b).One? {
      var n := seen(b).size;
      assert wire(b + more) == seen(b);
      assert (b + more)[n..] == b[n..] + more;
      LoopTakesWireFrames(seen, wire, b[n..], more);
    }
  }

  lemma {:induction false} LoopLeavesWireTail<F(!new)>(
      seen: bytes -> Next<F>, wire: bytes -> Next<F>, b: bytes, more: bytes)
    requires Progresses(seen) && Progresses(wire) && Stable(wire) && Sound(seen, wire)
    ensures Tail(wire, b + more) == Tail(wire, Tail(seen, b) + more)
    decreases |b|
  {
    if seen(b).One? {
      var n := seen(b).size;
      assert wire(b + more) == seen(b);
      assert (b + more)[n..] == b[n..] + more;
      LoopLeavesWireTail(seen, wire, b[n..], more);
    }
  }

  /**
   Conservation over a connection, for every split into chunks: the frames delivered followed by
   the frames still in the tail are the frames of the stream, in order. Nothing is lost, invented,
   repeated or reordered.
   */
  lemma {:induction false} StreamConserved<F(!new)>(
      seen: bytes -> Next<F>, wire: bytes -> Next<F>, pending: bytes, chunks: seq<bytes>)
    requires Progresses(seen) && Progresses(wire) && Stable(wire) && Sound(seen, wire)
    ensures var r := Feed(seen, pending, chunks);
            Frames(wire, pending + Flatten(chunks)) == r.frames + Frames(wire, r.pending)
    decreases |chunks|
  {
    if chunks == [] {
      assert pending + Flatten(chunks) == pending;
    } else {
      var shown, later := pending + chunks[0], Flatten(chunks[1..]);
      Regrouped(pending, chunks[0], later);
      LoopTakesWireFrames(seen, wire, shown, later);
      var r := Feed(seen, Tail(seen, shown), chunks[1..]);
      Regrouped(Frames(seen, shown), r.frames, Frames(wire, r.pending));
      hide Progresses, Stable, Sound, Frames, Tail;
      StreamConserved(seen, wire, Tail(seen, shown), chunks[1..]);
    }
  }

  /** The tail a connection ends with still leads to the tail of the stream. */
  lemma {:induction false} TailConserved<F(!new)>(
      seen: bytes -> Next<F>, wire: bytes -> Next<F>, pending: bytes, chunks: seq<bytes>)
    requires Progresses(seen) && Progresses(wire) && Stable(wire) && Sound(seen, wire)
    ensures Tail(wire, pending + Flatten(chunks)) == Tail(wire, Feed(seen, pending, chunks).pending)
    decreases |chunks|
  {
    if chunks == [] {
      assert pending + Flatten(chunks) == pending;
    } else {
      var shown, later := pending + chunks[0], Flatten(chunks[1..]);
      assert pending + Flatten(chunks) == shown + later;
      LoopLeavesWireTail(seen, wire, shown, later);
      TailConserved(seen, wire, Tail(seen, shown), chunks[1..]);
    }
  }

  /** A complete frame waits at the front of the tail but the program does not recognise it. */
  ghost predicate Stalled<F(!new)>(seen: bytes -> Next<F>, wire: bytes -> Next<F>, pending: bytes) {
    seen(pending) == Wait && wire(pending).One?
  }

  lemma {:induction false} FeedWaits<F(!new)>(seen: bytes -> Next<F>, pending: bytes, chunks: seq<bytes>)
    requires Progresses(seen) && seen(pending) == Wait
    ensures seen(Feed(seen, pending, chunks).pending) == Wait
    decreases |chunks|
  {
    if chunks != [] {
      FeedWaits(seen, Tail(seen, pending + chunks[0]), chunks[1..]);
    }
  }

  /** Frames and tail are those of the whole stream if and only if the connection did not end stalled. */
  lemma DeliversUnlessStalled<F(!new)>(
      seen: bytes -> Next<F>, wire: bytes -> Next<F>, chunks: seq<bytes>)
    requires Progresses(seen) && Progresses(wire) && Stable(wire) && Sound(seen, wire)
    ensures var r := Feed(seen, [], chunks);
            var stream := Flatten(chunks);
            r == Fed(Frames(wire, stream), Tail(wire, stream)) <==> !Stalled(seen, wire, r.pending)
  {
    StreamConserved(seen, wire, [], chunks);
    TailConserved(seen, wire, [], chunks);
    FeedWaits(seen, [], chunks);
    assert [] + Flatten(chunks) == Flatten(chunks);
    var r := Feed(seen, [], chunks);
    if wire(r.pending).One? {
      assert |Frames(wire, r.pending)| > 0;
    }
  }

  // ---- Which cuttings deliver the stream ----

  /**
   `shows(f, n)` tells, without looking at the connection, whether the program recognises frame `f` in
   a buffer that ends `n` bytes after the frame begins.
   */
  ghost predicate Exposes<F(!new)>(seen: bytes -> Next<F>, wire: bytes -> Next<F>, shows: (F, nat) -> bool) {
    forall s: bytes, n: nat :: n <= |s| ==>
      seen(s[..n]) == if wire(s).One? && shows(wire(s).frame, n) then wire(s) else Wait
  }

  /** The stream offsets at which the chunks end. */
  function Cuts(base: nat, chunks: seq<bytes>): seq<nat>
    decreases |chunks|
  {
    if chunks == [] then []
    else [base + |chunks[0]|] + Cuts(base + |chunks[0]|, chunks[1..])
  }

  /**
   Each frame of the stream can be given one of the cuts, never an earlier one than the frame before
   it, so that a buffer ending there shows it. `s` is what follows stream offset `off`.
   */
  ghost predicate Showable<F(!new)>(
      wire: bytes -> Next<F>, shows: (F, nat) -> bool, s: bytes, off: nat, cuts: seq<nat>)
    requires Progresses(wire)
    decreases |s|
  {
    wire(s).One? ==>
      exists j: nat :: ShownAt(wire(s).frame, shows, off, cuts, j)
                    && Showable(wire, shows, s[wire(s).size..], off + wire(s).size, cuts[j..])
  }

  /** The j-th cut shows the frame that begins at `off`. */
  predicate ShownAt<F>(f: F, shows: (F, nat) -> bool, off: nat, cuts: seq<nat>, j: nat) {
    j < |cuts| && off <= cuts[j] && shows(f, cuts[j] - off)
  }

  /** The frame in front of `s` gets the j-th cut, the frames behind it that one or later ones. */
  lemma CutsShow<F(!new)>(
      wire: bytes -> Next<F>, shows: (F, nat) -> bool, s: bytes, off: nat, cuts: seq<nat>, j: nat)
    requires Progresses(wire) && wire(s).One? && ShownAt(wire(s).frame, shows, off, cuts, j)
    requires Showable(wire, shows, s[wire(s).size..], off + wire(s).size, cuts[j..])
    ensures Showable(wire, shows, s, off, cuts)
  {
    hide ShownAt;
  }

  lemma NothingToShow<F(!new)>(
      wire: bytes -> Next<F>, shows: (F, nat) -> bool, s: bytes, off: nat, cuts: seq<nat>)
    requires Progresses(wire) && wire(s).Wait?
    ensures Showable(wire, shows, s, off, cuts)
  {
  }

  lemma CutShown<F(!new)>(
      wire: bytes -> Next<F>, shows: (F, nat) -> bool, s: bytes, off: nat, cuts: seq<nat>)
    returns (j: nat)
    requires Progresses(wire) && wire(s).One? && Showable(wire, shows, s, off, cuts)
    ensures ShownAt(wire(s).frame, shows, off, cuts, j)
    ensures Showable(wire, shows, s[wire(s).size..], off + wire(s).size, cuts[j..])
  {
    j :| ShownAt(wire(s).frame, shows, off, cuts, j)
      && Showable(wire, shows, s[wire(s).size..], off + wire(s).size, cuts[j..]);
  }

  lemma MoreCuts<F(!new)>(
      wire: bytes -> Next<F>, shows: (F, nat) -> bool, s: bytes, off: nat, cuts: seq<nat>, k: nat)
    requires Progresses(wire) && k <= |cuts| && Showable(wire, shows, s, off, cuts[k..])
    ensures Showable(wire, shows, s, off, cuts)
  {
    if wire(s).One? {
      hide Showable;
      var j := CutShown(wire, shows, s, off, cuts[k..]);
      assert cuts[k..][j..] == cuts[k + j..];
      CutsShow(wire, shows, s, off, cuts, k + j);
    }
  }

  /** A frame the first cut shows may as well be given that cut. */
  lemma FirstCutShows<F(!new)>(
      wire: bytes -> Next<F>, shows: (F, nat) -> bool, s: bytes, off: nat, cuts: seq<nat>)
    requires Progresses(wire) && wire(s).One? && ShownAt(wire(s).frame, shows, off, cuts, 0)
    ensures Showable(wire, shows, s, off, cuts) <==>
            Showable(wire, shows, s[wire(s).size..], off + wire(s).size, cuts)
  {
    hide Showable;
    var n := wire(s).size;
    assert cuts[0..] == cuts;
    if Showable(wire, shows, s, off, cuts) {
      var j := CutShown(wire, shows, s, off, cuts);
      MoreCuts(wire, shows, s[n..], off + n, cuts, j);
    }
    if Showable(wire, shows, s[n..], off + n, cuts) {
      CutsShow(wire, shows, s, off, cuts, 0);
    }
  }

  /** A cut that does not show the next frame is of no use to the frames after it either. */
  lemma FirstCutHides<F(!new)>(
      wire: bytes -> Next<F>, shows: (F, nat) -> bool, s: bytes, off: nat, cuts: seq<nat>)
    requires Progresses(wire) && cuts != []
    requires wire(s).One? ==> !ShownAt(wire(s).frame, shows, off, cuts, 0)
    ensures Showable(wire, shows, s, off, cuts) <==> Showable(wire, shows, s, off, cuts[1..])
  {
    if wire(s).One? && Showable(wire, shows, s, off, cuts) {
      hide Showable;
      var j := CutShown(wire, shows, s, off, cuts);
      assert cuts[1..][j - 1..] == cuts[j..];
      CutsShow(wire, shows, s, off, cuts[1..], j - 1);
    }
    if Showable(wire, shows, s, off, cuts[1..]) {
      MoreCuts(wire, shows, s, off, cuts, 1);
    }
  }

  lemma SeenAt<F(!new)>(seen: bytes -> Next<F>, wire: bytes -> Next<F>, shows: (F, nat) -> bool,
                        shown: bytes, later: bytes)
    requires Exposes(seen, wire, shows)
    ensures var s := shown + later;
            seen(shown) == if wire(s).One? && shows(wire(s).frame, |shown|) then wire(s) else Wait
  {
    assert (shown + later)[..|shown|] == shown;
  }

  lemma TailAt<F(!new)>(seen: bytes -> Next<F>, shown: bytes)
    requires Progresses(seen)
    ensures seen(shown).One? ==>
              var n := seen(shown).size;
              0 < n <= |shown| && Tail(seen, shown) == Tail(seen, shown[n..])
    ensures seen(shown).Wait? ==> Tail(seen, shown) == shown
  {
  }

  /** What one run of the loop over a buffer leaves to the later cuts. */
  lemma {:induction false} LoopUsesCut<F(!new)>(
      seen: bytes -> Next<F>, wire: bytes -> Next<F>, shows: (F, nat) -> bool,
      shown: bytes, later: bytes, off: nat, rest: seq<nat>)
    requires Progresses(seen) && Progresses(wire) && Exposes(seen, wire, shows)
    ensures var tail := Tail(seen, shown);
            (Showable(wire, shows, shown + later, off, [off + |shown|] + rest) <==>
             Showable(wire, shows, tail + later, off + |shown| - |tail|, rest))
    decreases |shown|
  {
    hide Showable, Exposes, Progresses, Tail;
    var s, cuts := shown + later, [off + |shown|] + rest;
    SeenAt(seen, wire, shows, shown, later);
    TailAt(seen, shown);
    if seen(shown).One? {
      var n := seen(shown).size;
      DropFront(shown, later, n);
      FirstCutShows(wire, shows, s, off, cuts);
      LoopUsesCut(seen, wire, shows, shown[n..], later, off + n, rest);
    } else {
      FirstCutHides(wire, shows, s, off, cuts);
      assert cuts[1..] == rest;
    }
  }

  /** The chunks give what the stream gives. */
  ghost predicate Delivers<F(!new)>(seen: bytes -> Next<F>, wire: bytes -> Next<F>, pending: bytes, chunks: seq<bytes>)
    requires Progresses(seen) && Progresses(wire)
  {
    var stream := pending + Flatten(chunks);
    Feed(seen, pending, chunks) == Fed(Frames(wire, stream), Tail(wire, stream))
  }

  /** Whether a chunk is lost on the connection is decided by what comes after it. */
  lemma DeliversAfterChunk<F(!new)>(
      seen: bytes -> Next<F>, wire: bytes -> Next<F>, pending: bytes, chunks: seq<bytes>)
    requires Progresses(seen) && Progresses(wire) && Stable(wire) && Sound(seen, wire) && chunks != []
    ensures Delivers(seen, wire, pending, chunks) <==>
            Delivers(seen, wire, Tail(seen, pending + chunks[0]), chunks[1..])
  {
    var shown, later := pending + chunks[0], Flatten(chunks[1..]);
    var tail := Tail(seen, shown);
    Regrouped(pending, chunks[0], later);
    LoopTakesWireFrames(seen, wire, shown, later);
    LoopLeavesWireTail(seen, wire, shown, later);
    hide Sound, Stable, Progresses, Tail, Frames;
    CancelFront(Frames(seen, shown), Feed(seen, tail, chunks[1..]).frames, Frames(wire, tail + later));
  }

  /**
   Chunking invariance, exactly: a connection delivers the frames of the stream and leaves its tail if
   and only if the cuts show every frame.
   */
  lemma {:induction false} ChunkingInvariantExactly<F(!new)>(
      seen: bytes -> Next<F>, wire: bytes -> Next<F>, shows: (F, nat) -> bool,
      pending: bytes, chunks: seq<bytes>, off: nat)
    requires Progresses(seen) && Progresses(wire) && Stable(wire) && Sound(seen, wire) && Exposes(seen, wire, shows)
    ensures Delivers(seen, wire, pending, chunks) <==>
            Showable(wire, shows, pending + Flatten(chunks), off, Cuts(off + |pending|, chunks))
    decreases |chunks|
  {
    hide *;
    if chunks == [] {
      NothingArrives(seen, wire, shows, pending, off);
    } else {
      var shown, later := pending + chunks[0], Flatten(chunks[1..]);
      var tail := Tail(seen, shown);
      ChunkArrives(pending, chunks, off);
      DeliversAfterChunk(seen, wire, pending, chunks);
      LoopUsesCut(seen, wire, shows, shown, later, off, Cuts(off + |shown|, chunks[1..]));
      ChunkingInvariantExactly(seen, wire, shows, tail, chunks[1..], off + |shown| - |tail|);
    }
  }

  lemma NothingArrives<F(!new)>(
      seen: bytes -> Next<F>, wire: bytes -> Next<F>, shows: (F, nat) -> bool, pending: bytes, off: nat)
    requires Progresses(seen) && Progresses(wire)
    ensures Delivers(seen, wire, pending, []) <==>
            Showable(wire, shows, pending + Flatten([]), off, Cuts(off + |pending|, []))
  {
    assert pending + Flatten([]) == pending;
  }

  lemma ChunkArrives(pending: bytes, chunks: seq<bytes>, off: nat)
    requires chunks != []
    ensures var shown := pending + chunks[0];
            && pending + Flatten(chunks) == shown + Flatten(chunks[1..])
            && Cuts(off + |pending|, chunks) == [off + |shown|] + Cuts(off + |shown|, chunks[1..])
  {
    Regrouped(pending, chunks[0], Flatten(chunks[1..]));
    assert off + |pending| + |chunks[0]| == off + |pending + chunks[0]|;
  }

  lemma CancelFront<T>(front: seq<T>, a: seq<T>, b: seq<T>)
    ensures front + a == front + b <==> a == b
  {
    assert a == (front + a)[|front|..] && b == (front + b)[|front|..];
  }

  // ---- One call of the loop, step by step ----

  /** The frame at offset `at` of a buffer ends at offset `end`. */
  predicate TakenAt<F(==)>(next: bytes -> Next<F>, data: bytes, at: nat, f: F, end: nat) {
    at < end <= |data| && next(data[at..]) == One(f, end - at)
  }

  /** What a loop has done: the frames taken so far and the offsets between them. */
  ghost predicate Trace<F(!new)>(next: bytes -> Next<F>, data: bytes, frames: seq<F>, ends: seq<nat>)
    decreases |frames|
  {
    |ends| == |frames| + 1 &&
    if frames == [] then ends[0] == 0
    else
      var k := |frames| - 1;
      Trace(next, data, frames[..k], ends[..k + 1]) && TakenAt(next, data, ends[k], frames[k], ends[k + 1])
  }

  lemma TraceOneMore<F(!new)>(
      next: bytes -> Next<F>, data: bytes, frames: seq<F>, ends: seq<nat>, f: F, end: nat)
    requires Trace(next, data, frames, ends) && TakenAt(next, data, ends[|frames|], f, end)
    ensures Trace(next, data, frames + [f], ends + [end]) && (ends + [end])[|frames| + 1] == end
  {
    assert (frames + [f])[..|frames|] == frames && (ends + [end])[..|frames| + 1] == ends;
  }

  lemma FramesStep<F(!new)>(next: bytes -> Next<F>, data: bytes, at: nat, f: F, end: nat)
    requires Progresses(next) && TakenAt(next, data, at, f, end)
    ensures Frames(next, data[at..]) == [f] + Frames(next, data[end..])
  {
    assert data[at..][end - at..] == data[end..];
  }

  lemma {:induction false} TraceTakesFrames<F(!new)>(
      next: bytes -> Next<F>, data: bytes, frames: seq<F>, ends: seq<nat>)
    requires Progresses(next) && Trace(next, data, frames, ends)
    ensures ends[|frames|] <= |data|
    ensures Frames(next, data) == frames + Frames(next, data[ends[|frames|]..])
    decreases |frames|
  {
    if frames == [] {
      assert data[0..] == data;
    } else {
      var k := |frames| - 1;
      FramesStep(next, data, ends[k], frames[k], ends[k + 1]);
      TraceTakesFrames(next, data, frames[..k], ends[..k + 1]);
      assert frames == frames[..k] + [frames[k]];
      Regrouped(frames[..k], [frames[k]], Frames(next, data[ends[k + 1]..]));
    }
  }

  lemma {:induction false} TraceLeavesTail<F(!new)>(
      next: bytes -> Next<F>, data: bytes, frames: seq<F>, ends: seq<nat>)
    requires Progresses(next) && Trace(next, data, frames, ends)
    ensures ends[|frames|] <= |data|
    ensures Tail(next, data) == Tail(next, data[ends[|frames|]..])
    decreases |frames|
  {
    if frames == [] {
      assert data[0..] == data;
    } else {
      var k := |frames| - 1;
      assert data[ends[k]..][ends[k + 1] - ends[k]..] == data[ends[k + 1]..];
      TraceLeavesTail(next, data, frames[..k], ends[..k + 1]);
    }
  }

  /** A loop that stopped where no frame could be taken has taken them all. */
  lemma TraceComplete<F(!new)>(next: bytes -> Next<F>, data: bytes, frames: seq<F>, ends: seq<nat>)
    requires Progresses(next) && Trace(next, data, frames, ends)
    requires ends[|frames|] <= |data| && next(data[ends[|frames|]..]) == Wait
    ensures Frames(next, data) == frames && |data| - |Tail(next, data)| == ends[|frames|]
  {
    TraceTakesFrames(next, data, frames, ends);
    TraceLeavesTail(next, data, frames, ends);
  }
}
