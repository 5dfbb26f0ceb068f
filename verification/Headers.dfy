/**
 The two message headers a transport can carry: `UcorfHead`, variable-length and tagged with a
 magic byte, and `Hprose_Head`, eight fixed bytes. Both travel in network byte order.
 */
module Headers {
  import opened Prelude

  const MAGIC: byte := 0xf8
  const UCORF_FIXED: nat := 14
  const HPROSE_FIXED: nat := 8

  const REQUEST: byte := 0
  const ONEWAY_REQUEST: byte := 1
  const RESPONSE: byte := 2

  /** Which `HeaderFactory` a client or server was given. */
  datatype Kind = UcorfKind | HproseKind

  /** The value of a header object: everything its accessors can report. */
  datatype Head =
    | Ucorf(calltype: byte, callid: u32, bodyLength: u32, service: bytes, method_: bytes)
    | Hprose(callid: u32, bodyLength: u32)
  {
    function Kind(): Kind {
      if Ucorf? then UcorfKind else HproseKind
    }
  }

  // ---- Network byte order ----

  function Be16(n: u16): (b: bytes)
    ensures |b| == 2 && FromBe16(b) == n
  {
    [n / 0x100, n % 0x100]
  }

  function FromBe16(b: bytes): u16
    requires |b| == 2
  {
    (b[0] as int) * 0x100 + b[1] as int
  }

  function Be32(n: u32): (b: bytes)
    ensures |b| == 4 && FromBe32(b) == n
  {
    Be16(n / 0x1_0000) + Be16(n % 0x1_0000)
  }

  function FromBe32(b: bytes): u32
    requires |b| == 4
  {
    (FromBe16(b[..2]) as int) * 0x1_0000 + FromBe16(b[2..]) as int
  }

  // ---- Encoding and parsing as functions ----

  function ByteSize(h: Head): nat
  {
    match h
    case Ucorf(_, _, _, service, method_) => UCORF_FIXED + |service| + |method_|
    case Hprose(_, _) => HPROSE_FIXED
  }

  /** The bytes `Serialize` writes. The two name lengths are cut to 16 bits on the wire. */
  function Encode(h: Head): (b: bytes)
    ensures |b| == ByteSize(h)
  {
    match h
    case Ucorf(calltype, callid, bodyLength, service, method_) =>
      [MAGIC, calltype] + Be32(callid) + Be32(bodyLength)
      + Be16(|service| % TWO_16) + Be16(|method_| % TWO_16) + service + method_
    case Hprose(callid, bodyLength) =>
      Be32(bodyLength) + Be32(callid)
  }

  datatype Parsed = Reject | Accept(head: Head, size: nat)

  /**
   Parsing with the length test made against `seen`. The program tests a 16-bit cut of the buffer
   length in `UcorfHead::Parse`; a parser without that cut would test the length itself.
   */
  function ParseSeeing(kind: Kind, b: bytes, seen: nat): (p: Parsed)
    requires seen <= |b|
    ensures p.Accept? ==> 0 < p.size <= |b| && p.head.Kind() == kind
    ensures p.Accept? ==> p.size == ByteSize(p.head)
  {
    match kind
    case HproseKind =>
      if |b| < HPROSE_FIXED then Reject
      else Accept(Hprose(FromBe32(b[4..8]), FromBe32(b[0..4])), HPROSE_FIXED)
    case UcorfKind =>
      if |b| < UCORF_FIXED || b[0] != MAGIC then Reject else
      var serviceLen := FromBe16(b[10..12]);
      var methodLen := FromBe16(b[12..14]);
      var size := UCORF_FIXED + serviceLen as int + methodLen as int;
      if seen < size then Reject
      else Accept(Ucorf(b[1], FromBe32(b[2..6]), FromBe32(b[6..10]),
                        b[14..14 + serviceLen], b[14 + serviceLen..size]), size)
  }

  /** `IHeader::Parse` as the program computes it. */
  function ParseHead(kind: Kind, b: bytes): Parsed
  {
    ParseSeeing(kind, b, |b| % TWO_16)
  }

  /** The wire format: what a header at the front of `b` means, whatever the size of `b`. */
  function WireHead(kind: Kind, b: bytes): Parsed
  {
    ParseSeeing(kind, b, |b|)
  }

  /** A complete header lies in the buffer but the 16-bit cut of the length hides its end. */
  predicate HiddenByCut(kind: Kind, b: bytes)
  {
    kind == UcorfKind && WireHead(kind, b).Accept? && |b| % TWO_16 < WireHead(kind, b).size
  }

  /** The program's parser agrees with the wire format exactly when the cut hides nothing. */
  lemma ParseMatchesWireExactly(kind: Kind, b: bytes)
    ensures ParseHead(kind, b) == WireHead(kind, b) <==> !HiddenByCut(kind, b)
    ensures HiddenByCut(kind, b) ==> ParseHead(kind, b) == Reject && |b| >= TWO_16
  {
  }

  /** A header once readable stays the same however many bytes arrive after it. */
  lemma WireHeadStable(kind: Kind, b: bytes, more: bytes)
    requires WireHead(kind, b).Accept?
    ensures WireHead(kind, b + more) == WireHead(kind, b)
  {
    if kind == UcorfKind {
      SliceOfFront(b, more, 2, 6);
      SliceOfFront(b, more, 6, 10);
      SliceOfFront(b, more, 10, 12);
      SliceOfFront(b, more, 12, 14);
      var serviceEnd := 14 + FromBe16(b[10..12]) as int;
      SliceOfFront(b, more, 14, serviceEnd);
      SliceOfFront(b, more, serviceEnd, WireHead(kind, b).size);
    } else {
      SliceOfFront(b, more, 0, 4);
      SliceOfFront(b, more, 4, 8);
    }
  }

  /** It is already readable as soon as all of it is there. */
  lemma WireHeadInPrefix(kind: Kind, b: bytes, n: nat)
    requires n <= |b| && WireHead(kind, b).Accept? && WireHead(kind, b).size <= n
    ensures WireHead(kind, b[..n]) == WireHead(kind, b)
  {
    if kind == UcorfKind {
      SliceOfPrefix(b, n, 2, 6);
      SliceOfPrefix(b, n, 6, 10);
      SliceOfPrefix(b, n, 10, 12);
      SliceOfPrefix(b, n, 12, 14);
      var serviceEnd := 14 + FromBe16(b[10..12]) as int;
      SliceOfPrefix(b, n, 14, serviceEnd);
      SliceOfPrefix(b, n, serviceEnd, WireHead(kind, b).size);
    } else {
      SliceOfPrefix(b, n, 0, 4);
      SliceOfPrefix(b, n, 4, 8);
    }
  }

  /** A header whose names fit the 16-bit length fields; every Hprose header does. */
  predicate NamesFit(h: Head)
  {
    h.Ucorf? ==> |h.service| < TWO_16 && |h.method_| < TWO_16
  }

  lemma EncodedFields(h: Head, rest: bytes)
    requires h.Ucorf?
    ensures var b := Encode(h) + rest;
            && b[0] == MAGIC && b[1] == h.calltype && b[2..6] == Be32(h.callid)
            && b[6..10] == Be32(h.bodyLength)
            && b[10..12] == Be16(|h.service| % TWO_16) && b[12..14] == Be16(|h.method_| % TWO_16)
            && b[14..] == h.service + h.method_ + rest
  {
  }

  /** Wire round trip: parsing an encoded header returns it exactly when its names fit. */
  lemma WireRoundTripExactly(h: Head, rest: bytes)
    ensures WireHead(h.Kind(), Encode(h) + rest) == Accept(h, ByteSize(h)) <==> NamesFit(h)
  {
    var b := Encode(h) + rest;
    if h.Ucorf? {
      EncodedFields(h, rest);
      if NamesFit(h) {
        NamesBehindFields(b, h.service, h.method_, rest);
      }
      hide Encode, Be16, Be32;
      FieldsReadBack(h);
    } else {
      assert b[0..4] == Be32(h.bodyLength) && b[4..8] == Be32(h.callid);
    }
  }

  lemma NamesBehindFields(b: bytes, service: bytes, method_: bytes, rest: bytes)
    requires |b| >= 14 && b[14..] == service + method_ + rest
    ensures var n := 14 + |service|;
            n + |method_| <= |b| && b[14..n] == service && b[n..n + |method_|] == method_
  {
    var n := 14 + |service|;
    assert b[14..n] == b[14..][..|service|];
    assert b[n..n + |method_|] == b[14..][|service|..|service| + |method_|];
  }

  lemma FieldsReadBack(h: Head)
    requires h.Ucorf?
    ensures FromBe32(Be32(h.callid)) == h.callid && FromBe32(Be32(h.bodyLength)) == h.bodyLength
    ensures FromBe16(Be16(|h.service| % TWO_16)) == |h.service| % TWO_16
    ensures FromBe16(Be16(|h.method_| % TWO_16)) == |h.method_| % TWO_16
  {
  }

  /** The program's round trip: names must fit and the buffer must not hide the header's end. */
  lemma HeadRoundTripExactly(h: Head, rest: bytes)
    ensures ParseHead(h.Kind(), Encode(h) + rest) == Accept(h, ByteSize(h))
       <==> NamesFit(h) && (h.Ucorf? ==> (ByteSize(h) + |rest|) % TWO_16 >= ByteSize(h))
  {
    WireRoundTripExactly(h, rest);
    ParseMatchesWireExactly(h.Kind(), Encode(h) + rest);
  }

  /** In a buffer of exactly 65536 bytes no Ucorf header is ever recognised. */
  lemma FullBufferHidesEveryHeader(b: bytes)
    requires |b| == TWO_16
    ensures ParseHead(UcorfKind, b) == Reject
  {
  }

  // ---- Exactly which bytes are headers ----

  lemma BytesOf16(b: bytes)
    requires |b| == 2
    ensures Be16(FromBe16(b)) == b
  {
  }

  lemma BytesOf32(b: bytes)
    requires |b| == 4
    ensures Be32(FromBe32(b)) == b
  {
    BytesOf16(b[..2]);
    BytesOf16(b[2..]);
    var high, low := FromBe16(b[..2]), FromBe16(b[2..]);
    hide FromBe16, Be16;
    assert FromBe32(b) / 0x1_0000 == high && FromBe32(b) % 0x1_0000 == low;
    assert b == b[..2] + b[2..];
  }

  /** A 32-bit field on the wire: the most significant byte first. */
  lemma Be32Bytes(n: u32)
    ensures var b := Be32(n);
            b[0] as int * 0x100_0000 + b[1] as int * 0x1_0000 + b[2] as int * 0x100 + b[3] as int == n
  {
  }

  /** A Ucorf header byte by byte. */
  lemma UcorfBytes(h: Head)
    requires h.Ucorf?
    ensures var b := Encode(h);
            && |b| == 14 + |h.service| + |h.method_| && b[0] == 0xf8 && b[1] == h.calltype
            && b[2] as int * 0x100_0000 + b[3] as int * 0x1_0000 + b[4] as int * 0x100 + b[5] as int == h.callid
            && b[6] as int * 0x100_0000 + b[7] as int * 0x1_0000 + b[8] as int * 0x100 + b[9] as int == h.bodyLength
            && b[10] as int * 0x100 + b[11] as int == |h.service| % 0x1_0000
            && b[12] as int * 0x100 + b[13] as int == |h.method_| % 0x1_0000
            && b[14..] == h.service + h.method_
  {
    Be32Bytes(h.callid);
    Be32Bytes(h.bodyLength);
    EncodedFields(h, []);
    var b := Encode(h) + [];
    assert b == Encode(h);
    hide Encode, Be32;
    assert forall i :: 0 <= i < 4 ==> b[2..6][i] == b[2 + i] && b[6..10][i] == b[6 + i];
    assert forall i :: 0 <= i < 2 ==> b[10..12][i] == b[10 + i] && b[12..14][i] == b[12 + i];
    assert h.service + h.method_ + [] == h.service + h.method_;
  }

  /** An Hprose header byte by byte: the length of the body, then the id. */
  lemma HproseBytes(h: Head)
    requires h.Hprose?
    ensures var b := Encode(h);
            && |b| == 8
            && b[0] as int * 0x100_0000 + b[1] as int * 0x1_0000 + b[2] as int * 0x100 + b[3] as int == h.bodyLength
            && b[4] as int * 0x100_0000 + b[5] as int * 0x1_0000 + b[6] as int * 0x100 + b[7] as int == h.callid
  {
    Be32Bytes(h.bodyLength);
    Be32Bytes(h.callid);
    hide Be32;
  }

  lemma HeaderSlices(b: bytes, serviceEnd: nat, end: nat)
    requires 14 <= serviceEnd <= end <= |b|
    ensures b[..end] ==
              [b[0], b[1]] + b[2..6] + b[6..10] + b[10..12] + b[12..14] + b[14..serviceEnd] + b[serviceEnd..end]
  {
  }

  lemma ParsedFields(b: bytes)
    requires WireHead(UcorfKind, b).Accept?
    ensures var p := WireHead(UcorfKind, b);
            && NamesFit(p.head) && 14 <= 14 + |p.head.service| <= p.size <= |b|
            && b[0] == MAGIC && b[1] == p.head.calltype
            && Be32(p.head.callid) == b[2..6] && Be32(p.head.bodyLength) == b[6..10]
            && Be16(|p.head.service| % TWO_16) == b[10..12] && Be16(|p.head.method_| % TWO_16) == b[12..14]
            && p.head.service == b[14..14 + |p.head.service|] && p.head.method_ == b[14 + |p.head.service|..p.size]
  {
    hide Be32, Be16, FromBe32, FromBe16;
    BytesOf32(b[2..6]);
    BytesOf32(b[6..10]);
    BytesOf16(b[10..12]);
    BytesOf16(b[12..14]);
  }

  lemma AcceptedIsEncoded(kind: Kind, b: bytes)
    requires WireHead(kind, b).Accept?
    ensures var p := WireHead(kind, b);
            NamesFit(p.head) && Encode(p.head) == b[..p.size]
  {
    if kind == UcorfKind {
      var p := WireHead(kind, b);
      ParsedFields(b);
      HeaderSlices(b, 14 + |p.head.service|, p.size);
      hide Be32, Be16, WireHead;
    } else {
      BytesOf32(b[0..4]);
      BytesOf32(b[4..8]);
      hide Be32, FromBe32;
      assert b[..8] == b[0..4] + b[4..8];
    }
  }

  /** Bytes start with a header if and only if they start with the encoding of one whose names fit. */
  lemma WireHeadExactly(kind: Kind, b: bytes, h: Head, n: nat)
    ensures WireHead(kind, b) == Accept(h, n) <==>
            h.Kind() == kind && NamesFit(h) && Encode(h) <= b && n == ByteSize(h)
  {
    if WireHead(kind, b) == Accept(h, n) {
      AcceptedIsEncoded(kind, b);
    }
    if h.Kind() == kind && NamesFit(h) && Encode(h) <= b {
      assert b == Encode(h) + b[ByteSize(h)..];
      WireRoundTripExactly(h, b[ByteSize(h)..]);
    }
  }

  /**
   The program accepts a header if and only if its encoding is there and, for Ucorf, no longer than the
   buffer's size modulo 65536.
   */
  lemma ParseHeadExactly(kind: Kind, b: bytes, h: Head, n: nat)
    ensures ParseHead(kind, b) == Accept(h, n) <==>
            && h.Kind() == kind && NamesFit(h) && Encode(h) <= b && n == ByteSize(h)
            && (kind == UcorfKind ==> n <= |b| % 0x1_0000)
  {
    WireHeadExactly(kind, b, h, n);
    ParseMatchesWireExactly(kind, b);
  }

  /** No Ucorf header without the magic byte. */
  lemma MagicExpected(b: bytes)
    requires b != [] && b[0] != 0xf8
    ensures ParseHead(UcorfKind, b) == Reject && WireHead(UcorfKind, b) == Reject
  {
  }

  // ---- The header objects ----

  /** Copies `src` into `dst` from position `at`, as `memcpy` does. */
  method CopyInto(dst: array<byte>, at: nat, src: bytes)
    requires at + |src| <= dst.Length
    modifies dst
    ensures dst[..at + |src|] == old(dst[..at]) + src
    ensures forall k :: at + |src| <= k < dst.Length ==> dst[k] == old(dst[k])
  {
    var i := 0;
    while i < |src|
      invariant 0 <= i <= |src|
      invariant dst[..at + i] == old(dst[..at]) + src[..i]
      invariant forall k :: at + i <= k < dst.Length ==> dst[k] == old(dst[k])
    {
      dst[at + i] := src[i];
      i := i + 1;
    }
    assert src[..|src|] == src;
  }

  class UcorfHead {
    var calltype: byte
    var callid: u32
    var bodyLength: u32
    var service: bytes
    var method_: bytes

    constructor ()
      ensures Value() == Ucorf(0, 0, 0, [], [])
    {
      calltype, callid, bodyLength, service, method_ := 0, 0, 0, [], [];
    }

    function Value(): Head
      reads this
    {
      Ucorf(calltype, callid, bodyLength, service, method_)
    }

    /** Ids and lengths are cut to 32 bits when they are set. */
    method SetId(id: nat)
      modifies this
      ensures Value() == old(Value()).(callid := id % TWO_32)
    {
      callid := id % TWO_32;
    }

    method SetType(t: byte)
      modifies this
      ensures Value() == Ucorf(t, old(callid), old(bodyLength), old(service), old(method_))
    {
      calltype := t;
    }

    method SetFollowBytes(n: nat)
      modifies this
      ensures Value() == old(Value()).(bodyLength := n % TWO_32)
    {
      bodyLength := n % TWO_32;
    }

    method SetNames(srv: bytes, mthd: bytes)
      modifies this
      ensures Value() == Ucorf(old(calltype), old(callid), old(bodyLength), srv, mthd)
    {
      service := srv;
      method_ := mthd;
    }

    method Serialize(buf: array<byte>, len: nat) returns (ok: bool)
      requires len <= buf.Length
      modifies buf
      ensures ok == (ByteSize(Value()) <= len)
      ensures buf[..] == if ok then Encode(Value()) + old(buf[ByteSize(Value())..]) else old(buf[..])
    {
      hide Be16, Be32;
      if len < ByteSize(Value()) {
        return false;
      }
      CopyInto(buf, 0, [MAGIC, calltype]);
      assert buf[..2] == [MAGIC, calltype];
      CopyInto(buf, 2, Be32(callid));
      CopyInto(buf, 6, Be32(bodyLength));
      CopyInto(buf, 10, Be16(|service| % TWO_16));
      CopyInto(buf, 12, Be16(|method_| % TWO_16));
      CopyInto(buf, 14, service);
      CopyInto(buf, 14 + |service|, method_);
      var n := ByteSize(Value());
      assert buf[..n] == Encode(Value());
      assert buf[n..] == old(buf[n..]);
      assert buf[..] == buf[..n] + buf[n..];
      return true;
    }

    /** Returns the header size, or 0 and changes nothing when no header is recognised. */
    method Parse(buf: bytes) returns (size: nat)
      modifies this
      ensures match ParseHead(UcorfKind, buf)
              case Reject => size == 0 && Value() == old(Value())
              case Accept(h, n) => size == n && Value() == h
    {
      if |buf| < 14 || buf[0] != MAGIC {
        return 0;
      }
      var serviceLen := FromBe16(buf[10..12]);
      var methodLen := FromBe16(buf[12..14]);
      size := 14 + serviceLen as int + methodLen as int;
      if |buf| % TWO_16 < size {
        return 0;
      }
      calltype := buf[1];
      callid := FromBe32(buf[2..6]);
      bodyLength := FromBe32(buf[6..10]);
      service := buf[14..14 + serviceLen];
      method_ := buf[14 + serviceLen..size];
    }
  }

  class HproseHead {
    var callid: u32
    var bodyLength: u32

    constructor ()
      ensures Value() == Hprose(0, 0)
    {
      callid, bodyLength := 0, 0;
    }

    function Value(): Head
      reads this
    {
      Hprose(callid, bodyLength)
    }

    method SetId(id: nat)
      modifies this
      ensures Value() == old(Value()).(callid := id % TWO_32)
    {
      callid := id % TWO_32;
    }

    method SetFollowBytes(n: nat)
      modifies this
      ensures Value() == old(Value()).(bodyLength := n % TWO_32)
    {
      bodyLength := n % TWO_32;
    }

    method Serialize(buf: array<byte>, len: nat) returns (ok: bool)
      requires len <= buf.Length
      modifies buf
      ensures ok == (8 <= len)
      ensures buf[..] == if ok then Encode(Value()) + old(buf[8..]) else old(buf[..])
    {
      if len < 8 {
        return false;
      }
      CopyInto(buf, 0, Be32(bodyLength));
      CopyInto(buf, 4, Be32(callid));
      assert buf[..] == buf[..8] + buf[8..];
      return true;
    }

    method Parse(buf: bytes) returns (size: nat)
      modifies this
      ensures match ParseHead(HproseKind, buf)
              case Reject => size == 0 && Value() == old(Value())
              case Accept(h, n) => size == n && Value() == h
    {
      if |buf| < 8 {
        return 0;
      }
      bodyLength := FromBe32(buf[0..4]);
      callid := FromBe32(buf[4..8]);
      return 8;
    }
  }

  /** One turn of `head_factory_()` followed by `Parse`: a fresh header object and what it read. */
  method ParseNew(kind: Kind, buf: bytes) returns (head: Head, size: nat)
    ensures match ParseHead(kind, buf)
            case Reject => size == 0
            case Accept(h, n) => size == n && head == h
  {
    match kind
    case UcorfKind =>
      var header := new UcorfHead();
      size := header.Parse(buf);
      head := header.Value();
    case HproseKind =>
      var header := new HproseHead();
      size := header.Parse(buf);
      head := header.Value();
  }
}
