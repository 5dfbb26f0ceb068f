/**
 `hprose::Buffer`: bytes appended at one end, a read cursor at the other. Every `Read` takes a
 sentry that puts the cursor back unless the read commits; reads of list elements nest sentries.
 */
module HproseBuffer {
  import opened Prelude
  import opened Decimal
  import opened HproseFormat

  /** How a `Read` ends: true, false, or an exception from `resize` with a negative count. */
  datatype Status = Ok | Failed | Exception

  class Buffer {
    var s: bytes
    var readPos: nat

    constructor (s: bytes)
      ensures this.s == s && readPos == 0
    {
      this.s := s;
      readPos := 0;
    }

    /** The bytes in front of the cursor. */
    function Left(): bytes
      requires readPos <= |s|
      reads this
    {
      s[readPos..]
    }

    /** The next byte, or -1 at the end. */
    method Get() returns (v: int)
      requires readPos <= |s|
      modifies this`readPos
      ensures v == if old(Left()) == [] then -1 else old(Left())[0] as int
      ensures readPos == old(readPos) + if old(Left()) == [] then 0 else 1
    {
      if readPos >= |s| {
        return -1;
      }
      v := s[readPos] as int;
      readPos := readPos + 1;
    }

    /** Through the first `c`; when there is none the sentry restores the cursor. */
    method ReadUntil(c: byte) returns (r: bytes)
      requires readPos <= |s|
      modifies this`readPos
      ensures r == Until(old(Left()), c) && readPos == old(readPos) + |r| <= |s|
    {
      var begin := readPos;
      ghost var left := Left();
      while true
        invariant begin <= readPos <= |s|
        invariant IndexOf(left, c) == readPos - begin + IndexOf(s[readPos..], c)
        decreases |s| - readPos
      {
        ghost var at := readPos;
        var v := Get();
        if v == -1 {
          readPos := begin;
          return [];
        }
        assert s[at..][1..] == s[at + 1..];
        if v == c as int {
          return s[begin..readPos];
        }
      }
    }

    /** `n` bytes, but only if at least one more follows them. */
    method ReadN(n: nat) returns (r: bytes)
      requires readPos <= |s|
      modifies this`readPos
      ensures r == if n < |old(Left())| then old(Left())[..n] else []
      ensures readPos == old(readPos) + |r| <= |s|
    {
      if readPos + n < |s| {
        readPos := readPos + n;
        return s[readPos - n..readPos];
      }
      return [];
    }

    /** What a read of type `t` does to the cursor and to the variable it reads into. */
    ghost predicate ReadsAs(t: Type, left: bytes, pos: nat, out: Value, status: Status, v: Value)
      reads this
    {
      match HproseFormat.Read(t, left)
      case Got(value, size) => status == Ok && v == value && readPos == pos + size
      case Missing => status == Failed && v == out && readPos == pos
      case Threw => status == Exception && v == out && readPos == pos
    }

    /**
     Every `Read`: a failed or throwing read leaves the cursor and the output as they were, through
     all nested sentries; a successful one moves the cursor past what it read.
     */
    method Read(t: Type, out: Value) returns (status: Status, v: Value)
      requires readPos <= |s|
      modifies this`readPos
      ensures ReadsAs(t, old(Left()), old(readPos), out, status, v)
      ensures status != Ok ==> readPos == old(readPos) && v == out
      ensures status == Ok ==> old(readPos) < readPos <= |s|
      decreases t, 1, 0
    {
      var pos := readPos;
      status, v := RawRead(t, out);
      if status != Ok {
        readPos := pos;
      }
    }

    /** `__Read`: the same without the sentry, so a failure leaves the cursor anywhere behind it. */
    method RawRead(t: Type, out: Value) returns (status: Status, v: Value)
      requires readPos <= |s|
      modifies this`readPos
      ensures match HproseFormat.Read(t, old(Left()))
              case Got(value, size) => status == Ok && v == value && readPos == old(readPos) + size
              case Missing => status == Failed && v == out
              case Threw => status == Exception && v == out
      ensures status == Ok ==> old(readPos) < readPos <= |s|
      decreases t, 0, 0
    {
      match t
      case Int32 => status, v := RawReadInt(t, out);
      case Int64 => status, v := RawReadInt(t, out);
      case Bool => status, v := RawReadBool(out);
      case Str => status, v := RawReadText(out);
      case List(e) => status, v := RawReadList(e, out);
    }

    method RawReadInt(t: Type, out: Value) returns (status: Status, v: Value)
      requires (t.Int32? || t.Int64?) && readPos <= |s|
      modifies this`readPos
      ensures match ReadInt(t, old(Left()))
              case Got(value, size) => status == Ok && v == value && readPos == old(readPos) + size
              case _ => status == Failed && v == out
    {
      var c := Get();
      if c == -1 {
        return Failed, out;
      }
      if 48 <= c <= 57 {
        return Ok, Num(c - 48);
      }
      assert old(Left())[1..] == Left();
      if c == TAG_INTEGER as int {
        var digits := ReadUntil(SEMICOLON);
        return Ok, Num(Atoi(digits));
      }
      if c == TAG_LONG as int {
        var digits := ReadUntil(SEMICOLON);
        return Ok, Num(Narrow(Atoll(digits), t));
      }
      return Failed, out;
    }

    method RawReadBool(out: Value) returns (status: Status, v: Value)
      requires readPos <= |s|
      modifies this`readPos
      ensures match ReadBool(old(Left()))
              case Got(value, size) => status == Ok && v == value && readPos == old(readPos) + size
              case _ => status == Failed && v == out
    {
      var c := Get();
      if c == TAG_TRUE as int {
        return Ok, Truth(true);
      } else if c == TAG_FALSE as int {
        return Ok, Truth(false);
      }
      return Failed, out;
    }

    method RawReadText(out: Value) returns (status: Status, v: Value)
      requires readPos <= |s|
      modifies this`readPos
      ensures match ReadText(old(Left()))
              case Got(value, size) => status == Ok && v == value && readPos == old(readPos) + size
              case _ => status == Failed && v == out
    {
      hide ReadText, Until, IndexOf, Atoi, Utf8Count;
      ghost var left := Left();
      TextBegins(left);
      var c := Get();
      if c == TAG_EMPTY as int {
        return Ok, Text([]);
      }
      if c != TAG_STRING as int && c != TAG_BYTES as int {
        return Failed, out;
      }
      assert left[1..] == Left();
      NoMarkAhead(Left(), QUOTE);
      var lenText := ReadUntil(QUOTE);
      if lenText == [] {
        c := Get();
        if c == QUOTE as int {
          return Ok, Text([]);
        }
        return Failed, out;
      }
      ghost var rest := Left();
      assert rest == left[1 + |lenText|..];
      var len := Atoi(lenText);
      TextCounted(left, lenText, rest);
      if len <= 0 {
        return Failed, out;
      }
      var bin := ReadN(len);
      if |bin| != len {
        return Failed, out;
      }
      assert Left() == rest[len..];
      c := Get();
      if c == QUOTE as int {
        return Ok, Text(bin);
      }
      return Failed, out;
    }

    method RawReadList(e: Type, out: Value) returns (status: Status, v: Value)
      requires readPos <= |s|
      modifies this`readPos
      ensures match HproseFormat.Read(List(e), old(Left()))
              case Got(value, size) => status == Ok && v == value && readPos == old(readPos) + size
              case Missing => status == Failed && v == out
              case Threw => status == Exception && v == out
      ensures status == Ok ==> old(readPos) < readPos <= |s|
      decreases e, 3, 0
    {
      hide HproseFormat.Read, ReadAll, Until, IndexOf, Atoi;
      ghost var left := Left();
      ListStarts(e, left);
      var c := Get();
      if c != TAG_LIST as int {
        return Failed, out;
      }
      assert left[1..] == Left();
      var lenText := ReadUntil(OPEN);
      if lenText == [] {
        c := Get();
        if c == CLOSE as int {
          return Ok, Items([]);
        }
        return Failed, out;
      }
      ghost var rest := Left();
      assert rest == left[1 + |lenText|..];
      var n := Atoi(lenText);
      ListUnfolds(e, left, lenText);
      if n < 0 {
        return Exception, out;
      }
      var vs;
      status, vs := ReadElements(e, n);
      if status != Ok {
        return status, out;
      }
      assert Left() == rest[ReadAll(e, n, rest).size..];
      c := Get();
      if c == CLOSE as int {
        return Ok, Items(vs);
      }
      return Failed, out;
    }

    /** The loop over the resized container, each element read under its own sentry. */
    method ReadElements(e: Type, n: nat) returns (status: Status, vs: seq<Value>)
      requires readPos <= |s|
      modifies this`readPos
      ensures match ReadAll(e, n, old(s[readPos..]))
              case Got(values, size) => status == Ok && vs == values && readPos == old(readPos) + size
              case Missing => status == Failed
              case Threw => status == Exception
      ensures readPos <= |s|
      decreases e, 2, n
    {
      hide *;
      vs := [];
      var k := 0;
      ghost var all := ReadAll(e, n, s[readPos..]);
      GatherNothing(all);
      while k < n
        invariant 0 <= k <= n && |vs| == k
        invariant old(readPos) <= readPos <= |s|
        invariant all == Gathered(vs, readPos - old(readPos), ReadAll(e, n - k, s[readPos..]))
      {
        ghost var left := s[readPos..];
        ghost var at := readPos;
        GatherOne(e, n - k, left, vs, readPos - old(readPos));
        var v;
        status, v := ReadElement(e);
        if status != Ok {
          return status, [];
        }
        assert left[readPos - at..] == s[readPos..];
        vs := vs + [v];
        k := k + 1;
      }
      GatherDone(e, s[readPos..], vs, readPos - old(readPos));
      status := Ok;
    }

    method ReadElement(e: Type) returns (status: Status, v: Value)
      requires readPos <= |s|
      modifies this`readPos
      ensures match HproseFormat.Read(e, old(s[readPos..]))
              case Got(value, size) => status == Ok && v == value && readPos == old(readPos) + size
              case Missing => status == Failed
              case Threw => status == Exception
      ensures readPos <= |s|
      ensures status == Ok ==> old(readPos) < readPos
      decreases e, 1, 1
    {
      status, v := Read(e, Num(0));
    }

    // ---- Writing ----

    /** Appends the value; the cursor does not move. */
    method Write(t: Type, v: Value)
      requires HasType(v, t)
      modifies this`s
      ensures s == old(s) + HproseFormat.Write(t, v)
      decreases t, 1
    {
      match t
      case Int32 => PutInt(v.i, TAG_INTEGER);
      case Int64 => PutInt(v.i, TAG_LONG);
      case Bool => Put([if v.b then TAG_TRUE else TAG_FALSE]);
      case Str => WriteString(v.s, false);
      case List(e) => PutList(e, v.vs);
    }

    method Put(w: bytes)
      modifies this`s
      ensures s == old(s) + w
    {
      s := s + w;
    }

    method PutInt(i: int, tag: byte)
      modifies this`s
      ensures s == old(s) + WriteInt(i, tag)
    {
      if 0 <= i <= 9 {
        Put([ZERO + i]);
        return;
      }
      hide ToString;
      Put([tag]);
      Put(ToString(i));
      Put([SEMICOLON]);
      assert s == old(s) + ([tag] + ToString(i) + [SEMICOLON]);
    }

    method WriteString(str: bytes, utf8: bool)
      modifies this`s
      ensures s == old(s) + WriteText(str, utf8)
    {
      hide Digits, Utf8Count, ToString;
      if str == [] {
        Put([TAG_EMPTY]);
        return;
      }
      Put([if utf8 then TAG_STRING else TAG_BYTES]);
      var count := |str|;
      if utf8 {
        count := CountUtf8(str);
      }
      Put(ToString(Wrap32(count)));
      Put([QUOTE]);
      Put(str);
      Put([QUOTE]);
    }

    /** Its inner loop, over the leader's bits. */
    method CountFollow(leader: byte) returns (follow: nat)
      ensures follow == FollowBytes(leader)
    {
      hide TopBit;
      follow := 0;
      while follow <= 6 && TopBit(leader, follow) != 0
        invariant 0 <= follow <= 7 && forall k :: 0 <= k < follow ==> TopBit(leader, k) == 1
      {
        TopBitIsBit(leader, follow);
        follow := follow + 1;
      }
      FollowBytesExactly(leader, follow);
    }

    /** The counting loop of `utf8_char_count`. */
    method CountUtf8(str: bytes) returns (chars: nat)
      ensures chars == Utf8Count(str)
    {
      chars := 0;
      var i := 0;
      while i < |str|
        invariant i <= |str| ==> Utf8Count(str) == chars + Utf8Count(str[i..])
        invariant i > |str| ==> Utf8Count(str) == chars
        decreases |str| - i
      {
        var follow := CountFollow(str[i]);
        assert i + 1 + follow <= |str| ==> str[i..][1 + follow..] == str[i + 1 + follow..];
        i := i + follow + 1;
        chars := chars + 1;
      }
    }

    method PutList(e: Type, vs: seq<Value>)
      requires HasType(Items(vs), List(e))
      modifies this`s
      ensures s == old(s) + HproseFormat.Write(List(e), Items(vs))
      decreases e, 4
    {
      ghost var body := WriteAll(e, vs);
      hide WriteAll, HasType, HproseFormat.Write, Digits;
      ListBytes(e, vs);
      Put([TAG_LIST]);
      if |vs| == 0 {
        Put([OPEN]);
        Put([CLOSE]);
        PartsJoin(old(s), [TAG_LIST], [OPEN], [], [], [CLOSE]);
        return;
      }
      Put(Digits(|vs|));
      Put([OPEN]);
      PutElements(e, vs);
      Put([CLOSE]);
      PartsJoin(old(s), [TAG_LIST], Digits(|vs|), [OPEN], body, [CLOSE]);
    }

    method PutElements(e: Type, vs: seq<Value>)
      requires HasType(Items(vs), List(e))
      modifies this`s
      ensures s == old(s) + WriteAll(e, vs)
      decreases e, 3
    {
      var k := 0;
      hide *;
      WriteAllEnds(e, vs);
      while k < |vs|
        invariant 0 <= k <= |vs|
        invariant forall x :: x in vs[k..] ==> HasType(x, e)
        invariant s + WriteAll(e, vs[k..]) == old(s) + WriteAll(e, vs)
      {
        WriteAllPart(e, vs, k);
        Regrouped(s, HproseFormat.Write(e, vs[k]), WriteAll(e, vs[k + 1..]));
        Write(e, vs[k]);
        k := k + 1;
      }
    }
  }

  /** The whole, when `vs` have been read in `used` bytes and `rest` is what the others come to. */
  function Gathered(vs: seq<Value>, used: nat, rest: Outcome<seq<Value>>): Outcome<seq<Value>> {
    match rest
    case Got(values, size) => Got(vs + values, used + size)
    case Missing => Missing
    case Threw => Threw
  }

  lemma NoMarkAhead(left: bytes, c: byte)
    ensures Until(left, c) == [] ==> left == [] || left[0] != c
  {
    IndexOfAbsent(left, c);
  }

  lemma GatherNothing(all: Outcome<seq<Value>>)
    ensures Gathered([], 0, all) == all
  {
    assert all.Got? ==> [] + all.value == all.value;
  }

  lemma GatherDone(e: Type, left: bytes, vs: seq<Value>, used: nat)
    ensures Gathered(vs, used, ReadAll(e, 0, left)) == Got(vs, used)
  {
    assert vs + [] == vs;
  }

  lemma GatherOne(e: Type, n: nat, left: bytes, vs: seq<Value>, used: nat)
    requires n > 0
    ensures var all := Gathered(vs, used, ReadAll(e, n, left));
            match HproseFormat.Read(e, left)
            case Got(v, size) =>
              size <= |left| && all == Gathered(vs + [v], used + size, ReadAll(e, n - 1, left[size..]))
            case Missing => all == Missing
            case Threw => all == Threw
  {
    hide HproseFormat.Read;
    var o := HproseFormat.Read(e, left);
    if o.Got? {
      var others := ReadAll(e, n - 1, left[o.size..]);
      if others.Got? {
        Regrouped(vs, [o.value], others.value);
      }
    }
  }

  lemma WriteAllPart(e: Type, vs: seq<Value>, k: nat)
    requires k < |vs| && forall x :: x in vs[k..] ==> HasType(x, e)
    ensures HasType(vs[k], e) && forall x :: x in vs[k + 1..] ==> HasType(x, e)
    ensures WriteAll(e, vs[k..]) == HproseFormat.Write(e, vs[k]) + WriteAll(e, vs[k + 1..])
  {
    assert vs[k..][0] == vs[k] && vs[k..][1..] == vs[k + 1..];
    forall x | x in vs[k + 1..]
      ensures x in vs[k..]
    {
      var i :| 0 <= i < |vs[k + 1..]| && vs[k + 1..][i] == x;
      assert vs[k..][i + 1] == x;
    }
  }

  lemma WriteAllEnds(e: Type, vs: seq<Value>)
    requires HasType(Items(vs), List(e))
    ensures forall x :: x in vs ==> HasType(x, e)
    ensures WriteAll(e, vs[|vs|..]) == [] && vs[0..] == vs
  {
  }

  lemma PartsJoin(s: bytes, a: bytes, b: bytes, c: bytes, d: bytes, e: bytes)
    ensures s + a + b + c + d + e == s + (a + b + c + d + e)
    ensures s + a + b + [] + [] + e == s + a + b + e && a + b + [] + [] + e == a + b + e
  {
  }

  lemma ListBytes(e: Type, vs: seq<Value>)
    requires HasType(Items(vs), List(e))
    ensures HproseFormat.Write(List(e), Items(vs)) ==
              if vs == [] then [TAG_LIST] + [OPEN] + [CLOSE]
              else [TAG_LIST] + Digits(|vs|) + [OPEN] + WriteAll(e, vs) + [CLOSE]
  {
  }
}
