/**
 The Hprose text format as functions: what `Buffer::Write` appends for a value, and what
 `Buffer::Read` makes of the bytes in front of the cursor. Integers, booleans, byte strings and
 nested lists of these.
 */
module HproseFormat {
  import opened Prelude
  import opened Decimal

  const TAG_INTEGER: byte := 105 // 'i'
  const TAG_LONG: byte := 108 // 'l'
  const TAG_EMPTY: byte := 101 // 'e'
  const TAG_TRUE: byte := 116 // 't'
  const TAG_FALSE: byte := 102 // 'f'
  const TAG_BYTES: byte := 98 // 'b'
  const TAG_STRING: byte := 115 // 's'
  const TAG_LIST: byte := 97 // 'a'
  const SEMICOLON: byte := 59
  const QUOTE: byte := 34
  const OPEN: byte := 123
  const CLOSE: byte := 125

  /** The C++ types a `Read` can be asked for. */
  datatype Type = Int32 | Int64 | Bool | Str | List(elem: Type)

  datatype Value = Num(i: int) | Truth(b: bool) | Text(s: bytes) | Items(vs: seq<Value>)

  predicate HasType(v: Value, t: Type)
    decreases t
  {
    match t
    case Int32 => v.Num? && -TWO_31 <= v.i < TWO_31
    case Int64 => v.Num? && -TWO_63 <= v.i < TWO_63
    case Bool => v.Truth?
    case Str => v.Text?
    case List(e) => v.Items? && forall x :: x in v.vs ==> HasType(x, e)
  }

  // ---- Writing ----

  function WriteInt(i: int, tag: byte): (w: bytes)
    ensures |w| > 0
  {
    if 0 <= i <= 9 then [ZERO + i] else [tag] + ToString(i) + [SEMICOLON]
  }

  /** The bytes after the leader that `utf8_char_count` skips: its leading one bits, at most 7. */
  function FollowBytes(leader: byte): (n: nat)
    ensures n == 0 <==> leader < 128
  {
    if leader < 128 then 0 else if leader < 192 then 1 else if leader < 224 then 2
    else if leader < 240 then 3 else if leader < 248 then 4 else if leader < 252 then 5
    else if leader < 254 then 6 else 7
  }

  /** `utf8_char_count`, from the front of what is left of the string. */
  function Utf8Count(s: bytes): (n: nat)
    ensures n <= |s|
    decreases |s|
  {
    if s == [] then 0
    else
      var skip := 1 + FollowBytes(s[0]);
      1 + if skip <= |s| then Utf8Count(s[skip..]) else 0
  }

  /** A string with its length in front; the length passes through a 32-bit `int`. */
  function WriteText(s: bytes, utf8: bool): (w: bytes)
    ensures |w| > 0
  {
    if s == [] then [TAG_EMPTY]
    else
      var len := Wrap32(if utf8 then Utf8Count(s) else |s|);
      [if utf8 then TAG_STRING else TAG_BYTES] + ToString(len) + [QUOTE] + s + [QUOTE]
  }

  function Write(t: Type, v: Value): (w: bytes)
    requires HasType(v, t)
    ensures |w| > 0
    decreases t, 1, 0
  {
    match t
    case Int32 => WriteInt(v.i, TAG_INTEGER)
    case Int64 => WriteInt(v.i, TAG_LONG)
    case Bool => [if v.b then TAG_TRUE else TAG_FALSE]
    case Str => WriteText(v.s, false)
    case List(e) =>
      if v.vs == [] then [TAG_LIST, OPEN, CLOSE]
      else [TAG_LIST] + Digits(|v.vs|) + [OPEN] + WriteAll(e, v.vs) + [CLOSE]
  }

  function WriteAll(e: Type, vs: seq<Value>): bytes
    requires forall x :: x in vs ==> HasType(x, e)
    decreases e, 2, |vs|
  {
    if vs == [] then [] else Write(e, vs[0]) + WriteAll(e, vs[1..])
  }

  // ---- Reading ----

  /** Got(value, size): the value and how many bytes it took. Threw: an exception left `Read`. */
  datatype Outcome<+T> = Got(value: T, size: nat) | Missing | Threw

  /** The first position of `c`, or the length when there is none. */
  function IndexOf(s: bytes, c: byte): (i: nat)
    ensures i <= |s|
  {
    if s == [] || s[0] == c then 0 else 1 + IndexOf(s[1..], c)
  }

  /** `ReadUntil`: everything through the first `c`; empty, taking nothing, when there is none. */
  function Until(s: bytes, c: byte): (r: bytes)
    ensures |r| <= |s|
  {
    if IndexOf(s, c) < |s| then s[..IndexOf(s, c) + 1] else []
  }

  /** The mark is found at the end of a front without it. */
  lemma {:induction false} IndexOfSkips(front: bytes, c: byte, back: bytes)
    requires c !in front
    ensures IndexOf(front + [c] + back, c) == |front|
  {
    var s := front + [c] + back;
    if front == [] {
      assert s[0] == c;
    } else {
      assert s[0] == front[0];
      assert s[1..] == front[1..] + [c] + back;
      IndexOfSkips(front[1..], c, back);
    }
  }

  lemma {:induction false} IndexOfAbsent(s: bytes, c: byte)
    ensures IndexOf(s, c) == |s| <==> c !in s
    ensures IndexOf(s, c) < |s| ==> s[IndexOf(s, c)] == c
  {
    if s != [] && s[0] != c {
      IndexOfAbsent(s[1..], c);
      assert s == [s[0]] + s[1..];
    }
  }

  /** Assignment to the target integer type. */
  function Narrow(i: int, t: Type): int {
    if t.Int32? then Wrap32(i) else i
  }

  function ReadInt(t: Type, s: bytes): (o: Outcome<Value>)
    requires t.Int32? || t.Int64?
    ensures o.Got? ==> 0 < o.size <= |s| && HasType(o.value, t)
  {
    if s == [] then Missing
    else if IsDigit(s[0]) then Got(Num(s[0] as int - ZERO as int), 1)
    else if s[0] == TAG_INTEGER then
      var digits := Until(s[1..], SEMICOLON);
      Got(Num(Atoi(digits)), 1 + |digits|)
    else if s[0] == TAG_LONG then
      var digits := Until(s[1..], SEMICOLON);
      Got(Num(Narrow(Atoll(digits), t)), 1 + |digits|)
    else Missing
  }

  function ReadBool(s: bytes): (o: Outcome<Value>)
    ensures o.Got? ==> 0 < o.size <= |s| && HasType(o.value, Bool)
  {
    if s != [] && s[0] == TAG_TRUE then Got(Truth(true), 1)
    else if s != [] && s[0] == TAG_FALSE then Got(Truth(false), 1)
    else Missing
  }

  function ReadText(s: bytes): (o: Outcome<Value>)
    ensures o.Got? ==> 0 < o.size <= |s| && HasType(o.value, Str) && |o.value.s| < TWO_31
  {
    if s == [] then Missing
    else if s[0] == TAG_EMPTY then Got(Text([]), 1)
    else if s[0] != TAG_STRING && s[0] != TAG_BYTES then Missing
    else
      var lenText := Until(s[1..], QUOTE);
      if lenText == [] then Missing else
      var len := Atoi(lenText);
      var rest := s[1 + |lenText|..];
      if len <= 0 || len >= |rest| || rest[len] != QUOTE then Missing
      else Got(Text(rest[..len]), 1 + |lenText| + len + 1)
  }

  function Read(t: Type, s: bytes): (o: Outcome<Value>)
    ensures o.Got? ==> 0 < o.size <= |s| && HasType(o.value, t)
    decreases t, 0
  {
    match t
    case Int32 => ReadInt(t, s)
    case Int64 => ReadInt(t, s)
    case Bool => ReadBool(s)
    case Str => ReadText(s)
    case List(e) =>
      if s == [] || s[0] != TAG_LIST then Missing
      else
        var lenText := Until(s[1..], OPEN);
        if lenText == [] then
          if |s| > 1 && s[1] == CLOSE then Got(Items([]), 2) else Missing
        else
          var n := Atoi(lenText);
          var rest := s[1 + |lenText|..];
          if n < 0 then Threw else CloseList(ReadAll(e, n, rest), rest, 1 + |lenText|)
  }

  /** After the elements, which started `head` bytes into the list, the closing brace. */
  function CloseList(elements: Outcome<seq<Value>>, rest: bytes, head: nat): Outcome<Value> {
    match elements
    case Got(vs, size) =>
      if size < |rest| && rest[size] == CLOSE then Got(Items(vs), head + size + 1) else Missing
    case Missing => Missing
    case Threw => Threw
  }

  /** The elements of a list, one after another. */
  function ReadAll(e: Type, n: nat, s: bytes): (o: Outcome<seq<Value>>)
    ensures o.Got? ==> o.size <= |s| && |o.value| == n && forall x :: x in o.value ==> HasType(x, e)
    decreases e, 1, n
  {
    if n == 0 then Got([], 0)
    else
      match Read(e, s)
      case Missing => Missing
      case Threw => Threw
      case Got(first, size) =>
        match ReadAll(e, n - 1, s[size..])
        case Missing => Missing
        case Threw => Threw
        case Got(others, more) => Got([first] + others, size + more)
  }

  // ---- Values are self-delimiting and round-trip ----

  /** Every string and list in the value is shorter than 2^31. */
  predicate Small(t: Type, v: Value)
    requires HasType(v, t)
    decreases t
  {
    match t
    case Str => |v.s| < TWO_31
    case List(e) => |v.vs| < TWO_31 && forall x :: x in v.vs ==> Small(e, x)
    case _ => true
  }

  /** A length or number in front of its mark is cut off exactly there. */
  lemma UntilMark(number: bytes, c: byte, back: bytes)
    requires c !in number
    ensures Until(number + [c] + back, c) == number + [c]
  {
    IndexOfSkips(number, c, back);
    assert (number + [c] + back)[..|number| + 1] == number + [c];
  }

  lemma NumberHasNoMark(i: int, c: byte)
    requires !IsDigit(c) && c != MINUS
    ensures c !in ToString(i)
  {
    ToStringCharacters(i, c);
  }

  lemma TaggedReads(t: Type, tag: byte, number: bytes, rest: bytes)
    requires (t == Int32 && tag == TAG_INTEGER) || (t == Int64 && tag == TAG_LONG)
    requires number != [] && Until(number + rest, SEMICOLON) == number
    ensures var i := if t == Int32 then Atoi(number) else Atoll(number);
            ReadInt(t, [tag] + number + rest) == Got(Num(i), 1 + |number|)
  {
    assert ([tag] + number + rest)[1..] == number + rest;
  }

  lemma IntRoundTrip(t: Type, i: int, tag: byte, rest: bytes)
    requires (t == Int32 && tag == TAG_INTEGER) || (t == Int64 && tag == TAG_LONG)
    requires HasType(Num(i), t)
    ensures ReadInt(t, WriteInt(i, tag) + rest) == Got(Num(i), |WriteInt(i, tag)|)
  {
    if !(0 <= i <= 9) {
      var number := ToString(i) + [SEMICOLON];
      assert [tag] + number + rest == WriteInt(i, tag) + rest;
      NumberHasNoMark(i, SEMICOLON);
      UntilMark(ToString(i), SEMICOLON, rest);
      TaggedReads(t, tag, number, rest);
      AtollInverts(i, [SEMICOLON]);
      AtoiInvertsExactly(i, [SEMICOLON]);
    }
  }

  /** What reading makes of a string written with the length `len`. */
  lemma TextReads(tag: byte, len: int, s: bytes, rest: bytes)
    requires tag == TAG_STRING || tag == TAG_BYTES
    requires -TWO_31 <= len < TWO_31
    ensures var w := [tag] + ToString(len) + [QUOTE] + s + [QUOTE];
            var back := s + [QUOTE] + rest;
            ReadText(w + rest) ==
              if len <= 0 || len >= |back| || back[len] != QUOTE then Missing
              else Got(Text(back[..len]), |w| - |s| - 1 + len + 1)
  {
    var w := [tag] + ToString(len) + [QUOTE] + s + [QUOTE];
    var back := s + [QUOTE] + rest;
    var all := w + rest;
    assert all[1..] == ToString(len) + [QUOTE] + back;
    NumberHasNoMark(len, QUOTE);
    UntilMark(ToString(len), QUOTE, back);
    AtoiInvertsExactly(len, [QUOTE]);
    assert all[1 + |ToString(len) + [QUOTE]|..] == back;
  }

  /** A string round-trips exactly when the length written is its length and that is below 2^31. */
  lemma TextRoundTripExactly(s: bytes, utf8: bool, rest: bytes)
    ensures ReadText(WriteText(s, utf8) + rest) == Got(Text(s), |WriteText(s, utf8)|)
       <==> |s| < TWO_31 && (utf8 ==> Utf8Count(s) == |s|)
    ensures !(|s| < TWO_31 && (utf8 ==> Utf8Count(s) == |s|)) ==>
              !(ReadText(WriteText(s, utf8) + rest).Got? && ReadText(WriteText(s, utf8) + rest).value == Text(s))
  {
    if s != [] {
      var len := Wrap32(if utf8 then Utf8Count(s) else |s|);
      TextReads(if utf8 then TAG_STRING else TAG_BYTES, len, s, rest);
      var back := s + [QUOTE] + rest;
      assert back[|s|] == QUOTE && back[..|s|] == s;
    }
  }

  /** `utf8_char_count` is the byte length exactly when every byte but the last is ASCII. */
  lemma {:induction false} Utf8CountIsLengthExactly(s: bytes)
    ensures Utf8Count(s) == |s| <==> forall i :: 0 <= i < |s| - 1 ==> s[i] < 128
    decreases |s|
  {
    if |s| > 1 {
      if s[0] < 128 {
        Utf8CountIsLengthExactly(s[1..]);
        assert forall i :: 1 <= i < |s| - 1 ==> s[i] == s[1..][i - 1];
        if forall i :: 0 <= i < |s[1..]| - 1 ==> s[1..][i] < 128 {
          assert forall i :: 1 <= i < |s| - 1 ==> s[i] < 128;
        } else {
          var j :| 0 <= j < |s[1..]| - 1 && s[1..][j] >= 128;
          assert s[j + 1] >= 128;
        }
      }
    }
  }

  /**
   A UTF-8 mode string, such as a method name, round-trips exactly when it is shorter than 2^31 and
   every byte but the last is ASCII.
   */
  lemma Utf8TextRoundTripsExactly(s: bytes, rest: bytes)
    ensures ReadText(WriteText(s, true) + rest) == Got(Text(s), |WriteText(s, true)|)
       <==> |s| < TWO_31 && forall i :: 0 <= i < |s| - 1 ==> s[i] < 128
  {
    TextRoundTripExactly(s, true, rest);
    Utf8CountIsLengthExactly(s);
  }

  lemma ListFrame(e: Type, vs: seq<Value>, rest: bytes)
    requires HasType(Items(vs), List(e)) && vs != []
    ensures var w := Write(List(e), Items(vs));
            var s := w + rest;
            var lenText := Digits(|vs|) + [OPEN];
            && s[0] == TAG_LIST && Until(s[1..], OPEN) == lenText
            && s[1 + |lenText|..] == WriteAll(e, vs) + [CLOSE] + rest
            && |w| == 1 + |lenText| + |WriteAll(e, vs)| + 1
  {
    var w := Write(List(e), Items(vs));
    var s := w + rest;
    var back := WriteAll(e, vs) + [CLOSE] + rest;
    assert s[1..] == Digits(|vs|) + [OPEN] + back;
    DigitsAreDigits(|vs|, OPEN);
    UntilMark(Digits(|vs|), OPEN, back);
  }

  /** The list count survives `to_string` and `atoi` exactly below 2^31. */
  lemma CountReads(n: nat)
    ensures n < TWO_31 ==> Atoi(Digits(n) + [OPEN]) == n
    ensures n >= TWO_31 ==> Atoi(Digits(n) + [OPEN]) != n
  {
    assert ToString(n) == Digits(n);
    if n < TWO_31 {
      AtoiInvertsExactly(n, [OPEN]);
    }
  }

  lemma EmptyListReads(e: Type, rest: bytes)
    ensures Read(List(e), [TAG_LIST, OPEN, CLOSE] + rest) == Got(Items([]), 3)
  {
    var s := [TAG_LIST, OPEN, CLOSE] + rest;
    assert s[1..] == [] + [OPEN] + ([CLOSE] + rest);
    UntilMark([], OPEN, [CLOSE] + rest);
    assert LeadingInteger([OPEN]) == 0;
    assert s[2..][0] == CLOSE;
  }

  lemma ListStarts(e: Type, s: bytes)
    ensures s == [] || s[0] != TAG_LIST ==> Read(List(e), s) == Missing
    ensures s != [] && s[0] == TAG_LIST && Until(s[1..], OPEN) == [] ==>
              Read(List(e), s) == if |s| > 1 && s[1] == CLOSE then Got(Items([]), 2) else Missing
  {
  }

  lemma ListUnfolds(e: Type, s: bytes, lenText: bytes)
    requires s != [] && s[0] == TAG_LIST && lenText != [] && Until(s[1..], OPEN) == lenText
    ensures 1 + |lenText| <= |s|
    ensures var n, rest := Atoi(lenText), s[1 + |lenText|..];
            Read(List(e), s) == if n < 0 then Threw else CloseList(ReadAll(e, n, rest), rest, 1 + |lenText|)
  {
  }

  lemma Closes(vs: seq<Value>, all: bytes, rest: bytes, head: nat)
    ensures CloseList(Got(vs, |all|), all + [CLOSE] + rest, head) == Got(Items(vs), head + |all| + 1)
  {
    assert (all + [CLOSE] + rest)[|all|] == CLOSE;
  }

  /** A list reads back when its elements do. */
  lemma ListRoundTrip(e: Type, vs: seq<Value>, rest: bytes)
    requires HasType(Items(vs), List(e)) && vs != [] && |vs| < TWO_31
    requires ReadAll(e, |vs|, WriteAll(e, vs) + [CLOSE] + rest) == Got(vs, |WriteAll(e, vs)|)
    ensures Read(List(e), Write(List(e), Items(vs)) + rest) == Got(Items(vs), |Write(List(e), Items(vs))|)
  {
    hide *;
    var s, lenText := Write(List(e), Items(vs)) + rest, Digits(|vs|) + [OPEN];
    ListFrame(e, vs, rest);
    CountReads(|vs|);
    ListUnfolds(e, s, lenText);
    Closes(vs, WriteAll(e, vs), rest, 1 + |lenText|);
  }

  /** A list does not read back when its count or its elements do not. */
  lemma ListFails(e: Type, vs: seq<Value>, rest: bytes)
    requires HasType(Items(vs), List(e)) && vs != []
    requires var all := ReadAll(e, |vs|, WriteAll(e, vs) + [CLOSE] + rest);
             |vs| >= TWO_31 || !(all.Got? && all.value == vs)
    ensures var o := Read(List(e), Write(List(e), Items(vs)) + rest);
            !(o.Got? && o.value == Items(vs))
  {
    hide Write, Read, WriteAll, ReadAll, Until, Atoi, Digits, HasType;
    var s, lenText := Write(List(e), Items(vs)) + rest, Digits(|vs|) + [OPEN];
    ListFrame(e, vs, rest);
    CountReads(|vs|);
    ListUnfolds(e, s, lenText);
  }

  /**
   Round trip: reading at the start of what `Write` produced, whatever follows it, gives the value
   back and stops exactly where the value ends.
   */
  lemma {:induction false} RoundTrip(t: Type, v: Value, rest: bytes)
    requires HasType(v, t) && Small(t, v)
    ensures Read(t, Write(t, v) + rest) == Got(v, |Write(t, v)|)
    decreases t, 0
  {
    match t
    case Int32 => IntRoundTrip(t, v.i, TAG_INTEGER, rest);
    case Int64 => IntRoundTrip(t, v.i, TAG_LONG, rest);
    case Bool =>
    case Str => TextRoundTripExactly(v.s, false, rest);
    case List(e) =>
      if v.vs == [] {
        EmptyListReads(e, rest);
      } else {
        RoundTripAll(e, v.vs, [CLOSE] + rest);
        assert WriteAll(e, v.vs) + [CLOSE] + rest == WriteAll(e, v.vs) + ([CLOSE] + rest);
        ListRoundTrip(e, v.vs, rest);
      }
  }

  lemma WriteAllStep(e: Type, vs: seq<Value>, rest: bytes)
    requires vs != [] && forall x :: x in vs ==> HasType(x, e)
    ensures HasType(vs[0], e) && forall x :: x in vs[1..] ==> HasType(x, e)
    ensures WriteAll(e, vs) == Write(e, vs[0]) + WriteAll(e, vs[1..])
    ensures WriteAll(e, vs) + rest == Write(e, vs[0]) + (WriteAll(e, vs[1..]) + rest)
    ensures vs == [vs[0]] + vs[1..]
  {
    var first, others := Write(e, vs[0]), WriteAll(e, vs[1..]);
    hide Write;
    Regrouped(first, others, rest);
  }

  lemma SmallTail(e: Type, vs: seq<Value>, v: Value, others: seq<Value>)
    requires vs == [v] + others && forall x :: x in vs ==> HasType(x, e) && Small(e, x)
    ensures HasType(v, e) && Small(e, v) && forall x :: x in others ==> HasType(x, e) && Small(e, x)
  {
    hide HasType, Small;
    assert v in vs;
  }

  lemma ReadAllAfterFirst(e: Type, n: nat, front: bytes, back: bytes)
    requires n > 0 && Read(e, front + back).Got? && Read(e, front + back).size == |front|
    ensures var first := Read(e, front + back).value;
            ReadAll(e, n, front + back) ==
              match ReadAll(e, n - 1, back)
              case Got(others, more) => Got([first] + others, |front| + more)
              case Missing => Missing
              case Threw => Threw
  {
    assert (front + back)[|front|..] == back;
  }

  lemma {:induction false} RoundTripAll(e: Type, vs: seq<Value>, rest: bytes)
    requires forall x :: x in vs ==> HasType(x, e) && Small(e, x)
    ensures ReadAll(e, |vs|, WriteAll(e, vs) + rest) == Got(vs, |WriteAll(e, vs)|)
    decreases e, 1, |vs|
  {
    hide *;
    if vs == [] {
      NothingReads(e, vs, rest);
    } else {
      WriteAllStep(e, vs, rest);
      SmallTail(e, vs, vs[0], vs[1..]);
      var front, others := Write(e, vs[0]), WriteAll(e, vs[1..]);
      RoundTrip(e, vs[0], others + rest);
      RoundTripAll(e, vs[1..], rest);
      ReadAllJoins(e, |vs|, front, others + rest, vs[0], vs[1..], |others|);
    }
  }

  lemma NothingReads(e: Type, vs: seq<Value>, rest: bytes)
    requires vs == []
    ensures WriteAll(e, vs) == [] && WriteAll(e, vs) + rest == rest
    ensures ReadAll(e, |vs|, WriteAll(e, vs) + rest) == Got(vs, |WriteAll(e, vs)|)
  {
  }

  lemma ReadAllJoins(e: Type, n: nat, front: bytes, back: bytes, v: Value, vs: seq<Value>, size: nat)
    requires n > 0 && Read(e, front + back) == Got(v, |front|) && ReadAll(e, n - 1, back) == Got(vs, size)
    ensures ReadAll(e, n, front + back) == Got([v] + vs, |front| + size)
  {
    hide Read;
    ReadAllAfterFirst(e, n, front, back);
    hide ReadAll;
  }

  /** A value with a string or list of 2^31 or more is never read back. */
  lemma {:induction false} LargeNeverReadsBack(t: Type, v: Value, rest: bytes)
    requires HasType(v, t) && !Small(t, v)
    ensures !(Read(t, Write(t, v) + rest).Got? && Read(t, Write(t, v) + rest).value == v)
    decreases t, 0
  {
    match t
    case Str => TextRoundTripExactly(v.s, false, rest);
    case List(e) =>
      if |v.vs| < TWO_31 {
        LargeAmongNeverReadsBack(e, v.vs, [CLOSE] + rest);
        assert WriteAll(e, v.vs) + [CLOSE] + rest == WriteAll(e, v.vs) + ([CLOSE] + rest);
      }
      ListFails(e, v.vs, rest);
  }

  lemma ReadAllStep(e: Type, n: nat, s: bytes)
    requires n > 0 && ReadAll(e, n, s).Got?
    ensures var first := Read(e, s);
            && first.Got? && ReadAll(e, n - 1, s[first.size..]).Got?
            && ReadAll(e, n, s).value == [first.value] + ReadAll(e, n - 1, s[first.size..]).value
  {
  }

  lemma {:induction false} LargeAmongNeverReadsBack(e: Type, vs: seq<Value>, rest: bytes)
    requires forall x :: x in vs ==> HasType(x, e)
    requires exists x :: x in vs && !Small(e, x)
    ensures var o := ReadAll(e, |vs|, WriteAll(e, vs) + rest);
            !(o.Got? && o.value == vs)
    decreases e, 1, |vs|
  {
    hide Write, WriteAll, Read, ReadAll, HasType, Small;
    var others := WriteAll(e, vs[1..]) + rest;
    WriteAllStep(e, vs, rest);
    if Small(e, vs[0]) {
      RoundTrip(e, vs[0], others);
      ReadAllAfterFirst(e, |vs|, Write(e, vs[0]), others);
      LargeAmongNeverReadsBack(e, vs[1..], rest);
    } else {
      LargeNeverReadsBack(e, vs[0], others);
      if ReadAll(e, |vs|, WriteAll(e, vs) + rest).Got? {
        ReadAllStep(e, |vs|, WriteAll(e, vs) + rest);
      }
    }
  }

  /** The round trip holds exactly for values whose strings and lists are shorter than 2^31. */
  lemma RoundTripExactly(t: Type, v: Value, rest: bytes)
    requires HasType(v, t)
    ensures Read(t, Write(t, v) + rest) == Got(v, |Write(t, v)|) <==> Small(t, v)
  {
    if Small(t, v) {
      RoundTrip(t, v, rest);
    } else {
      LargeNeverReadsBack(t, v, rest);
    }
  }

  /** No written value is a proper prefix of another of its type: the format is self-delimiting. */
  lemma SelfDelimiting(t: Type, v: Value, w: Value, rest: bytes, rest': bytes)
    requires HasType(v, t) && HasType(w, t) && Small(t, v) && Small(t, w)
    requires Write(t, v) + rest == Write(t, w) + rest'
    ensures v == w && rest == rest'
  {
    RoundTrip(t, v, rest);
    RoundTrip(t, w, rest');
    assert rest == (Write(t, v) + rest)[|Write(t, v)|..];
    assert rest' == (Write(t, w) + rest')[|Write(t, w)|..];
  }

  // ---- Exactly what reads ----

  lemma UntilExactly(s: bytes, c: byte, r: bytes)
    ensures r == Until(s, c) <==>
            if c in s then r <= s && r != [] && r[|r| - 1] == c && c !in r[..|r| - 1] else r == []
  {
    IndexOfAbsent(s, c);
    if c in s {
      var k := IndexOf(s, c);
      IndexOfFirst(s, c, k);
      hide IndexOf;
    }
  }

  lemma {:induction false} IndexOfFirst(s: bytes, c: byte, k: nat)
    requires k == IndexOf(s, c)
    ensures c !in s[..k]
  {
    if s != [] && s[0] != c {
      IndexOfFirst(s[1..], c, k - 1);
      assert s[..k] == [s[0]] + s[1..][..k - 1];
    }
  }

  /** The digits up to the semicolon, which stays unread when there is none. */
  predicate Terminated(s: bytes, digits: bytes) {
    if 59 in s then digits <= s && digits != [] && digits[|digits| - 1] == 59 && 59 !in digits[..|digits| - 1]
    else digits == []
  }

  /**
   An integer is a digit, or `i` or `l` and a number up to a semicolon: `i` numbers pass through 32 bits,
   `l` numbers through 64 and then through the type asked for. Without a semicolon ahead the number is 0.
   */
  lemma ReadIntExactly(t: Type, s: bytes, i: int, n: nat)
    requires t == Int32 || t == Int64
    ensures Read(t, s) == Got(Num(i), n) <==>
            s != [] &&
            if 48 <= s[0] <= 57 then i == s[0] - 48 && n == 1
            else
              s[0] in {105, 108} && exists digits ::
                && Terminated(s[1..], digits) && n == 1 + |digits|
                && i == if s[0] == 105 then Atoi(digits)
                        else if t == Int32 then Wrap32(Atoll(digits)) else Atoll(digits)
  {
    if s != [] {
      forall digits ensures Terminated(s[1..], digits) <==> digits == Until(s[1..], SEMICOLON) {
        UntilExactly(s[1..], SEMICOLON, digits);
      }
      hide Until, Terminated, Atoi, Atoll, Wrap32;
    }
  }

  lemma TaggedIntReads(t: Type, tag: byte, number: bytes, rest: bytes)
    requires (t == Int32 || t == Int64) && (tag == 105 || tag == 108)
    requires number != [] && Until(number + rest, SEMICOLON) == number
    ensures ReadInt(t, [tag] + number + rest) ==
              Got(Num(if tag == 105 then Atoi(number) else Narrow(Atoll(number), t)), 1 + |number|)
  {
    hide Until, Atoi, Atoll;
    assert ([tag] + number + rest)[1..] == number + rest;
  }

  /** An `i` number reads into a 64-bit integer unchanged; an `l` number into a 32-bit one if and only if it fits. */
  lemma ReadsAcrossWidths(i: int, rest: bytes)
    requires -TWO_63 <= i < TWO_63
    ensures -TWO_31 <= i < TWO_31 ==> Read(Int64, WriteInt(i, 105) + rest) == Got(Num(i), |WriteInt(i, 105)|)
    ensures Read(Int32, WriteInt(i, 108) + rest) == Got(Num(i), |WriteInt(i, 108)|) <==> -TWO_31 <= i < TWO_31
  {
    if !(0 <= i <= 9) {
      hide Until, Atoi, Atoll, ToString, ReadInt;
      NumberTerminated(i, rest);
      AtollInverts(i, [SEMICOLON]);
      AtoiInvertsExactly(i, [SEMICOLON]);
      TaggedIntReads(Int64, 105, ToString(i) + [SEMICOLON], rest);
      TaggedIntReads(Int32, 108, ToString(i) + [SEMICOLON], rest);
    }
  }

  lemma NumberTerminated(i: int, rest: bytes)
    requires !(0 <= i <= 9)
    ensures Until(ToString(i) + [SEMICOLON] + rest, SEMICOLON) == ToString(i) + [SEMICOLON]
    ensures forall tag :: WriteInt(i, tag) == [tag] + (ToString(i) + [SEMICOLON])
  {
    NumberHasNoMark(i, SEMICOLON);
    UntilMark(ToString(i), SEMICOLON, rest);
    hide ToString, Until;
  }

  lemma TextBegins(s: bytes)
    ensures s == [] || s[0] !in {TAG_EMPTY, TAG_STRING, TAG_BYTES} ==> ReadText(s) == Missing
    ensures s != [] && s[0] == TAG_EMPTY ==> ReadText(s) == Got(Text([]), 1)
    ensures s != [] && (s[0] == TAG_STRING || s[0] == TAG_BYTES) && Until(s[1..], QUOTE) == [] ==>
              ReadText(s) == Missing
  {
  }

  lemma TextCounted(s: bytes, lenText: bytes, rest: bytes)
    requires s != [] && (s[0] == TAG_STRING || s[0] == TAG_BYTES)
    requires Until(s[1..], QUOTE) == lenText != [] && 1 + |lenText| <= |s| && rest == s[1 + |lenText|..]
    ensures var len := Atoi(lenText);
            ReadText(s) ==
              if len <= 0 || len >= |rest| || rest[len] != QUOTE then Missing
              else Got(Text(rest[..len]), 1 + |lenText| + len + 1)
  {
  }

  lemma ReadBoolExactly(s: bytes, b: bool, n: nat)
    ensures Read(Bool, s) == Got(Truth(b), n) <==> s != [] && n == 1 && s[0] == if b then 116 else 102
  {
  }

  /** `number` and a quote announce the text, and a quote closes it. */
  predicate QuotedText(s: bytes, number: bytes, x: bytes, n: nat) {
    && s != [] && (s[0] == 115 || s[0] == 98) && 34 !in number
    && number + [34] + x + [34] <= s[1..] && Atoi(number + [34]) == |x| && n == |number| + |x| + 3
  }

  /** A string is `e` for the empty one, or a tag, its length, and the bytes between quotes. */
  lemma ReadTextExactly(s: bytes, x: bytes, n: nat)
    ensures Read(Str, s) == Got(Text(x), n) <==>
            if x == [] then s != [] && s[0] == 101 && n == 1 else exists number :: QuotedText(s, number, x, n)
  {
    hide QuotedText;
    if x == [] {
      EmptyTextExactly(s, n);
    } else {
      if Read(Str, s) == Got(Text(x), n) {
        ReadIsQuoted(s, x, n);
      }
      if number :| QuotedText(s, number, x, n) {
        QuotedReads(s, number, x, n);
      }
      hide ReadText;
    }
  }

  lemma EmptyTextExactly(s: bytes, n: nat)
    ensures ReadText(s) == Got(Text([]), n) <==> s != [] && s[0] == 101 && n == 1
  {
    hide Until, IndexOf, Atoi;
  }

  lemma ReadIsQuoted(s: bytes, x: bytes, n: nat)
    requires ReadText(s) == Got(Text(x), n) && x != []
    ensures exists number :: QuotedText(s, number, x, n)
  {
    hide ReadText, Until, IndexOf, Atoi;
    TextBegins(s);
    var lenText := Until(s[1..], QUOTE);
    UntilExactly(s[1..], QUOTE, lenText);
    TextCounted(s, lenText, s[1 + |lenText|..]);
    var number := lenText[..|lenText| - 1];
    assert lenText == number + [34];
    TextIsQuoted(s, lenText, x);
    assert QuotedText(s, number, x, n);
  }

  lemma QuotedReads(s: bytes, number: bytes, x: bytes, n: nat)
    requires QuotedText(s, number, x, n) && x != []
    ensures ReadText(s) == Got(Text(x), n)
  {
    hide ReadText, Until, IndexOf, Atoi;
    var lenText := number + [34];
    assert lenText[..|number|] == number && s[1..][|number|] == 34;
    UntilExactly(s[1..], QUOTE, lenText);
    TextReadsBack(s, lenText, x);
    TextCounted(s, lenText, s[1 + |lenText|..]);
  }

  lemma TextIsQuoted(s: bytes, lenText: bytes, x: bytes)
    requires s != [] && lenText <= s[1..]
    requires var rest := s[1 + |lenText|..]; |x| < |rest| && rest[|x|] == QUOTE && x == rest[..|x|]
    ensures lenText + x + [34] <= s[1..]
  {
    var rest := s[1 + |lenText|..];
    assert s[1..] == lenText + rest;
    assert rest == x + [34] + rest[|x| + 1..];
  }

  lemma TextReadsBack(s: bytes, lenText: bytes, x: bytes)
    requires s != [] && lenText + x + [34] <= s[1..]
    ensures var rest := s[1 + |lenText|..]; |x| < |rest| && rest[|x|] == QUOTE && rest[..|x|] == x
  {
    var rest, front := s[1 + |lenText|..], lenText + x + [34];
    assert forall i :: 0 <= i <= |x| ==> rest[i] == s[1..][|lenText| + i] == front[|lenText| + i];
  }

  /** `number` and an opening brace announce the elements, and a closing brace ends the list. */
  predicate BracedList(e: Type, s: bytes, number: bytes, vs: seq<Value>, size: nat) {
    && s != [] && s[0] == 97 && 123 !in number && number + [123] <= s[1..] && Atoi(number + [123]) == |vs|
    && ReadAll(e, |vs|, s[2 + |number|..]) == Got(vs, size)
    && 2 + |number| + size < |s| && s[2 + |number| + size] == 125
  }

  /**
   A list is its count, as many elements as that between braces; or, with no opening brace anywhere ahead,
   `a}` for the empty list.
   */
  lemma ReadListExactly(e: Type, s: bytes, vs: seq<Value>, n: nat)
    ensures Read(List(e), s) == Got(Items(vs), n) <==>
            || (exists number, size :: BracedList(e, s, number, vs, size) && n == |number| + size + 3)
            || (vs == [] && n == 2 && |s| >= 2 && s[0] == 97 && s[1] == 125 && 123 !in s[1..])
  {
    ListStarts(e, s);
    if s != [] && s[0] == TAG_LIST {
      var lenText := Until(s[1..], OPEN);
      UntilExactly(s[1..], OPEN, lenText);
      hide Until, IndexOf, Atoi, ReadAll, Read;
      if lenText != [] {
        ListUnfolds(e, s, lenText);
        var number := lenText[..|lenText| - 1];
        assert lenText == number + [123];
        CountedExactly(e, s, number, vs, n);
      }
      forall other, size | BracedList(e, s, other, vs, size) ensures other + [123] == lenText {
        BracedUntil(s, other);
      }
    }
  }

  lemma BracedUntil(s: bytes, number: bytes)
    requires s != [] && 123 !in number && number + [123] <= s[1..]
    ensures Until(s[1..], OPEN) == number + [123]
  {
    var lenText := number + [123];
    assert lenText[..|number|] == number && s[1..][|number|] == 123;
    UntilExactly(s[1..], OPEN, lenText);
  }

  lemma CountedExactly(e: Type, s: bytes, number: bytes, vs: seq<Value>, n: nat)
    requires s != [] && s[0] == TAG_LIST && 123 !in number && number + [123] <= s[1..]
    requires var lenText := number + [123];
             var k, rest := Atoi(lenText), s[1 + |lenText|..];
             Read(List(e), s) == if k < 0 then Threw else CloseList(ReadAll(e, k, rest), rest, 1 + |lenText|)
    ensures Read(List(e), s) == Got(Items(vs), n) <==>
            exists size :: BracedList(e, s, number, vs, size) && n == |number| + size + 3
  {
    hide Atoi, ReadAll, Read;
    var k, rest := Atoi(number + [123]), s[2 + |number|..];
    if Read(List(e), s) == Got(Items(vs), n) {
      var size := ReadAll(e, k, rest).size;
      assert |vs| == k by {
        AllRead(e, k, rest);
      }
      assert BracedList(e, s, number, vs, size);
    }
  }

  lemma AllRead(e: Type, n: nat, s: bytes)
    ensures var o := ReadAll(e, n, s); o.Got? ==> |o.value| == n
  {
  }

  // ---- The character count ----

  /** Bit `k` of a byte, the most significant first. */
  function TopBit(b: byte, k: nat): nat {
    if k == 0 then b / 128 % 2 else if k == 1 then b / 64 % 2 else if k == 2 then b / 32 % 2
    else if k == 3 then b / 16 % 2 else if k == 4 then b / 8 % 2 else if k == 5 then b / 4 % 2
    else if k == 6 then b / 2 % 2 else b % 2
  }

  lemma TopBitIsBit(b: byte, k: nat)
    ensures TopBit(b, k) == 0 || TopBit(b, k) == 1
  {
  }

  predicate LeadingOnes(b: byte, n: nat) {
    n <= 7 && (forall k :: 0 <= k < n ==> TopBit(b, k) == 1) && (n < 7 ==> TopBit(b, n) == 0)
  }

  /** As many bytes are skipped behind a leader as it has leading one bits, up to seven. */
  lemma FollowBytesExactly(leader: byte, n: nat)
    ensures n == FollowBytes(leader) <==> LeadingOnes(leader, n)
  {
    FollowIsLeading(leader);
    hide FollowBytes, TopBit;
  }

  lemma FollowIsLeading(leader: byte)
    ensures LeadingOnes(leader, FollowBytes(leader))
  {
    assert TopBit(leader, 0) == if leader < 128 then 0 else 1;
    assert leader >= 128 ==> TopBit(leader, 1) == if leader < 192 then 0 else 1;
    assert leader >= 192 ==> TopBit(leader, 2) == if leader < 224 then 0 else 1;
    assert leader >= 224 ==> TopBit(leader, 3) == if leader < 240 then 0 else 1;
    assert leader >= 240 ==> TopBit(leader, 4) == if leader < 248 then 0 else 1;
    assert leader >= 248 ==> TopBit(leader, 5) == if leader < 252 then 0 else 1;
    assert leader >= 252 ==> TopBit(leader, 6) == if leader < 254 then 0 else 1;
    hide TopBit;
  }

  /**
   The count takes a byte and as many bytes behind it as the byte has leading one bits for one character,
   even when fewer are left.
   */
  lemma CharacterCounts(leader: byte, n: nat, skipped: bytes, rest: bytes)
    requires LeadingOnes(leader, n)
    ensures |skipped| == n ==> Utf8Count([leader] + skipped + rest) == 1 + Utf8Count(rest)
    ensures |skipped| < n ==> Utf8Count([leader] + skipped) == 1
  {
    FollowBytesExactly(leader, n);
    hide FollowBytes;
    assert |skipped| == n ==> ([leader] + skipped + rest)[1 + n..] == rest;
  }

  // ---- When reading throws ----

  /**
   Decoding reaches a list whose count reads as a negative number: this list, or one inside its first
   element that cannot be read.
   */
  predicate NegativeCount(t: Type, s: bytes)
    decreases t, 0
  {
    t.List? && s != [] && s[0] == TAG_LIST &&
    var lenText := Until(s[1..], OPEN);
    lenText != [] && (Atoi(lenText) < 0 || NegativeCountAmong(t.elem, Atoi(lenText), s[1 + |lenText|..]))
  }

  predicate NegativeCountAmong(e: Type, n: nat, s: bytes)
    decreases e, 1, n
  {
    n > 0 &&
    match Read(e, s)
    case Got(_, size) => NegativeCountAmong(e, n - 1, s[size..])
    case _ => NegativeCount(e, s)
  }

  /** A read throws if and only if decoding reaches a negative count. */
  lemma {:induction false} ThrowsExactly(t: Type, s: bytes)
    ensures Read(t, s).Threw? <==> NegativeCount(t, s)
    decreases t, 0
  {
    if t.List? && s != [] && s[0] == TAG_LIST {
      var lenText := Until(s[1..], OPEN);
      ListStarts(t.elem, s);
      if lenText != [] {
        ListUnfolds(t.elem, s, lenText);
        hide Until, Atoi, IndexOf;
        if Atoi(lenText) >= 0 {
          AllThrowExactly(t.elem, Atoi(lenText), s[1 + |lenText|..]);
        }
      }
    }
  }

  lemma {:induction false} AllThrowExactly(e: Type, n: nat, s: bytes)
    ensures ReadAll(e, n, s).Threw? <==> NegativeCountAmong(e, n, s)
    decreases e, 1, n
  {
    if n > 0 {
      hide Read, NegativeCount;
      ThrowsExactly(e, s);
      var first := Read(e, s);
      if first.Got? {
        AllThrowExactly(e, n - 1, s[first.size..]);
      }
    }
  }
}
