/** `std::to_string`, `atoi` and `atoll` on byte strings. */
module Decimal {
  import opened Prelude

  const MINUS: byte := 45
  const PLUS: byte := 43
  const ZERO: byte := 48

  predicate IsDigit(b: byte) {
    48 <= b <= 57
  }

  predicate IsSpace(b: byte) {
    b == 32 || 9 <= b <= 13
  }

  function Digits(n: nat): (s: bytes)
    ensures |s| > 0
  {
    if n < 10 then [ZERO + n] else Digits(n / 10) + [ZERO + n % 10]
  }

  lemma {:induction false} DigitsAreDigits(n: nat, b: byte)
    ensures b in Digits(n) ==> IsDigit(b)
    ensures IsDigit(Digits(n)[0])
  {
    if n >= 10 {
      DigitsAreDigits(n / 10, b);
    }
  }

  /** `std::to_string` of a signed integer. */
  function ToString(i: int): (s: bytes)
    ensures |s| > 0
  {
    if i < 0 then [MINUS] + Digits(-i) else Digits(i)
  }

  lemma ToStringCharacters(i: int, b: byte)
    ensures b in ToString(i) ==> IsDigit(b) || b == MINUS
  {
    DigitsAreDigits(if i < 0 then -i else i, b);
  }

  /** The value of the digits at the front of `s`, accumulated onto `acc`. */
  function LeadingDigits(s: bytes, acc: nat): nat
  {
    if s == [] || !IsDigit(s[0]) then acc else LeadingDigits(s[1..], 10 * acc + (s[0] - ZERO))
  }

  function SkipSpaces(s: bytes): bytes
  {
    if s != [] && IsSpace(s[0]) then SkipSpaces(s[1..]) else s
  }

  /** The mathematical integer at the front of `s`, 0 when there is none. */
  function LeadingInteger(s: bytes): int
  {
    var t := SkipSpaces(s);
    if t != [] && t[0] == MINUS then 0 - LeadingDigits(t[1..], 0)
    else if t != [] && t[0] == PLUS then LeadingDigits(t[1..], 0)
    else LeadingDigits(t, 0)
  }

  /** The `strtoll` clamp that glibc applies to a 64-bit result. */
  function Saturate64(i: int): (r: int)
    ensures -TWO_63 <= r < TWO_63
  {
    if i < -TWO_63 then -TWO_63 else if i >= TWO_63 then TWO_63 - 1 else i
  }

  /** Conversion to a signed 32-bit integer, by wrap-around. */
  function Wrap32(i: int): (r: int)
    ensures -TWO_31 <= r < TWO_31
    ensures (r - i) % TWO_32 == 0
    ensures -TWO_31 <= i < TWO_31 ==> r == i
  {
    (i + TWO_31) % TWO_32 - TWO_31
  }

  function Atoll(s: bytes): (r: int)
    ensures -TWO_63 <= r < TWO_63
  {
    Saturate64(LeadingInteger(s))
  }

  function Atoi(s: bytes): (r: int)
    ensures -TWO_31 <= r < TWO_31
  {
    Wrap32(Atoll(s))
  }

  lemma {:induction false} DigitsRead(n: nat, rest: bytes)
    ensures LeadingDigits(Digits(n) + rest, 0) == LeadingDigits(rest, n)
  {
    if n < 10 {
      assert (Digits(n) + rest)[1..] == rest;
    } else {
      var last := [ZERO + n % 10];
      assert Digits(n) + rest == Digits(n / 10) + (last + rest);
      DigitsRead(n / 10, last + rest);
      assert (last + rest)[1..] == rest;
    }
  }

  /** Reading back what `std::to_string` printed gives the number, whatever non-digit follows. */
  lemma ToStringReads(i: int, rest: bytes)
    requires rest == [] || !IsDigit(rest[0])
    ensures LeadingInteger(ToString(i) + rest) == i
  {
    var s := ToString(i) + rest;
    if i < 0 {
      assert s[1..] == Digits(-i) + rest;
      DigitsRead(-i, rest);
    } else {
      DigitsAreDigits(i, s[0]);
      assert s[0] == Digits(i)[0];
      DigitsRead(i, rest);
    }
  }

  lemma {:induction false} SpacesAreSkipped(spaces: bytes, s: bytes)
    requires forall b :: b in spaces ==> b == 32 || 9 <= b <= 13
    ensures SkipSpaces(spaces + s) == SkipSpaces(s)
  {
    if spaces == [] {
      assert spaces + s == s;
    } else {
      HeadAndRest(spaces);
      assert (spaces + s)[1..] == spaces[1..] + s && (spaces + s)[0] == spaces[0];
      SpacesAreSkipped(spaces[1..], s);
    }
  }

  /** White space in front and one sign are read over, and reading stops at the first non-digit. */
  lemma NumberReads(spaces: bytes, n: nat, rest: bytes)
    requires forall b :: b in spaces ==> b == 32 || 9 <= b <= 13
    requires rest == [] || !(48 <= rest[0] <= 57)
    ensures LeadingInteger(spaces + (Digits(n) + rest)) == n
    ensures LeadingInteger(spaces + ([43] + Digits(n) + rest)) == n
    ensures LeadingInteger(spaces + ([45] + Digits(n) + rest)) == 0 - n
  {
    SpacesAreSkipped(spaces, Digits(n) + rest);
    SpacesAreSkipped(spaces, [43] + Digits(n) + rest);
    SpacesAreSkipped(spaces, [45] + Digits(n) + rest);
    DigitsAreDigits(n, 48);
    DigitsRead(n, rest);
    assert (Digits(n) + rest)[0] == Digits(n)[0];
    assert ([43] + Digits(n) + rest)[1..] == Digits(n) + rest;
    assert ([45] + Digits(n) + rest)[1..] == Digits(n) + rest;
    hide Digits;
  }

  /** Without a digit behind the white space and the sign the number is 0. */
  lemma NoNumberReads(spaces: bytes, sign: bytes, rest: bytes)
    requires forall b :: b in spaces ==> b == 32 || 9 <= b <= 13
    requires sign == [43] || sign == [45] || (sign == [] && (rest == [] || rest[0] !in {32, 9, 10, 11, 12, 13, 43, 45}))
    requires rest == [] || !(48 <= rest[0] <= 57)
    ensures LeadingInteger(spaces + (sign + rest)) == 0
  {
    SpacesAreSkipped(spaces, sign + rest);
    assert sign != [] ==> (sign + rest)[1..] == rest;
    assert sign == [] ==> sign + rest == rest;
  }

  /** Beyond 64 bits `atoll` gives the nearest 64-bit integer, and `atoi` the low half of that. */
  lemma AtollSaturates(i: int, rest: bytes)
    requires rest == [] || !IsDigit(rest[0])
    ensures i >= 0x8000_0000_0000_0000 ==>
              Atoll(ToString(i) + rest) == 0x7fff_ffff_ffff_ffff && Atoi(ToString(i) + rest) == -1
    ensures i < -0x8000_0000_0000_0000 ==>
              Atoll(ToString(i) + rest) == -0x8000_0000_0000_0000 && Atoi(ToString(i) + rest) == 0
  {
    ToStringReads(i, rest);
  }

  /** `atoll` inverts `std::to_string` on every 64-bit integer. */
  lemma AtollInverts(i: int, rest: bytes)
    requires -TWO_63 <= i < TWO_63
    requires rest == [] || !IsDigit(rest[0])
    ensures Atoll(ToString(i) + rest) == i
  {
    ToStringReads(i, rest);
  }

  /** `atoi` inverts `std::to_string` exactly on the 32-bit integers (64-bit inputs). */
  lemma AtoiInvertsExactly(i: int, rest: bytes)
    requires -TWO_63 <= i < TWO_63
    requires rest == [] || !IsDigit(rest[0])
    ensures Atoi(ToString(i) + rest) == Wrap32(i)
    ensures Atoi(ToString(i) + rest) == i <==> -TWO_31 <= i < TWO_31
  {
    AtollInverts(i, rest);
  }

  /** The printed number is cut off from what follows by any non-digit. */
  lemma DigitsCut(m: nat, n: nat, a: bytes, b: bytes)
    requires (a == [] || !IsDigit(a[0])) && (b == [] || !IsDigit(b[0])) && Digits(m) + a == Digits(n) + b
    ensures m == n && a == b
  {
    DigitsRead(m, a);
    DigitsRead(n, b);
    assert a == (Digits(m) + a)[|Digits(m)|..];
    assert b == (Digits(n) + b)[|Digits(n)|..];
  }

  /** The decimal printer is injective: distinct numbers print differently. */
  lemma DigitsInjective(m: nat, n: nat)
    requires Digits(m) == Digits(n)
    ensures m == n
  {
    DigitsRead(m, []);
    DigitsRead(n, []);
    assert Digits(m) + [] == Digits(m) && Digits(n) + [] == Digits(n);
  }
}
