/**
 Calls over Hprose: the stub lays out method and arguments, the service decodes them, finds the
 callee, runs it and lays out the result, the stub decodes the reply.
 */
module HproseService {
  import opened Prelude
  import Decimal
  import opened HproseFormat
  import opened HproseBuffer

  const TAG_CALL: byte := 67 // 'C'
  const TAG_RESULT: byte := 82 // 'R'
  const TAG_ERROR: byte := 69 // 'E'
  const TAG_FUNCTIONS: byte := 70 // 'F'
  const TAG_END: byte := 122 // 'z'
  const STAR: bytes := [42]

  /** `Es10"Error Args"z` */
  const ERROR_ARGS: bytes :=
    [69, 115, 49, 48, 34, 69, 114, 114, 111, 114, 32, 65, 114, 103, 115, 34, 122]
  /** "No Callee " */
  const NO_CALLEE: bytes := [78, 111, 32, 67, 97, 108, 108, 101, 101, 32]
  /** "No support protocol tag." */
  const NO_SUPPORT: bytes :=
    [78, 111, 32, 115, 117, 112, 112, 111, 114, 116, 32, 112, 114, 111, 116, 111, 99, 111, 108, 32, 116, 97, 103, 46]

  /** A registered function with the types its template arguments name. */
  datatype Callee = Callee(params: seq<Type>, ret: Type, f: seq<Value> -> Value)

  predicate Typed(vs: seq<Value>, ts: seq<Type>) {
    |vs| == |ts| && forall i :: 0 <= i < |vs| ==> HasType(vs[i], ts[i])
  }

  /** The function returns values of its declared type. */
  ghost predicate WellTyped(c: Callee) {
    forall vs :: Typed(vs, c.params) ==> HasType(c.f(vs), c.ret)
  }

  ghost predicate AllWellTyped(functions: map<bytes, Callee>) {
    forall m :: m in functions ==> WellTyped(functions[m])
  }

  // ---- Arguments ----

  function WriteArgs(ts: seq<Type>, vs: seq<Value>): bytes
    requires Typed(vs, ts)
  {
    if vs == [] then [] else Write(ts[0], vs[0]) + WriteArgs(ts[1..], vs[1..])
  }

  /** The arguments one after another, stopping at the first that does not read. */
  function ReadArgs(ts: seq<Type>, s: bytes): (o: Outcome<seq<Value>>)
    ensures o.Got? ==> o.size <= |s| && Typed(o.value, ts)
  {
    if ts == [] then Got([], 0)
    else
      match Read(ts[0], s)
      case Missing => Missing
      case Threw => Threw
      case Got(first, size) =>
        match ReadArgs(ts[1..], s[size..])
        case Missing => Missing
        case Threw => Threw
        case Got(others, more) => Got([first] + others, size + more)
  }

  predicate AllSmall(ts: seq<Type>, vs: seq<Value>)
    requires Typed(vs, ts)
  {
    forall i :: 0 <= i < |vs| ==> Small(ts[i], vs[i])
  }

  lemma {:induction false} ArgsRoundTrip(ts: seq<Type>, vs: seq<Value>, rest: bytes)
    requires Typed(vs, ts) && AllSmall(ts, vs)
    ensures ReadArgs(ts, WriteArgs(ts, vs) + rest) == Got(vs, |WriteArgs(ts, vs)|)
  {
    if vs != [] {
      hide Write, Read, HasType, Small;
      var first, others := Write(ts[0], vs[0]), WriteArgs(ts[1..], vs[1..]);
      Regrouped(first, others, rest);
      RoundTrip(ts[0], vs[0], others + rest);
      DropFront(first, others + rest, |first|);
      assert first[|first|..] + (others + rest) == others + rest;
      ArgsRoundTrip(ts[1..], vs[1..], rest);
      assert vs == [vs[0]] + vs[1..];
    }
  }

  // ---- The service ----

  /** What `CallMethod` sends back, or the exception a negative list count raises. */
  datatype Response = Body(content: bytes) | Raised

  function ResultBytes(ret: Type, v: Value): bytes
    requires HasType(v, ret)
  {
    [TAG_RESULT] + Write(ret, v) + [TAG_END]
  }

  function ErrorBytes(message: bytes): bytes {
    [TAG_ERROR] + WriteText(message, false) + [TAG_END]
  }

  /** `Callee::Call` on the bytes after the method name. */
  ghost function CallCallee(c: Callee, s: bytes): Response
    requires WellTyped(c)
  {
    match ReadArgs(c.params, s)
    case Got(vs, _) => Body(ResultBytes(c.ret, c.f(vs)))
    case Missing => Body(ERROR_ARGS)
    case Threw => Raised
  }

  /** The callee of a method name: its own, else the one registered under `*`. */
  function FindCallee(functions: map<bytes, Callee>, name: bytes): Option<Callee> {
    if name in functions then Some(functions[name])
    else if STAR in functions then Some(functions[STAR])
    else None
  }

  /** The function registered under the name, whether or not there is a `*`; without one the `*` function; or none. */
  lemma FindCalleeExactly(functions: map<bytes, Callee>, name: bytes, c: Callee)
    ensures FindCallee(functions, name) == Some(c) <==>
            (name in functions && c == functions[name])
            || (name !in functions && [42] in functions && c == functions[[42]])
    ensures FindCallee(functions, name) == None <==> name !in functions && [42] !in functions
  {
  }

  ghost function CallNamed(functions: map<bytes, Callee>, name: bytes, s: bytes): Response
    requires AllWellTyped(functions)
  {
    match FindCallee(functions, name)
    case Some(c) => CallCallee(c, s)
    case None => Body(ErrorBytes(NO_CALLEE + name))
  }

  /** `Hprose_Service::CallMethod`. */
  ghost function Serve(functions: map<bytes, Callee>, request: bytes): Response
    requires AllWellTyped(functions)
  {
    if request != [] && request[0] == TAG_END then Body(FunctionList(Sorted(functions.Keys)))
    else if request != [] && request[0] == TAG_CALL then
      var s := request[1..];
      match ReadText(s)
      case Got(name, size) => CallNamed(functions, name.s, s[size..])
      case _ => Body(ERROR_ARGS)
    else Body(ErrorBytes(NO_SUPPORT))
  }

  // ---- Which requests raise an exception ----

  /** Decoding the arguments reaches a list with a negative count. */
  predicate NegativeArgument(ts: seq<Type>, s: bytes) {
    ts != [] &&
    match Read(ts[0], s)
    case Got(_, size) => NegativeArgument(ts[1..], s[size..])
    case _ => NegativeCount(ts[0], s)
  }

  lemma {:induction false} ArgsThrowExactly(ts: seq<Type>, s: bytes)
    ensures ReadArgs(ts, s).Threw? <==> NegativeArgument(ts, s)
  {
    if ts != [] {
      hide Read, NegativeCount;
      ThrowsExactly(ts[0], s);
      var first := Read(ts[0], s);
      if first.Got? {
        ArgsThrowExactly(ts[1..], s[first.size..]);
      }
    }
  }

  /** The bytes call a function that is found, with an argument in which decoding reaches a negative count. */
  predicate CallsWithNegativeCount(functions: map<bytes, Callee>, request: bytes) {
    request != [] && request[0] == TAG_CALL &&
    match ReadText(request[1..])
    case Got(name, size) =>
      var found := FindCallee(functions, name.s);
      found.Some? && NegativeArgument(found.value.params, request[1..][size..])
    case _ => false
  }

  /** Such requests, and no others, make the service raise an exception. */
  lemma RaisedExactly(functions: map<bytes, Callee>, request: bytes)
    requires AllWellTyped(functions)
    ensures Serve(functions, request) == Raised <==> CallsWithNegativeCount(functions, request)
  {
    hide ReadText, ReadArgs, NegativeArgument;
    if request != [] && request[0] == TAG_CALL {
      var o := ReadText(request[1..]);
      if o.Got? && FindCallee(functions, o.value.s).Some? {
        FoundIsWellTyped(functions, o.value.s);
        ArgsThrowExactly(FindCallee(functions, o.value.s).value.params, request[1..][o.size..]);
      }
    }
  }

  predicate TakesList(c: Callee) {
    exists t :: t in c.params && t.List?
  }

  /** Only a function that takes a list can be handed a negative count. */
  lemma {:induction false} NegativeNeedsList(ts: seq<Type>, s: bytes)
    requires NegativeArgument(ts, s)
    ensures exists t :: t in ts && t.List?
  {
    HeadAndRest(ts);
    var first := Read(ts[0], s);
    hide Read;
    if first.Got? {
      NegativeNeedsList(ts[1..], s[first.size..]);
    }
  }

  /** Arguments of the shortest form up to the first list, which gets the count -1. */
  function NegativeArgs(ts: seq<Type>): bytes {
    if ts == [] then []
    else
      match ts[0]
      case List(_) => [TAG_LIST] + Decimal.ToString(-1) + [OPEN]
      case Bool => [TAG_TRUE] + NegativeArgs(ts[1..])
      case Str => [TAG_EMPTY] + NegativeArgs(ts[1..])
      case _ => [48] + NegativeArgs(ts[1..])
  }

  lemma CountOfMinusOne(e: Type)
    ensures NegativeCount(List(e), [TAG_LIST] + Decimal.ToString(-1) + [OPEN])
  {
    var s, count := [TAG_LIST] + Decimal.ToString(-1) + [OPEN], Decimal.ToString(-1) + [OPEN];
    NumberHasNoMark(-1, OPEN);
    UntilMark(Decimal.ToString(-1), OPEN, []);
    Decimal.AtoiInvertsExactly(-1, [OPEN]);
    hide Until, Decimal.Atoi, Decimal.ToString, NegativeCountAmong;
    assert count + [] == count && s[1..] == count;
  }

  lemma {:induction false} NegativeArgsThrow(ts: seq<Type>)
    requires exists t :: t in ts && t.List?
    ensures NegativeArgument(ts, NegativeArgs(ts))
  {
    HeadAndRest(ts);
    if ts[0].List? {
      CountOfMinusOne(ts[0].elem);
      ThrowsExactly(ts[0], NegativeArgs(ts));
      hide Read, NegativeCount, Decimal.ToString;
    } else {
      NegativeArgsThrow(ts[1..]);
      var s := NegativeArgs(ts);
      assert s[1..] == NegativeArgs(ts[1..]);
      assert Read(ts[0], s).Got? && Read(ts[0], s).size == 1;
      hide Read, NegativeArgs;
    }
  }

  /** A request of `name` whose arguments throw. */
  function NegativeCall(name: bytes, c: Callee): bytes {
    [TAG_CALL] + (WriteText(name, false) + NegativeArgs(c.params))
  }

  lemma NegativeCallRaises(functions: map<bytes, Callee>, name: bytes)
    requires name in functions && |name| < TWO_31 && TakesList(functions[name])
    ensures CallsWithNegativeCount(functions, NegativeCall(name, functions[name]))
  {
    var c := functions[name];
    var named, args := WriteText(name, false), NegativeArgs(c.params);
    NegativeArgsThrow(c.params);
    hide WriteText, ReadText, NegativeArgs, NegativeArgument;
    TextRoundTripExactly(name, false, args);
    DropFront(named, args, |named|);
    assert named[|named|..] + args == args;
    assert NegativeCall(name, c)[1..] == named + args;
  }

  /**
   What a server's owner can see beforehand: some request makes the service raise an exception if and only
   if some registered function takes a list.
   */
  lemma RaisableExactly(functions: map<bytes, Callee>)
    requires AllWellTyped(functions) && forall n :: n in functions ==> |n| < TWO_31
    ensures (exists b :: Serve(functions, b) == Raised) <==> exists n :: n in functions && TakesList(functions[n])
  {
    hide Serve, AllWellTyped;
    if b :| Serve(functions, b) == Raised {
      RaisedExactly(functions, b);
      var o := ReadText(b[1..]);
      var found := FindCallee(functions, o.value.s);
      NegativeNeedsList(found.value.params, b[1..][o.size..]);
      hide ReadText, NegativeArgument;
      assert TakesList(found.value);
    }
    if n :| n in functions && TakesList(functions[n]) {
      NegativeCallRaises(functions, n);
      RaisedExactly(functions, NegativeCall(n, functions[n]));
      hide NegativeCall, CallsWithNegativeCount;
      assert Serve(functions, NegativeCall(n, functions[n])) == Raised;
    }
  }

  // ---- The function list ----

  /** The order of `std::string`, in which the map keeps its keys. */
  predicate Before(a: bytes, b: bytes) {
    b != [] && (a == [] || a[0] < b[0] || (a[0] == b[0] && Before(a[1..], b[1..])))
  }

  /** A proper front comes before, and otherwise the first byte that differs decides. */
  lemma {:induction false} BeforeExactly(a: bytes, b: bytes)
    ensures Before(a, b) <==> a < b || exists i :: 0 <= i < |a| && i < |b| && a[..i] == b[..i] && a[i] < b[i]
  {
    if a != [] && b != [] && a[0] == b[0] {
      BeforeExactly(a[1..], b[1..]);
      HeadAndRest(a);
      HeadAndRest(b);
      assert a < b <==> a[1..] < b[1..];
      if i :| 0 <= i < |a[1..]| && i < |b[1..]| && a[1..][..i] == b[1..][..i] && a[1..][i] < b[1..][i] {
        assert a[..i + 1] == [a[0]] + a[1..][..i] && b[..i + 1] == [b[0]] + b[1..][..i];
      }
      if i :| 0 <= i < |a| && i < |b| && a[..i] == b[..i] && a[i] < b[i] {
        assert a[1..][..i - 1] == a[..i][1..] && b[1..][..i - 1] == b[..i][1..];
        assert a[1..][i - 1] < b[1..][i - 1];
      }
    } else if a != [] && b != [] && a[0] < b[0] {
      assert a[..0] == b[..0];
    }
  }

  lemma {:induction false} BeforeTotal(a: bytes, b: bytes)
    ensures a == b || Before(a, b) || Before(b, a)
    ensures !(Before(a, b) && Before(b, a))
  {
    if a != [] && b != [] && a[0] == b[0] {
      BeforeTotal(a[1..], b[1..]);
      assert a[1..] == b[1..] ==> a == [a[0]] + a[1..] == [b[0]] + b[1..] == b;
    }
  }

  lemma {:induction false} BeforeTransitive(a: bytes, b: bytes, c: bytes)
    requires Before(a, b) && Before(b, c)
    ensures Before(a, c)
  {
    if a != [] && a[0] == b[0] && b[0] == c[0] {
      BeforeTransitive(a[1..], b[1..], c[1..]);
    }
  }

  predicate IsFirst(m: bytes, keys: set<bytes>) {
    m in keys && forall k :: k in keys ==> k == m || Before(m, k)
  }

  lemma {:induction false} FirstExists(keys: set<bytes>)
    requires keys != {}
    ensures exists m :: IsFirst(m, keys)
  {
    var x :| x in keys;
    if keys == {x} {
      assert IsFirst(x, keys);
    } else {
      FirstExists(keys - {x});
      var m :| IsFirst(m, keys - {x});
      BeforeTotal(x, m);
      forall k | k in keys && Before(x, m) && k != x
        ensures Before(x, k)
      {
        if k != m {
          BeforeTransitive(x, m, k);
        }
      }
      assert IsFirst(if Before(x, m) then x else m, keys);
    }
  }

  lemma FirstIsUnique(m: bytes, m': bytes, keys: set<bytes>)
    requires IsFirst(m, keys) && IsFirst(m', keys)
    ensures m == m'
  {
    BeforeTotal(m, m');
  }

  ghost function Sorted(keys: set<bytes>): seq<bytes> {
    if keys == {} then []
    else
      FirstExists(keys);
      var m :| IsFirst(m, keys);
      [m] + Sorted(keys - {m})
  }

  lemma {:induction false} SortedHoldsAll(keys: set<bytes>)
    ensures |Sorted(keys)| == |keys| && forall k :: k in Sorted(keys) <==> k in keys
  {
    if keys != {} {
      FirstExists(keys);
      var m :| IsFirst(m, keys) && Sorted(keys) == [m] + Sorted(keys - {m});
      SortedHoldsAll(keys - {m});
    }
  }

  lemma FirstIsKey(m: bytes, keys: set<bytes>)
    requires IsFirst(m, keys)
    ensures m in keys
  {
  }

  lemma SortedStep(m: bytes, keys: set<bytes>)
    requires IsFirst(m, keys)
    ensures Sorted(keys) == [m] + Sorted(keys - {m})
  {
    var m' :| IsFirst(m', keys) && Sorted(keys) == [m'] + Sorted(keys - {m'});
    FirstIsUnique(m, m', keys);
  }

  lemma {:induction false} SortedAscends(keys: set<bytes>, i: nat, j: nat)
    requires i < j < |Sorted(keys)|
    ensures Before(Sorted(keys)[i], Sorted(keys)[j])
    decreases i
  {
    FirstExists(keys);
    var m :| IsFirst(m, keys);
    SortedStep(m, keys);
    var others := Sorted(keys - {m});
    SortedHoldsAll(keys - {m});
    hide Sorted, Before;
    assert Sorted(keys)[j] == others[j - 1] && others[j - 1] in others;
    if i > 0 {
      SortedAscends(keys - {m}, i - 1, j - 1);
    }
  }

  function Texts(names: seq<bytes>): (vs: seq<Value>)
    ensures HasType(Items(vs), List(Str)) && |vs| == |names|
    ensures forall i :: 0 <= i < |names| ==> vs[i] == Text(names[i])
  {
    if names == [] then [] else [Text(names[0])] + Texts(names[1..])
  }

  function FunctionList(names: seq<bytes>): bytes {
    [TAG_FUNCTIONS] + Write(List(Str), Items(Texts(names))) + [TAG_END]
  }

  // ---- The stub ----

  function CallBytes(name: bytes, ts: seq<Type>, vs: seq<Value>): bytes
    requires Typed(vs, ts)
  {
    [TAG_CALL] + WriteText(name, true) + WriteArgs(ts, vs) + [TAG_END]
  }

  /** How the stub's call ends: a value, a default-constructed one, or an error code. */
  datatype StubResult = Returned(v: Value) | Default | LogicError | CallError | StubRaised

  function DecodeReply(ret: Type, reply: bytes): StubResult
  {
    if reply != [] && reply[0] == TAG_RESULT then
      match Read(ret, reply[1..])
      case Got(v, _) => Returned(v)
      case Missing => Default
      case Threw => StubRaised
    else if reply != [] && reply[0] == TAG_ERROR then LogicError
    else CallError
  }

  // ---- The marshalled call ----

  lemma DecodeResult(ret: Type, v: Value)
    requires HasType(v, ret) && Small(ret, v)
    ensures DecodeReply(ret, ResultBytes(ret, v)) == Returned(v)
  {
    TagRead(TAG_RESULT, Write(ret, v));
    RoundTrip(ret, v, [TAG_END]);
  }

  /** The name a service decodes from a stub's request is the stub's exactly when it round-trips. */
  lemma RequestNameReads(name: bytes, ts: seq<Type>, vs: seq<Value>)
    requires Typed(vs, ts)
    ensures var after := WriteArgs(ts, vs) + [TAG_END];
            CallBytes(name, ts, vs)[1..] == WriteText(name, true) + after
    ensures ReadText(CallBytes(name, ts, vs)[1..]) == Got(Text(name), |WriteText(name, true)|)
       <==> |name| < TWO_31 && forall i :: 0 <= i < |name| - 1 ==> name[i] < 128
  {
    hide WriteText, WriteArgs, ReadText;
    var after := WriteArgs(ts, vs) + [TAG_END];
    assert CallBytes(name, ts, vs)[1..] == WriteText(name, true) + after;
    Utf8TextRoundTripsExactly(name, after);
  }

  /** The service hands everything after a name that reads back to that name's callee. */
  lemma NameIsServed(functions: map<bytes, Callee>, name: bytes, after: bytes)
    requires AllWellTyped(functions)
    requires |name| < TWO_31 && forall i :: 0 <= i < |name| - 1 ==> name[i] < 128
    ensures Serve(functions, [TAG_CALL] + (WriteText(name, true) + after)) == CallNamed(functions, name, after)
  {
    hide WriteText, ReadText, CallNamed, AllWellTyped;
    var named := WriteText(name, true);
    Utf8TextRoundTripsExactly(name, after);
    DropFront(named, after, |named|);
    assert named[|named|..] + after == after;
    assert ([TAG_CALL] + (named + after))[1..] == named + after;
  }

  lemma CallStartsWithName(name: bytes, ts: seq<Type>, vs: seq<Value>)
    requires Typed(vs, ts)
    ensures CallBytes(name, ts, vs) == [TAG_CALL] + (WriteText(name, true) + (WriteArgs(ts, vs) + [TAG_END]))
  {
    hide WriteText, WriteArgs;
  }

  lemma FoundIsWellTyped(functions: map<bytes, Callee>, name: bytes)
    requires AllWellTyped(functions) && FindCallee(functions, name).Some?
    ensures WellTyped(FindCallee(functions, name).value)
  {
    assert name in functions ==> WellTyped(functions[name]);
    assert STAR in functions ==> WellTyped(functions[STAR]);
  }

  lemma MarshalledTo(functions: map<bytes, Callee>, name: bytes, vs: seq<Value>)
    requires AllWellTyped(functions) && FindCallee(functions, name).Some?
    requires |name| < TWO_31 && forall i :: 0 <= i < |name| - 1 ==> name[i] < 128
    requires var c := FindCallee(functions, name).value;
             Typed(vs, c.params) && AllSmall(c.params, vs)
    ensures var c := FindCallee(functions, name).value;
            && WellTyped(c)
            && Serve(functions, CallBytes(name, c.params, vs)) == Body(ResultBytes(c.ret, c.f(vs)))
            && (Small(c.ret, c.f(vs)) ==> DecodeReply(c.ret, ResultBytes(c.ret, c.f(vs))) == Returned(c.f(vs)))
  {
    var c := FindCallee(functions, name).value;
    FoundIsWellTyped(functions, name);
    CallStartsWithName(name, c.params, vs);
    NameIsServed(functions, name, WriteArgs(c.params, vs) + [TAG_END]);
    ArgsRoundTrip(c.params, vs, [TAG_END]);
    hide WriteText, WriteArgs, ReadArgs, FindCallee, Serve, CallBytes, AllSmall, Small, AllWellTyped, ResultBytes;
    if Small(c.ret, c.f(vs)) {
      DecodeResult(c.ret, c.f(vs));
    }
  }

  /** The function a call runs: the one registered under its name, or under `*` when there is none of that name. */
  ghost predicate Runs(functions: map<bytes, Callee>, name: bytes, c: Callee) {
    if name in functions then c == functions[name] else [42] in functions && c == functions[[42]]
  }

  /**
   The whole marshalled call: a name whose bytes but the last are ASCII, arguments of the function's types
   and a result that round-trips. The service runs the function registered under the name on the caller's
   arguments, or else the one under `*`, and the stub returns what it returned.
   */
  lemma MarshalledCall(functions: map<bytes, Callee>, name: bytes, c: Callee, vs: seq<Value>)
    requires AllWellTyped(functions) && Runs(functions, name, c)
    requires |name| < TWO_31 && forall i :: 0 <= i < |name| - 1 ==> name[i] < 128
    requires Typed(vs, c.params) && AllSmall(c.params, vs)
    ensures WellTyped(c) && HasType(c.f(vs), c.ret)
    ensures Serve(functions, CallBytes(name, c.params, vs)) == Body(ResultBytes(c.ret, c.f(vs)))
    ensures Small(c.ret, c.f(vs)) ==> DecodeReply(c.ret, ResultBytes(c.ret, c.f(vs))) == Returned(c.f(vs))
  {
    FindCalleeExactly(functions, name, c);
    hide FindCallee, Serve, CallBytes, AllSmall, Small, AllWellTyped, ResultBytes, DecodeReply;
    MarshalledTo(functions, name, vs);
  }

  /** A registered name runs its own function, `*` or not. */
  lemma OwnFunctionRuns(functions: map<bytes, Callee>, name: bytes, vs: seq<Value>)
    requires AllWellTyped(functions) && name in functions
    requires |name| < TWO_31 && forall i :: 0 <= i < |name| - 1 ==> name[i] < 128
    requires Typed(vs, functions[name].params) && AllSmall(functions[name].params, vs)
    ensures var c := functions[name];
            && HasType(c.f(vs), c.ret)
            && Serve(functions, CallBytes(name, c.params, vs)) == Body(ResultBytes(c.ret, c.f(vs)))
  {
    hide Serve, CallBytes, AllSmall, AllWellTyped, ResultBytes;
    MarshalledCall(functions, name, functions[name], vs);
  }

  /** Any other name runs the function registered under `*`. */
  lemma StarFunctionRuns(functions: map<bytes, Callee>, name: bytes, vs: seq<Value>)
    requires AllWellTyped(functions) && name !in functions && [42] in functions
    requires |name| < TWO_31 && forall i :: 0 <= i < |name| - 1 ==> name[i] < 128
    requires Typed(vs, functions[[42]].params) && AllSmall(functions[[42]].params, vs)
    ensures var c := functions[[42]];
            && HasType(c.f(vs), c.ret)
            && Serve(functions, CallBytes(name, c.params, vs)) == Body(ResultBytes(c.ret, c.f(vs)))
  {
    hide Serve, CallBytes, AllSmall, AllWellTyped, ResultBytes;
    MarshalledCall(functions, name, functions[[42]], vs);
  }

  /** A name nobody registered, with no `*` function, comes back as a logic error naming it. */
  lemma UnknownMethod(functions: map<bytes, Callee>, name: bytes, ts: seq<Type>, vs: seq<Value>,
                      ret: Type)
    requires AllWellTyped(functions) && name !in functions && [42] !in functions && Typed(vs, ts)
    requires |name| < TWO_31 - |NO_CALLEE| && forall i :: 0 <= i < |name| - 1 ==> name[i] < 128
    ensures var reply := Serve(functions, CallBytes(name, ts, vs));
            && reply.Body?
            && DecodeReply(ret, reply.content) == LogicError
            && ErrorSays(reply.content, Ascii("No Callee ") + name)
  {
    FindCalleeExactly(functions, name, Callee([], Int32, _ => Num(0)));
    hide WriteText, WriteArgs, ReadText, FindCallee, Serve, CallBytes, AllWellTyped;
    CallStartsWithName(name, ts, vs);
    NameIsServed(functions, name, WriteArgs(ts, vs) + [TAG_END]);
    ErrorReads(NO_CALLEE + name, ret);
    assert NO_CALLEE == Ascii("No Callee ");
  }

  // ---- Error replies ----

  /** The bytes of an ASCII text. */
  function Ascii(text: string): (b: bytes)
    ensures |b| == |text| && forall i :: 0 <= i < |text| && text[i] < 128 as char ==> b[i] == text[i] as int
  {
    seq(|text|, i requires 0 <= i < |text| => if text[i] < 128 as char then text[i] as int else 0)
  }

  /** The reply is an error whose text a client reads as this one. */
  predicate ErrorSays(reply: bytes, message: bytes) {
    && reply != [] && reply[0] == 69
    && Read(Str, reply[1..]).Got? && Read(Str, reply[1..]).value == Text(message)
  }

  lemma ErrorReads(message: bytes, ret: Type)
    requires |message| < TWO_31
    ensures ErrorSays(ErrorBytes(message), message) && DecodeReply(ret, ErrorBytes(message)) == LogicError
  {
    hide WriteText, ReadText;
    TagRead(TAG_ERROR, WriteText(message, false));
    TextRoundTripExactly(message, false, [TAG_END]);
  }

  lemma TenInDigits()
    ensures Decimal.ToString(10) == [49, 48]
  {
    assert Decimal.Digits(10) == Decimal.Digits(1) + [48];
  }

  lemma ErrorArgsBytes()
    ensures Ascii("Error Args") == [69, 114, 114, 111, 114, 32, 65, 114, 103, 115]
  {
  }

  lemma ErrorArgsText()
    ensures ERROR_ARGS == [TAG_ERROR] + WriteText(Ascii("Error Args"), true) + [TAG_END]
  {
    hide Utf8Count, Decimal.ToString, Ascii;
    ErrorArgsBytes();
    TenInDigits();
    Utf8CountIsLengthExactly(Ascii("Error Args"));
  }

  lemma ErrorArgsReads(ret: Type)
    ensures ErrorSays(ERROR_ARGS, Ascii("Error Args")) && DecodeReply(ret, ERROR_ARGS) == LogicError
  {
    var message := Ascii("Error Args");
    ErrorArgsText();
    hide WriteText, ReadText;
    TagRead(TAG_ERROR, WriteText(message, true));
    Utf8TextRoundTripsExactly(message, [TAG_END]);
  }

  /** The request is not a call or `z`, or its name does not read, or its function's arguments do not. */
  ghost predicate BadRequest(functions: map<bytes, Callee>, request: bytes) {
    || request == [] || (request[0] != 67 && request[0] != 122)
    || (request[0] == 67 &&
        match Read(Str, request[1..])
        case Got(name, size) =>
          exists c :: Runs(functions, name.s, c) && ReadArgs(c.params, request[1..][size..]) == Missing
        case _ => true)
  }

  lemma BadRequestServed(functions: map<bytes, Callee>, request: bytes)
    requires AllWellTyped(functions) && BadRequest(functions, request)
    ensures Serve(functions, request) ==
              Body(if request != [] && request[0] == 67 then ERROR_ARGS else ErrorBytes(NO_SUPPORT))
  {
    hide ReadText, ReadArgs, AllWellTyped, ErrorBytes, ERROR_ARGS, NO_SUPPORT;
    if request != [] && request[0] == 67 && ReadText(request[1..]).Got? {
      var o := ReadText(request[1..]);
      var c :| Runs(functions, o.value.s, c) && ReadArgs(c.params, request[1..][o.size..]) == Missing;
      FindCalleeExactly(functions, o.value.s, c);
    }
  }

  /** Such a request is answered with an error, and this is what the error says. */
  lemma BadRequestsAnswered(functions: map<bytes, Callee>, request: bytes, ret: Type)
    requires AllWellTyped(functions) && BadRequest(functions, request)
    ensures var reply := Serve(functions, request);
            && reply.Body? && DecodeReply(ret, reply.content) == LogicError
            && ErrorSays(reply.content, if request != [] && request[0] == 67 then Ascii("Error Args")
                                        else Ascii("No support protocol tag."))
  {
    hide *;
    BadRequestServed(functions, request);
    ErrorArgsReads(ret);
    SupportText();
    ErrorReads(NO_SUPPORT, ret);
  }

  lemma SupportText()
    ensures NO_SUPPORT == Ascii("No support protocol tag.") && |NO_SUPPORT| < TWO_31
  {
  }

  /** A call whose name and arguments read is answered with the function's result on exactly those arguments. */
  lemma ReadableCallsServed(functions: map<bytes, Callee>, request: bytes, c: Callee, vs: seq<Value>)
    requires AllWellTyped(functions) && request != [] && request[0] == 67 && Read(Str, request[1..]).Got?
    requires var o := Read(Str, request[1..]);
             && Runs(functions, o.value.s, c)
             && ReadArgs(c.params, request[1..][o.size..]).Got?
             && ReadArgs(c.params, request[1..][o.size..]).value == vs
    ensures Typed(vs, c.params) && HasType(c.f(vs), c.ret)
    ensures Serve(functions, request) == Body(ResultBytes(c.ret, c.f(vs)))
  {
    var o := Read(Str, request[1..]);
    FindCalleeExactly(functions, o.value.s, c);
    FoundIsWellTyped(functions, o.value.s);
    hide ReadText, ReadArgs, ResultBytes, FindCallee, HasType;
    assert WellTyped(c);
  }

  /** What a stub makes of a reply depends on its first byte: `R` and a readable value, `E`, or anything else. */
  lemma DecodeExactly(ret: Type, reply: bytes)
    ensures forall v :: DecodeReply(ret, reply) == Returned(v) <==>
              reply != [] && reply[0] == 82 && Read(ret, reply[1..]).Got? && Read(ret, reply[1..]).value == v
    ensures DecodeReply(ret, reply) == Default <==> reply != [] && reply[0] == 82 && Read(ret, reply[1..]) == Missing
    ensures DecodeReply(ret, reply) == LogicError <==> reply != [] && reply[0] == 69
    ensures DecodeReply(ret, reply) == CallError <==> reply == [] || (reply[0] != 82 && reply[0] != 69)
  {
    hide Read;
  }

  /** The bytes of a call, a result and an error, spelled out. */
  lemma WireForms()
    ensures CallBytes(Ascii("add"), [Int32, Int64], [Num(7), Num(-12)]) == Ascii("Cs3\"add\"7l-12;z")
    ensures ResultBytes(List(Bool), Items([Truth(true), Truth(false)])) == Ascii("Ra2{tf}z")
    ensures ErrorBytes(Ascii("x")) == Ascii("Eb1\"x\"z")
  {
    hide *;
    CallForm();
    ResultForm();
    ErrorForm();
  }

  lemma ErrorForm()
    ensures ErrorBytes(Ascii("x")) == Ascii("Eb1\"x\"z")
  {
    assert Decimal.ToString(1) == [49];
    assert Ascii("x") == [120] && Ascii("Eb1\"x\"z") == [69, 98, 49, 34, 120, 34, 122];
    hide Ascii, Decimal.ToString;
  }

  lemma NameForm()
    ensures WriteText(Ascii("add"), true) == [115, 51, 34, 97, 100, 100, 34]
  {
    var name := Ascii("add");
    assert name == [97, 100, 100];
    Utf8CountIsLengthExactly(name);
    assert Decimal.ToString(3) == [51];
    hide Utf8Count;
  }

  lemma ArgsForm()
    ensures WriteArgs([Int32, Int64], [Num(7), Num(-12)]) == [55, 108, 45, 49, 50, 59]
  {
    var ts, vs := [Int32, Int64], [Num(7), Num(-12)];
    assert Decimal.ToString(-12) == [45] + (Decimal.Digits(1) + [50]) == [45, 49, 50];
    assert ts[1..] == [Int64] && vs[1..] == [Num(-12)] && ts[1..][1..] == [] && vs[1..][1..] == [];
    assert WriteArgs(ts[1..], vs[1..]) == WriteInt(-12, 108);
  }

  lemma CallForm()
    ensures CallBytes(Ascii("add"), [Int32, Int64], [Num(7), Num(-12)]) == Ascii("Cs3\"add\"7l-12;z")
  {
    NameForm();
    ArgsForm();
    hide WriteArgs, WriteText;
    assert Ascii("Cs3\"add\"7l-12;z") == [67, 115, 51, 34, 97, 100, 100, 34, 55, 108, 45, 49, 50, 59, 122];
  }

  lemma ResultForm()
    ensures ResultBytes(List(Bool), Items([Truth(true), Truth(false)])) == Ascii("Ra2{tf}z")
  {
    var vs := [Truth(true), Truth(false)];
    assert vs[1..] == [Truth(false)] && vs[1..][1..] == [];
    assert WriteAll(Bool, vs[1..]) == [102];
    assert WriteAll(Bool, vs) == [116, 102];
    assert Decimal.Digits(2) == [50];
    hide WriteAll, Decimal.Digits;
    assert Ascii("Ra2{tf}z") == [82, 97, 50, 123, 116, 102, 125, 122];
  }

  /** Asking for the function list with `z` yields a list that reads back as the names, in order. */
  lemma FunctionListReads(functions: map<bytes, Callee>, request: bytes)
    requires AllWellTyped(functions) && request != [] && request[0] == 122
    requires |functions.Keys| < TWO_31 && forall n :: n in functions ==> |n| < TWO_31
    ensures var names := Sorted(functions.Keys);
            |names| == |functions.Keys| && forall n :: n in names <==> n in functions
    ensures var names, reply := Sorted(functions.Keys), Serve(functions, request);
            && reply.Body? && reply.content[0] == 70
            && Read(List(Str), reply.content[1..]).Got?
            && var vs := Read(List(Str), reply.content[1..]).value.vs;
               |vs| == |names| && forall i :: 0 <= i < |vs| ==> vs[i] == Text(names[i])
  {
    SortedHoldsAll(functions.Keys);
    var names := Sorted(functions.Keys);
    hide Sorted;
    var vs := Texts(names);
    TextsSmall(names);
    hide Write, Read, HasType, Small, Texts;
    RoundTrip(List(Str), Items(vs), [TAG_END]);
    TagRead(TAG_FUNCTIONS, Write(List(Str), Items(vs)));
  }

  lemma TagRead(tag: byte, content: bytes)
    ensures ([tag] + content + [TAG_END])[0] == tag
    ensures ([tag] + content + [TAG_END])[1..] == content + [TAG_END]
  {
  }

  lemma {:induction false} TextsSmall(names: seq<bytes>)
    requires forall n :: n in names ==> |n| < TWO_31
    ensures forall x :: x in Texts(names) ==> HasType(x, Str) && Small(Str, x)
    ensures |names| < TWO_31 ==> Small(List(Str), Items(Texts(names)))
  {
    if names != [] {
      TextsSmall(names[1..]);
    }
  }

  // ---- The objects ----

  class Service {
    var functions: map<bytes, Callee>

    constructor ()
      ensures functions == map[]
    {
      functions := map[];
    }

    /** Registers a function unless the name is taken. */
    method RegisterFunction(name: bytes, c: Callee) returns (inserted: bool)
      modifies this
      ensures inserted <==> name !in old(functions)
      ensures functions == if inserted then old(functions)[name := c] else old(functions)
    {
      inserted := name !in functions;
      if inserted {
        functions := functions[name := c];
      }
    }

    /** The loop over the map, which keeps its keys in order. */
    method Names() returns (names: seq<bytes>)
      ensures names == Sorted(functions.Keys)
    {
      hide IsFirst, Before;
      names := [];
      var rest := functions.Keys;
      while rest != {}
        invariant names + Sorted(rest) == Sorted(functions.Keys)
        decreases |rest|
      {
        hide Sorted;
        FirstExists(rest);
        var m :| IsFirst(m, rest);
        FirstIsKey(m, rest);
        SortedStep(m, rest);
        Regrouped(names, [m], Sorted(rest - {m}));
        names, rest := names + [m], rest - {m};
      }
      assert names + [] == names;
    }

    /** Collects the keys in the map's order and writes them as a list. */
    method GetFunctionList() returns (list: bytes)
      ensures list == FunctionList(Sorted(functions.Keys))
    {
      hide Sorted, Texts, HproseFormat.Write;
      var names := Names();
      var writer := new Buffer([]);
      writer.Put([TAG_FUNCTIONS]);
      writer.Write(List(Str), Items(Texts(names)));
      writer.Put([TAG_END]);
      list := writer.s;
    }

    method CallMethod(request: bytes) returns (response: Response)
      requires AllWellTyped(functions)
      ensures response == Serve(functions, request)
    {
      var reader := new Buffer(request);
      assert request[0..] == request;
      var flag := reader.Get();
      if flag == TAG_END as int {
        var list := GetFunctionList();
        return Body(list);
      }
      if flag == TAG_CALL as int {
        var status, name := reader.Read(Str, Text([]));
        if status != Ok {
          return Body(ERROR_ARGS);
        }
        assert request[1..][ReadText(request[1..]).size..] == reader.Left();
        response := Call(name.s, reader);
        return;
      }
      response := ErrorReply(NO_SUPPORT);
    }

    method ErrorReply(message: bytes) returns (response: Response)
      ensures response == Body(ErrorBytes(message))
    {
      var writer := new Buffer([]);
      writer.Put([TAG_ERROR]);
      writer.WriteString(message, false);
      writer.Put([TAG_END]);
      return Body(writer.s);
    }

    method Call(name: bytes, reader: Buffer) returns (response: Response)
      requires AllWellTyped(functions) && reader.readPos <= |reader.s|
      modifies reader
      ensures response == CallNamed(functions, name, old(reader.Left()))
    {
      var found := FindCallee(functions, name);
      if found.None? {
        response := ErrorReply(NO_CALLEE + name);
        return;
      }
      response := RunCallee(found.value, reader);
    }

    method RunCallee(c: Callee, reader: Buffer) returns (response: Response)
      requires WellTyped(c) && reader.readPos <= |reader.s|
      modifies reader
      ensures response == CallCallee(c, old(reader.Left()))
    {
      hide HproseFormat.Write, HasType, ReadArgs;
      var status, args := ReadParams(c.params, reader);
      if status == Exception {
        return Raised;
      }
      if status == Failed {
        return Body(ERROR_ARGS);
      }
      var writer := new Buffer([]);
      writer.Put([TAG_RESULT]);
      writer.Write(c.ret, c.f(args));
      writer.Put([TAG_END]);
      return Body(writer.s);
    }

    /** `reader.Read(arg1) && reader.Read(arg2) && ...` */
    static method ReadParams(ts: seq<Type>, reader: Buffer) returns (status: Status, args: seq<Value>)
      requires reader.readPos <= |reader.s|
      modifies reader
      ensures match ReadArgs(ts, old(reader.Left()))
              case Got(vs, _) => status == Ok && args == vs
              case Missing => status == Failed
              case Threw => status == Exception
      decreases |ts|
    {
      if ts == [] {
        return Ok, [];
      }
      ghost var left := reader.Left();
      var v, rest;
      status, v := reader.Read(ts[0], Num(0));
      if status != Ok {
        return status, [];
      }
      assert left[Read(ts[0], left).size..] == reader.Left();
      status, rest := ReadParams(ts[1..], reader);
      args := [v] + rest;
    }
  }

  /** The stub's side of one call. */
  method EncodeCall(name: bytes, ts: seq<Type>, vs: seq<Value>) returns (request: bytes)
    requires Typed(vs, ts)
    ensures request == CallBytes(name, ts, vs)
  {
    hide WriteText, WriteArgs, HproseFormat.Write, HasType;
    var buf := new Buffer([]);
    buf.Put([TAG_CALL]);
    buf.WriteString(name, true);
    RecursiveWrite(buf, ts, vs);
    buf.Put([TAG_END]);
    request := buf.s;
  }

  method RecursiveWrite(buf: Buffer, ts: seq<Type>, vs: seq<Value>)
    requires Typed(vs, ts)
    modifies buf
    ensures buf.s == old(buf.s) + WriteArgs(ts, vs)
    decreases |vs|
  {
    if vs != [] {
      Regrouped(buf.s, HproseFormat.Write(ts[0], vs[0]), WriteArgs(ts[1..], vs[1..]));
      hide HproseFormat.Write, HasType;
      buf.Write(ts[0], vs[0]);
      RecursiveWrite(buf, ts[1..], vs[1..]);
    }
  }

  method DecodeCall(ret: Type, reply: bytes) returns (result: StubResult)
    ensures result == DecodeReply(ret, reply)
  {
    var reader := new Buffer(reply);
    assert reply[0..] == reply;
    var flag := reader.Get();
    if flag == TAG_RESULT as int {
      var status, v := reader.Read(ret, Num(0));
      match status
      case Ok => return Returned(v);
      case Failed => return Default;
      case Exception => return StubRaised;
    }
    if flag == TAG_ERROR as int {
      return LogicError;
    }
    return CallError;
  }
}
