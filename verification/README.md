# ucorf in Dafny

A verification model of `ucorf`, a coroutine RPC framework. Each module models one part of the
program and proves what callers rely on; `EndToEnd`, `Answers` and `HproseCalls` compose the parts.

| module | what it models |
|---|---|
| `Headers` | the two message headers (`UcorfHead`, `Hprose_Head`): layout, serialisation, parsing |
| `Reassembly`, `Framing` | the greedy receive loop over a byte stream cut into chunks, for any frame recogniser and for the two headers |
| `Server` | `ServerImpl::OnReceiveData` and `DispatchMsg` for one session |
| `CallProtocol` | `ClientImpl` as a state machine over interleavings: a step per lock region or atomic operation |
| `CallInvariant`, `CallSafety` | the inductive invariant of that machine and its preservation by every step |
| `CallTheorems`, `CallConnections` | no lost wakeup, response correlation, conservation, membership agreement, and where they stop |
| `Client` | `ClientImpl` as an object whose methods refine steps and runs of the machine |
| `CallBlocking` | exactly when a waiting caller can still be woken |
| `CallDelivery` | what happens to a response frame while everything else goes on |
| `CallResults` | which steps end a call, with which result, and on which transport |
| `CallWindow` | exactly when the window can still admit a call |
| `Sessions` | one connection: what was sent, how it was cut, what of it arrived |
| `Answers`, `WrapAround` | calls and answers over every interleaving, and what happens once ids outgrow the header |
| `EndToEnd` | client and server objects together, from issuing the requests to returning the results |
| `ConHash` | the consistent-hash ring |
| `Decimal`, `HproseFormat`, `HproseBuffer` | decimal text, the Hprose value format as functions, and the cursor object that reads and writes it |
| `HproseService` | callees, the service, the stub |
| `HproseCalls` | an Hprose call across the whole stack |
| `NodeName`, `Finder` | ZooKeeper node names and the reconciliation of transports with the child list |
| `Dispatcher` | round-robin and consistent-hash dispatch |

## How to read it

*Steps.* In `CallProtocol` the datatype `Event` lists the steps. `StartStep` to `EraseStep` are the
regions of `Call` (client_impl.cpp:80-184) in order; `Add` and `Install` are the two halves of
`OnConnected`, `Del`, `Detach` and sixteen `CloseShard` steps are `OnDisconnected`; `Arrive`, `Match`
and `Push` are the three regions of `OnResponse`. A timeout and a send result are choices of the
environment. A list of events that `Run` accepts is an interleaving; every theorem about reachable
states quantifies over all of them, with any number of callers, transports and response frames from an
arbitrary peer.

*Objects.* Classes carry the source's fields. Each method's postcondition ties the new fields to a
specification function of the old ones, and the theorems are about those functions. `ServerImpl`
additionally records which requests were served and what was sent; `ServerFinder` records how often each
transport was shut down.

*Sharpness.* Where the code falls short of what it is for, the exact condition is proved, both ways:

- `UcorfHead::Parse` tests a 16-bit cut of the buffer length. One call of a loop takes every whole frame
  of its buffer if and only if no frame boundary of the buffer is hidden by that cut
  (`LoopTakesAllExactly`). A connection delivers its stream if and only if the frames can be given, in
  order, chunk ends at which they show: the frame is whole there, and the distance from its beginning
  modulo 65536 covers its header (`ConnectionDeliversExactly`, a condition on the stream and the cut
  positions alone). It holds for every cutting with Hprose headers (`HproseShowsAll`), when every
  presented buffer is below 65536 bytes (`SmallBuffersShowAll`), and when the largest frame and the
  largest chunk together are at most 65536 bytes (`SmallFramesShowAll`). `WholeFrameStalls` is a frame
  that is never delivered when shown whole.
- Nothing on the server's receive path catches. A request whose handling throws ends the loop like a
  request for an unknown service does: what is served is exactly the longest front of servable requests
  (`ServedExactly`). With the Hprose service a request stops the server if and only if it calls a function
  that is found and decoding its arguments reaches a list with a negative count
  (`ServedUnlessNegativeCount`); a request made by a stub never does (`StubRequestIsServed`). Some request
  can stop a server if and only if one of its functions takes a list (`StoppableExactly`).
- A timed-out call leaves its shard entry and its place in `wnd_size_` behind for ever
  (`QuietLeavesTimeouts`), and so does a stranded one, see below. From any reachable state every call on
  every continuation is refused if and only if these two kinds of calls outnumber the window, with and
  without timeouts (`WindowClosedExactly`). Without timeouts and with connect and disconnect callbacks
  taking turns that never happens (`AlternatingKeepsAdmitting`).
- `callid` is 32 bits wide and `msg_id` is not: a call with a larger id can pop an error, never a
  response (`WideIdNeverAnswered`).
- Without timeouts a waiting caller is blocked for ever if and only if it is stranded: its channel is
  empty, its send has been reported, no frame is on its way to it, and its group was replaced
  (`BlockedExactly`). A group is replaced if and only if a connect callback finds it still in `channels_`
  (`ReplacedExactly`). While connect and disconnect callbacks of a transport take turns every waiting
  caller can be woken (`AlternatingNeverBlocks`); `OverlapStrands` is a reconnect that overtakes the second
  half of a disconnect and strands a caller.
- A response that a call pops is the answer to a request whose id is, modulo 2^32, the call's, over every
  interleaving and whatever the network cut off or cut up (`PopsCongruentAnswer`). It is the answer to the
  call's own request when the ids sent differ modulo 2^32 (`PopsOwnAnswer`), as they do until more than
  2^32 ids have been taken (`FirstIdsApart`). With one id more a caller can pop another's answer
  (`OneIdTooMany`, by `PopsAnothersAnswer`).
- An Hprose value reads back if and only if its strings and lists are shorter than 2^31
  (`RoundTripExactly`); a string written with `utf8` reads back if and only if in addition all its bytes
  but the last are ASCII (`Utf8TextRoundTripsExactly`). The reader ignores its `utf8` flag and
  `utf8_char_count` skips one byte too many after a multi-byte leader; section 3 of RFC 3629 would have
  it skip one fewer.
- Two ring insertions commute if and only if no free candidate belongs to both
  (`InsertsCommuteExactly`); without such overlaps the ring is a function of the live keys
  (`HistoryIndependent`). The candidates of different keys meet only where `std::hash` maps two different
  texts to one value (`PointsMeetExactly`), so without such collisions the ring has no history
  (`HashedHistoryIndependent`).
- With consistent hashing every member that won points stays in the ring, whatever is added and removed, if
  and only if the members' keys are distinct (`WinnersStayExactly`).
- Reconciliation conserves transports if and only if no URL new to the finder is listed twice
  (`UpdateConservesExactly`); a known URL keeps its transport if and only if it is listed an odd number
  of times (`KeptExactly`). Distinct ZooKeeper names give distinct URLs if and only if at most one of
  them has no colon (`UrlsDistinctExactly`).

*Where comments and code disagree* the code is followed: the comment on `ReadUntil`
(hprose_protocol.h:107) says the result leaves out the terminator, but the code includes it.
`atoi` and `atoll` are modelled as glibc implements them: clamping to 64 bits, then narrowing by
wrap-around. In the node-name pattern `.` matches every character, as Boost's default syntax has it.

## Model

| member | source | states |
|---|---|---|
| Headers.UcorfHead.Serialize | ucorf/message.cpp:48-60 | writes the encoded header at the front of the buffer and nothing behind it, or refuses a buffer that is too short and leaves it alone |
| Headers.UcorfHead.Parse | ucorf/message.cpp:67-81 | consumes and fills in what `ParseHead` reads, 16-bit length test included; a rejected buffer leaves the header unchanged |
| Headers.UcorfHead.SetId | ucorf/message.cpp:6-9 | the id is cut to 32 bits and no other field moves |
| Headers.UcorfHead.SetFollowBytes | ucorf/message.cpp:14-17 | the body length is cut to 32 bits and no other field moves |
| Headers.HproseHead.Serialize | ucorf/hprose/hprose_header.cpp:29-35 | writes the eight bytes or refuses |
| Headers.HproseHead.Parse | ucorf/hprose/hprose_header.cpp:36-42 | consumes eight bytes or rejects, and assigns both fields |
| Headers.ParseMatchesWireExactly | ucorf/message.cpp:67-81 | the parser agrees with the wire format if and only if the 16-bit cut hides no header; a hidden one takes 65536 bytes |
| Headers.WireHeadStable | ucorf/message.cpp:67-81 | a readable header stays the same whatever arrives after it |
| Headers.WireHeadInPrefix | ucorf/message.cpp:67-81 | a readable header reads the same from any front of the buffer that contains it whole |
| Headers.WireRoundTripExactly | ucorf/message.cpp:48-81 | reading an encoded header returns it if and only if its names fit 16 bits |
| Headers.HeadRoundTripExactly | ucorf/message.cpp:48-81 | the program's own parse of its own serialisation succeeds if and only if the names fit and the cut of the length does not hide the end |
| Headers.FullBufferHidesEveryHeader | ucorf/message.cpp:73 | a buffer of exactly 65536 bytes never yields a header |
| Headers.UcorfBytes | ucorf/message.cpp:48-60 | the bytes of a header one by one: 0xf8, the type, id and length most significant byte first, the name lengths modulo 65536, the names |
| Headers.HproseBytes | ucorf/hprose/hprose_header.cpp:29-35 | the eight bytes one by one: length, then id |
| Headers.WireHeadExactly | ucorf/message.cpp:48-81 | bytes start with a header if and only if they start with the encoding of one whose names fit |
| Headers.ParseHeadExactly | ucorf/message.cpp:67-81 | the program accepts it if and only if moreover a Ucorf header is no longer than the buffer size modulo 65536 |
| Headers.MagicExpected | ucorf/message.cpp:70 | bytes that do not begin with 0xf8 are no Ucorf header |
| Reassembly.StreamConserved | ucorf/client_impl.cpp:227-264 | for every split into chunks, frames delivered followed by frames still in the tail are the frames of the stream, in order |
| Reassembly.TailConserved | ucorf/client_impl.cpp:227-264 | the tail left after any split still leads to the tail of the whole stream |
| Reassembly.FeedWaits | ucorf/client_impl.cpp:234-257 | whatever is left pending is something the loop cannot take a frame from |
| Reassembly.ChunkingInvariantExactly | ucorf/client_impl.cpp:227-264 | chunked and one-pass delivery agree if and only if the cut positions show every frame of the stream in turn |
| Reassembly.DeliversUnlessStalled | ucorf/client_impl.cpp:234-257 | the only way to fall short is to end on a whole frame that is not recognised |
| Reassembly.TraceComplete | ucorf/client_impl.cpp:234-257 | a loop that stops where it cannot take a frame has taken exactly the frames of the buffer and left exactly its tail |
| Framing.StallIsHiddenFrame | ucorf/message.cpp:73 | a stall is a whole frame whose header end the cut hides, only possible with a Ucorf tail of at least 65536 bytes |
| Framing.ConnectionConserves | ucorf/server_impl.cpp:101-132 | nothing lost, invented, repeated or reordered on a connection |
| Framing.TakenShows | ucorf/message.cpp:73 | a loop recognises a frame in a buffer that ends n bytes after its beginning if and only if the frame is whole and n modulo 65536 covers a Ucorf header |
| Framing.LoopTakesAllExactly | ucorf/server_impl.cpp:108-127 | one call of a loop takes all whole frames of its buffer if and only if the cut hides none of their headers |
| Framing.ConnectionDeliversExactly | ucorf/server_impl.cpp:101-132 | a connection yields the frames and tail of its stream if and only if the frames can be given chunk ends, in order, that show them |
| Framing.ChunkingInvariant | ucorf/server_impl.cpp:101-132 | a split that shows every frame and another split of the same stream agree if and only if the other shows every frame too |
| Framing.HproseShowsAll | ucorf/hprose/hprose_header.cpp:36-42 | with Hprose headers every cutting of every stream delivers it |
| Framing.SmallBuffersShowAll | ucorf/message.cpp:73 | so does every cutting that keeps the presented buffers below 65536 bytes |
| Framing.SmallFramesShowAll | ucorf/message.cpp:73 | so does every cutting whose largest chunk and the largest frame together are at most 65536 bytes |
| Framing.TakeFrame | ucorf/client_impl.cpp:236-247 | header parse plus body check recognise exactly the next frame at an offset |
| Framing.SentFrameIsNext | ucorf/client_impl.cpp:118-128 | a message built by the sender is recognised whole in front of anything |
| Framing.OnWireExactly | ucorf/client_impl.cpp:236-247 | bytes begin with a frame if and only if they begin with what a sender lays out for it |
| Framing.TakenExactly | ucorf/server_impl.cpp:108-115 | the loops take a frame if and only if moreover the cut does not hide its header |
| Framing.StreamRoundTrip | ucorf/client_impl.cpp:118-128 | pipelined messages are recovered one for one with nothing left over |
| Framing.BuildMessage | ucorf/client_impl.cpp:118-128 | the buffer handed to the transport is the encoded header followed by the body |
| Framing.WholeFrameStalls | ucorf/message.cpp:73 | a concrete well-formed frame that is on the wire and not delivered when shown whole |
| Server.ReplyReadsBack | ucorf/server_impl.cpp:145-158 | a client parses back from a reply, whatever follows it, the request's id and names, the response type and the whole message |
| Server.UcorfReplies | ucorf/server_impl.cpp:134-163 | what goes back for any Ucorf request: its service's message under its id and names with type 2, and nothing when its type byte is 1, its service unknown or there is no message |
| Server.HproseReplies | ucorf/server_impl.cpp:134-163 | an Hprose request is always owed an answer, by the service named `hprose` |
| Server.TurnExactly | ucorf/server_impl.cpp:136-141 | a request ends the loop with -1 if and only if its service is unknown, and by exception if and only if its service throws |
| Server.OneWaySilent | ucorf/server_impl.cpp:145 | one-way requests leave no trace in what is sent back |
| Server.TwoWayAnswered | ucorf/server_impl.cpp:144-163 | when services have messages for them, the others get exactly one reply each, in order, with their ids and messages |
| Server.ServedExactly | ucorf/server_impl.cpp:108-119 | what is served is the longest front of requests that have a service which returns |
| Server.ServerImpl.SendReply | ucorf/server_impl.cpp:146-158 | what goes out is exactly the reply frame's bytes |
| Server.ServerImpl.DispatchMsg | ucorf/server_impl.cpp:134-167 | false for an unknown service, an escaping exception when the service throws, else the request recorded and its reply sent; nothing sent for a Ucorf request of type 1 |
| Server.ServerImpl.OnReceiveData | ucorf/server_impl.cpp:101-132 | serves the buffer's frames up to the first that cannot be served, sends exactly their replies in order, and ends with the bytes taken, with -1 at an unknown service, or with the exception of a throwing one |
| Server.LoopStops | ucorf/server_impl.cpp:118-119 | the loop ends at the first request that cannot be served, by -1 or by the exception, and serves none after it |
| Server.ReplyToOne | ucorf/server_impl.cpp:144-163 | every frame sent back is a reply to one of the requests |
| CallSafety.TakeIdKeeps | ucorf/client_impl.cpp:119 | taking an id from the counter keeps the invariant: ids stay distinct |
| CallSafety.RegisterKeeps | ucorf/client_impl.cpp:149-153 | entering a shard map under its lock keeps the invariant |
| CallSafety.EraseKeeps | ucorf/client_impl.cpp:171-174 | erasing one's entry keeps the invariant |
| CallSafety.InstallKeeps | ucorf/client_impl.cpp:190-191 | installing a fresh group keeps the invariant, also over a live one |
| CallSafety.DetachKeeps | ucorf/client_impl.cpp:197-202 | detaching the group keeps the invariant |
| CallSafety.CloseShardKeeps | ucorf/client_impl.cpp:206-210 | closing and sweeping a shard keeps the invariant: everyone still waiting there ends up with an item |
| CallSafety.ArriveKeeps | ucorf/client_impl.cpp:273-281 | finding a response's group keeps the invariant |
| CallSafety.MatchKeeps | ucorf/client_impl.cpp:288-296 | looking a response up in its shard keeps the invariant |
| CallSafety.PushKeeps | ucorf/client_impl.cpp:298-302 | pushing a response into the channel found earlier keeps the invariant, whatever happened in between |
| CallSafety.StepKeeps | ucorf/client_impl.cpp:80-303 | every step of every participant keeps the invariant |
| CallSafety.RunKeeps | ucorf/client_impl.cpp:80-303 | every state of every interleaving satisfies it |
| CallTheorems.NoLostWakeup | ucorf/client_impl.cpp:193-212 | in every reachable state a call waiting in a closed shard has an item; once all sixteen shards of its group are closed every waiting caller can go on |
| CallTheorems.ClosedShardTakesNoCall | ucorf/client_impl.cpp:149-152 | a closed shard stays closed and never gains an entry |
| CallTheorems.ItemStaysUntilPopped | ucorf/client_impl.cpp:162-167 | nobody else can take a waiting call's item away |
| CallTheorems.OthersOnlyFillSlot | ucorf/client_impl.cpp:80-303 | steps of others change nothing of a call except filling its empty channel |
| CallTheorems.ResponseCorrelation | ucorf/client_impl.cpp:119-181 | what a call pops is its own send error, its own group's disconnect error, or a frame of its own group with its own id |
| CallTheorems.FrameConsumedOnce | ucorf/client_impl.cpp:266-303 | no response frame is consumed by two calls |
| CallTheorems.PopsOnce | ucorf/client_impl.cpp:162-167 | no call consumes a second item |
| CallTheorems.WideIdNeverAnswered | ucorf/client_impl.cpp:119-120 | a call whose id exceeds 32 bits never pops a response |
| CallTheorems.WindowConserved | ucorf/client_impl.cpp:160-169 | `wnd_size_` is the number of calls between increment and decrement plus the calls that timed out, so it never underflows |
| CallTheorems.EntriesConserved | ucorf/client_impl.h:56-74 | the shard maps hold exactly the registered calls, each under its id in shard id mod 16, and an id is in one map of one group only |
| CallTheorems.QuietLeavesTimeouts | ucorf/client_impl.cpp:163-174 | at rest window and maps hold the timed-out calls and nothing else; the window is 0 if and only if all maps are empty |
| CallTheorems.NoTimeoutsNoLeak | ucorf/client_impl.cpp:163-174 | with `rcv_timeout_ms = 0` window and maps are empty at rest |
| CallTheorems.TimeoutsNeverShrink | ucorf/client_impl.cpp:163-165 | a timed-out call keeps its place for ever |
| CallTheorems.NotEstablishedIsClean | ucorf/client_impl.cpp:136-151 | a call that found no group or a closed shard has touched neither a map nor the window |
| CallTheorems.StrandedForEver | ucorf/client_impl.cpp:190-191 | a caller waiting on a replaced group with nothing in flight waits for ever when there are no timeouts |
| CallTheorems.LostOnlyByReplacement | ucorf/client_impl.cpp:186-212 | with nothing in flight and no sweep under way, a waiting call with an empty channel is stranded if and only if its group is not in `channels_` |
| CallResults.ReturnedExactly | ucorf/client_impl.cpp:80-184 | over any run a call has returned a result if and only if a step ended it with that result: full window, transport not established, no transport after reconnecting, failed reconnect, one-way send, no group, closed shard, timeout, popped item |
| CallResults.PoppedDecides | ucorf/client_impl.cpp:162-183 | over every interleaving a call fails with an error code if and only if it popped an item with that code, succeeds or reports a parse error if and only if it popped one without, and otherwise has popped nothing |
| CallResults.ItemDecides | ucorf/client_impl.cpp:155-183 | a disconnect is returned as the error the transport reported, a failed send as the error it reported, a response as success or parse error |
| CallResults.StaysWithItsPick | ucorf/client_impl.cpp:87-116 | a call that takes an id picked its transport, established, from the dispatcher's list and keeps it |
| CallResults.WaitsOnItsTransport | ucorf/client_impl.cpp:135-153 | and waits on a group of that transport only |
| CallConnections.RunKeepsAgreement | ucorf/client_impl.cpp:186-202 | with callbacks taking turns, dispatcher list and `channels_` follow the connection phases through any run |
| CallConnections.MembershipAgreement | ucorf/client_impl.cpp:186-202 | between callbacks a transport is in the dispatcher, once, if and only if it has a group |
| CallConnections.AlternatingExactly | ucorf/client_impl.cpp:186-202 | callbacks take turns if and only if each transport's steps go round: add, install, del, detach, add, ... |
| CallConnections.AlternatingLosesNoWakeup | ucorf/client_impl.cpp:186-212 | with callbacks taking turns nobody waits on a dead group with an empty channel |
| CallConnections.InstallOverStrands | ucorf/client_impl.cpp:190-191 | installing over a live group strands every caller waiting on the old one |
| CallConnections.OverlapStrands | ucorf/client_impl.cpp:186-212 | a concrete interleaving in which a reconnect overtakes the disconnect and strands a caller |
| CallConnections.WithoutRemovesOne | ucorf/dispatcher.cpp:15-17 | erasing the first occurrence removes exactly one |
| CallBlocking.ReplacedExactly | ucorf/client_impl.cpp:190-191 | in any run a group is replaced if and only if a connect callback found it still in `channels_` |
| CallBlocking.BlockedExactly | ucorf/client_impl.cpp:160-212 | without timeouts no continuation lets a waiting caller pop if and only if it is stranded |
| CallBlocking.BlockedByOverlapExactly | ucorf/client_impl.cpp:186-212 | with nothing in flight for it, if and only if a connect was made over its connection |
| CallBlocking.AlternatingNeverBlocks | ucorf/client_impl.cpp:186-212 | with callbacks taking turns every waiting caller can be woken |
| CallBlocking.WokenByDisconnect | ucorf/client_impl.cpp:193-212 | a caller on a connected transport is woken by its disconnection |
| CallBlocking.WokenBySweeps | ucorf/client_impl.cpp:204-211 | a caller whose group is being swept is woken by the rest of the sweeps |
| CallBlocking.UnstrandedCanWake | ucorf/client_impl.cpp:160-212 | a waiting caller that is not stranded is woken by a run that counts, times out and connects nobody |
| CallWindow.StuckForEver | ucorf/client_impl.cpp:160-165 | timed-out calls stay so and stranded calls stay stranded or time out, over any run |
| CallWindow.StrandsOnlyBy | ucorf/client_impl.cpp:155-160 | a call becomes stranded by its own last step before the wait, the report of its successful send or a connect over its connection, by nothing else |
| CallWindow.RoomCanBeMade | ucorf/client_impl.cpp:160-169 | while timed-out and stranded calls fit the window, some run brings `wnd_size_` down to it |
| CallWindow.WindowClosedExactly | ucorf/client_impl.cpp:84-85 | every call on every continuation of a reachable state ends with `ec_req_wnd_full` if and only if the timed-out and stranded calls outnumber the window, whatever `rcv_timeout_ms` |
| CallWindow.AlternatingKeepsAdmitting | ucorf/client_impl.cpp:84-85 | with `rcv_timeout_ms = 0` and callbacks taking turns some continuation always admits a call |
| CallDelivery.RunKeepsId | ucorf/client_impl.cpp:119 | a call's id is its id for the rest of any run |
| CallDelivery.ArrivedByEvent | ucorf/client_impl.cpp:266-281 | every frame in the record came in by an event of the run |
| CallDelivery.NoLostResponse | ucorf/client_impl.cpp:266-303 | a frame under a waiting call's id on its connection: once handled, under any interleaving, the call if still waiting can pop, and pops that frame's body or the item that was in its channel when the frame was pushed |
| Client.ClientImpl.constructor | ucorf/client_impl.h:72-74 | the object starts in the machine's start state |
| Client.ClientImpl.OnConnected | ucorf/client_impl.cpp:186-192 | the object's state after it is the machine's after adding and installing |
| Client.ConnectIsRun | ucorf/client_impl.cpp:186-192 | the uninterrupted callback is one of the machine's runs |
| Client.ClientImpl.CloseShard | ucorf/client_impl.cpp:206-210 | the loop over one shard is one closing step: the flag set and the error pushed to every channel of the map |
| Client.ClientImpl.OnDisconnected | ucorf/client_impl.cpp:193-212 | removal, detachment and sixteen sweeps; every call still waiting on the connection then has something to pop |
| Client.DisconnectIsRun | ucorf/client_impl.cpp:193-212 | the uninterrupted callback is one of the machine's runs |
| Client.ClientImpl.OnResponse | ucorf/client_impl.cpp:266-303 | finds group, shard and channel and pushes, or discards, as the machine does |
| Client.RespondIsRun | ucorf/client_impl.cpp:266-303 | the uninterrupted handling of a frame is one of the machine's runs |
| Client.ClientImpl.OnReceiveData | ucorf/client_impl.cpp:227-264 | handles exactly the frames of the buffer, in order, and returns the bytes taken |
| Client.RespondAllIsRun | ucorf/client_impl.cpp:227-303 | so is the handling of all frames of a buffer |
| Client.ClientImpl.TakeId | ucorf/client_impl.cpp:119 | the next id of the shared counter |
| Client.ClientImpl.FindGroup | ucorf/client_impl.cpp:136-141 | the group of the transport, or not established |
| Client.ClientImpl.EnterShard | ucorf/client_impl.cpp:144-153 | refused when the shard is closed, else entered under the id |
| Client.ClientImpl.EnterMap | ucorf/client_impl.cpp:136-153 | group and shard in turn: registered, or refused as the machine refuses |
| Client.ClientImpl.Issue | ucorf/client_impl.cpp:118-160 | a two-way call up to its wait: state as the machine's steps give it, and exactly its request frame sent, or nothing when refused |
| Client.IssuedIsRun | ucorf/client_impl.cpp:118-160 | issuing a call, as far as it gets, is one of the machine's runs |
| Client.ClientImpl.Finish | ucorf/client_impl.cpp:162-183 | a call from its pop to its return: item taken, window left, entry erased; it fails with the item's error code if there is one, and succeeds if and only if there is none and the body is non-empty and parses |
| Client.FinishedIsRun | ucorf/client_impl.cpp:162-183 | finishing a call is one of the machine's runs |
| Sessions.DeliveredArePrefix | ucorf/client_impl.cpp:227-264 | whatever part of a stream of messages arrives, in whatever chunks, its first messages are delivered and nothing else |
| Sessions.FramesArriveInOrder | ucorf/client_impl.cpp:227-264 | all messages arrive, in order, if and only if the cuts show every frame |
| Sessions.RequestsArriveInOrder | ucorf/server_impl.cpp:101-132 | the same for the requests of a client |
| Sessions.ServedAreSent | ucorf/server_impl.cpp:101-132 | what a server has served is a front of the requests sent |
| Sessions.RequestOnWire | ucorf/client_impl.cpp:118-128 | the frame of a request: type byte 1 for a one-way call and 0 for another, id modulo 2^32, names and body as given |
| Sessions.ReplyBodyIs | ucorf/server_impl.cpp:136-142 | the message a caller is owed is what the service it names has for the method and body it gives |
| Sessions.RepliesOfOne | ucorf/server_impl.cpp:134-167 | a request gets at most one reply, under the low 32 bits of its id and with its service's message; one if and only if there is a message and it is not a one-way Ucorf request |
| Sessions.FrameIsAnswer | ucorf/client_impl.cpp:227-303 | any frame a client takes, whatever the network cut off or cut up, carries the low 32 bits of the id of one of its requests and the message its service had for it |
| Answers.LoggedByOwner | ucorf/client_impl.cpp:118-159 | each message handed to a transport in a run is the request of the call that bears its id |
| Answers.SentIsLogged | ucorf/client_impl.cpp:155-159 | every call that has got past its send, one-way or not, has its own request among the messages handed over |
| Answers.PopsCongruentAnswer | ucorf/client_impl.cpp:80-303 | over every interleaving and for all ids: a response a call pops is what a sent request was answered with whose id is the call's modulo 2^32 |
| Answers.PopsOwnAnswer | ucorf/client_impl.cpp:80-303 | over every interleaving in which the ids sent differ modulo 2^32: a response a call pops is the message its own request was answered with; otherwise it is its send error or its connection's end |
| Answers.FirstIdsApart | ucorf/client_impl.cpp:119 | the ids sent differ modulo 2^32 while no more than 2^32 have been taken |
| Answers.SuccessIsOwnAnswer | ucorf/client_impl.cpp:162-183 | a call that returns success has parsed the answer to its own request |
| WrapAround.PopsAnothersAnswer | ucorf/client_impl.cpp:119-120 | whatever callers 0 to 2^32 ask for, some run with every frame a server's answer gives the first caller the answer to the last one's request |
| WrapAround.OneIdTooMany | ucorf/client_impl.cpp:119-120 | with 2^32 + 1 ids taken a caller can pop an answer that is not its own |
| EndToEnd.DriveServer | ucorf/server_impl.cpp:101-132 | over any chunks, with the tail shown again: served and answered are the connection's frames up to the first that cannot be served, one-way requests without a trace in what is sent; open if and only if there is none, and an exception escaped if and only if its service is known |
| EndToEnd.DriveClient | ucorf/client_impl.cpp:227-303 | over any chunks the client handles the connection's frames in order |
| EndToEnd.OneOfManyResponses | ucorf/client_impl.cpp:266-303 | among many responses the one under a call's id, and only it, reaches that call |
| EndToEnd.RepliesSplit | ucorf/server_impl.cpp:134-167 | the reply stream falls apart into each request's own replies |
| EndToEnd.RepliesUnderOtherIds | ucorf/server_impl.cpp:145-148 | replies to requests that do not bear an id on the wire do not bear it |
| EndToEnd.RepliesReachTheirCallers | ucorf/client_impl.cpp:266-303 | each waiting caller whose request was served finds its service's message; all others, those behind a request that stopped the server and those with an id beyond 32 bits included, find nothing |
| EndToEnd.IssueSucceeds | ucorf/client_impl.cpp:118-160 | on a live connection a call is never refused: it takes the next id, registers, sends and waits |
| EndToEnd.IssueAll | ucorf/client_impl.cpp:118-160 | callers issuing in turn hand over exactly the stream of their requests under fresh ids, and each then waits for its own |
| EndToEnd.FinishAll | ucorf/client_impl.cpp:162-183 | every caller with something in its channel returns what it makes of it, the others go on waiting |
| EndToEnd.RoundTrip | ucorf/client_impl.cpp:118-303 | the whole trip with the objects, from ready callers to results, for up to 2^32 requests under any ids: requests issued, cut, served as far as they can be, answered, cut, popped; each caller returns the result of its own request, or waits on when there is none for it or its id is beyond 32 bits |
| ConHash.ConHashTable.Insert | ucorf/conhash.h:17-38 | the loop computes `Inserted`; it returns the number of points won, 0 if and only if nothing changed |
| ConHash.ConHashTable.Erase | ucorf/conhash.h:41-51 | the loop computes `Erased`; it returns whether the key was there |
| ConHash.ConHashTable.HGet | ucorf/conhash.h:59-68 | `lower_bound` with wrap-around computes the circular lookup, the default for an empty ring |
| ConHash.ConHashTable.Get | ucorf/conhash.h:54-57 | the lookup of the key's hash |
| ConHash.SuccessorIsNearest | ucorf/conhash.h:63-67 | the point found is the unique one at the smallest clockwise distance modulo 2^64 |
| ConHash.NearestIsSuccessor | ucorf/conhash.h:63-67 | and the nearest point is the one found |
| ConHash.LookupExactly | ucorf/conhash.h:59-68 | an empty ring gives the default, any other the value of the point nearest clockwise |
| ConHash.FreeContents | ucorf/conhash.h:24-30 | a key wins exactly its candidates that were free, each once |
| ConHash.InsertEffect | ucorf/conhash.h:17-38 | keys and values of both maps after a successful insert |
| ConHash.RunKeepsAgreement | ucorf/conhash.h:17-51 | after any inserts and erases, collisions included, ring and index agree: lists non-empty, duplicate-free, disjoint, covering the table, under their owner's value |
| ConHash.InsertErase | ucorf/conhash.h:17-51 | inserting a new key and erasing it restores both maps |
| ConHash.InsertDisruptsMinimally | ucorf/conhash.h:17-38 | after an insert every hash maps where it did or to the new value |
| ConHash.EraseDisruptsMinimally | ucorf/conhash.h:41-51 | after an erase every hash whose point the key did not own maps where it did |
| ConHash.EraseMovesOnlyOwned | ucorf/conhash.h:41-51 | a hash that an erase moves was mapped to the erased key's value |
| ConHash.HistoryIndependent | ucorf/conhash.h:17-51 | when candidates of different keys never meet, any history leaves the ring its live keys determine |
| ConHash.SameLiveSameRing | ucorf/conhash.h:17-51 | two such histories with the same live keys leave the same ring |
| ConHash.CandidateTextsDiffer | ucorf/conhash.h:23-26 | the texts hashed for different keys or numbers differ |
| ConHash.PointsMeetExactly | ucorf/conhash.h:23-27 | two candidates are one point if and only if they are the same candidate of the same key or two different texts collide under the hash |
| ConHash.CollisionFreeApart | ucorf/conhash.h:17-38 | without such collisions the candidates of different keys never meet |
| ConHash.HashedHistoryIndependent | ucorf/conhash.h:17-51 | without such collisions two histories with the same live keys leave the same ring |
| ConHash.LiveOwnsAll | ucorf/conhash.h:17-38 | and every live key owns all the points it was inserted with |
| ConHash.InsertsCommuteExactly | ucorf/conhash.h:17-38 | two inserts commute if and only if no free candidate belongs to both |
| Decimal.DigitsInjective | ucorf/hprose/hprose_protocol.h:522 | `to_string` gives different numbers different texts |
| Decimal.AtollInverts | ucorf/hprose/hprose_protocol.h:171-172 | `atoll` inverts `to_string` on 64-bit values, up to the terminator |
| Decimal.AtoiInvertsExactly | ucorf/hprose/hprose_protocol.h:164-165 | `atoi` inverts `to_string` if and only if the number fits 32 bits |
| Decimal.NumberReads | ucorf/hprose/hprose_protocol.h:165 | white space and one sign in front are read over, and reading stops at the first non-digit |
| Decimal.NoNumberReads | ucorf/hprose/hprose_protocol.h:165 | without a digit behind them the number is 0 |
| Decimal.AtollSaturates | ucorf/hprose/hprose_protocol.h:165-172 | beyond 64 bits `atoll` gives the nearest 64-bit integer and `atoi` its low half |
| HproseFormat.RoundTrip | ucorf/hprose/hprose_protocol.h:467-524 | reading at the start of a written value, whatever follows, gives it back and stops where it ends |
| HproseFormat.RoundTripAll | ucorf/hprose/hprose_protocol.h:483-485 | the same for the elements of a list in a row |
| HproseFormat.LargeNeverReadsBack | ucorf/hprose/hprose_protocol.h:606-607 | a value with a string or list of 2^31 or more never reads back |
| HproseFormat.RoundTripExactly | ucorf/hprose/hprose_protocol.h:361-648 | a value reads back if and only if all its strings and lists are shorter than 2^31 |
| HproseFormat.TextRoundTripExactly | ucorf/hprose/hprose_protocol.h:361-407 | a string reads back if and only if the written count is its length |
| HproseFormat.Utf8CountIsLengthExactly | ucorf/hprose/hprose_protocol.h:584-597 | the character count is the byte count if and only if all bytes but the last are ASCII |
| HproseFormat.Utf8TextRoundTripsExactly | ucorf/hprose/hprose_protocol.h:598-611 | hence exactly which strings written with `utf8` read back |
| HproseFormat.SelfDelimiting | ucorf/hprose/hprose_protocol.h:512-648 | no written value is a proper front of another: a byte stream splits into a value and a rest in one way |
| HproseFormat.ReadIntExactly | ucorf/hprose/hprose_protocol.h:151-177 | which bytes read as which integer, into both widths, missing terminators included |
| HproseFormat.ReadsAcrossWidths | ucorf/hprose/hprose_protocol.h:162-174 | an `i` number reads into a 64-bit integer unchanged, an `l` number into a 32-bit one if and only if it fits |
| HproseFormat.ReadTextExactly | ucorf/hprose/hprose_protocol.h:361-407 | bytes read as a string if and only if they are `e`, or a tag, the length and the bytes between quotes |
| HproseFormat.ReadListExactly | ucorf/hprose/hprose_protocol.h:467-493 | bytes read as a list if and only if they are a count and that many elements between braces, or `a}` with no opening brace ahead |
| HproseFormat.FollowBytesExactly | ucorf/hprose/hprose_protocol.h:590-593 | the bytes skipped behind a leader are its leading one bits, up to seven |
| HproseFormat.CharacterCounts | ucorf/hprose/hprose_protocol.h:584-597 | a leader and the bytes skipped behind it count as one character, even when fewer are left |
| HproseFormat.ThrowsExactly | ucorf/hprose/hprose_protocol.h:470-486 | reading any bytes throws if and only if decoding reaches a list whose count reads as a negative number, here or inside the first element that cannot be read |
| HproseBuffer.Buffer.Get | ucorf/hprose/hprose_protocol.h:96-100 | the next byte and a cursor moved past it, or -1 |
| HproseBuffer.Buffer.ReadUntil | ucorf/hprose/hprose_protocol.h:108-123 | everything through the first terminator, or nothing with the cursor restored |
| HproseBuffer.Buffer.ReadN | ucorf/hprose/hprose_protocol.h:126-134 | n bytes, only when at least one more follows |
| HproseBuffer.Buffer.Read | ucorf/hprose/hprose_protocol.h:140-493 | for any bytes and type: a failed or throwing read restores cursor and output through all nested sentries, a successful one advances past exactly what it read |
| HproseBuffer.Buffer.RawReadInt | ucorf/hprose/hprose_protocol.h:151-177 | the integer reader, short forms and missing terminators included |
| HproseBuffer.Buffer.RawReadText | ucorf/hprose/hprose_protocol.h:361-407 | the string reader |
| HproseBuffer.Buffer.RawReadList | ucorf/hprose/hprose_protocol.h:467-493 | the list reader, with the exception a negative count raises |
| HproseBuffer.Buffer.ReadElements | ucorf/hprose/hprose_protocol.h:483-485 | the element loop reads what the recursive format says |
| HproseBuffer.Buffer.Write | ucorf/hprose/hprose_protocol.h:512-648 | appends exactly the value's format and does not move the cursor |
| HproseBuffer.Buffer.WriteString | ucorf/hprose/hprose_protocol.h:598-611 | the string writer with its count |
| HproseBuffer.Buffer.CountUtf8 | ucorf/hprose/hprose_protocol.h:584-597 | the counting loop computes the recursive count |
| HproseBuffer.Buffer.CountFollow | ucorf/hprose/hprose_protocol.h:590-593 | the inner loop over the leader's bits |
| HproseBuffer.Buffer.PutElements | ucorf/hprose/hprose_protocol.h:645-646 | the element loop appends the elements' formats in order |
| HproseService.ArgsRoundTrip | ucorf/hprose/hprose_service.h:109-121 | the argument reader recovers what the stub wrote |
| HproseService.RequestNameReads | ucorf/hprose/hprose_service.cpp:18-22 | the service decodes the stub's method name if and only if it is below 2^31 bytes and ASCII but for its last byte |
| HproseService.NameIsServed | ucorf/hprose/hprose_service.cpp:18-22 | a request with a name that reads back is handed to that name's callee with exactly the bytes behind the name |
| HproseService.ArgsThrowExactly | ucorf/hprose/hprose_service.h:109-121 | reading arguments throws if and only if this happens in one of them before any fails |
| HproseService.RaisedExactly | ucorf/hprose/hprose_service.cpp:7-30 | the service raises an exception for such calls of functions it finds and for no other bytes |
| HproseService.RaisableExactly | ucorf/hprose/hprose_service.h:109-121 | some bytes make it raise one if and only if some registered function takes a list |
| HproseService.FindCalleeExactly | ucorf/hprose/hprose_service.cpp:47-57 | the function registered under the name, else the one under `*`, else none |
| HproseService.OwnFunctionRuns | ucorf/hprose/hprose_service.cpp:45-69 | a call of a registered name is answered with that function's result on the caller's arguments, `*` or not |
| HproseService.StarFunctionRuns | ucorf/hprose/hprose_service.cpp:51-53 | a call of any other name is answered with the `*` function's result |
| HproseService.ReadableCallsServed | ucorf/hprose/hprose_service.cpp:18-22 | any bytes whose name and arguments read are answered with the function's result on exactly those arguments |
| HproseService.BadRequestsAnswered | ucorf/hprose/hprose_service.cpp:18-29 | unknown tags, unreadable names and unreadable arguments are answered with the errors the program words for them |
| HproseService.WireForms | ucorf/hprose/hprose_service.h:161-165 | a call, a result and an error spelled out byte for byte |
| HproseService.MarshalledCall | ucorf/hprose/hprose_service.h:158-179 | the service answers the stub's bytes with the result, on the caller's arguments, of the function registered under the name or else under `*`, and the stub decodes it |
| HproseService.DecodeResult | ucorf/hprose/hprose_service.h:172-179 | the stub reads a result reply back as the value |
| HproseService.DecodeExactly | ucorf/hprose/hprose_service.h:172-192 | what the stub makes of any reply: a value, a default, a logic error or a call error, by its first byte |
| HproseService.UnknownMethod | ucorf/hprose/hprose_service.cpp:59-66 | a name that is not registered, with no `*` registered, becomes a logic error whose text names it |
| HproseService.FunctionListReads | ucorf/hprose/hprose_service.cpp:32-43 | any request beginning with `z` is answered with a list that reads back as all registered names, each once, in order |
| HproseService.SortedAscends | ucorf/hprose/hprose_service.cpp:38-39 | the list is in ascending order |
| HproseService.BeforeExactly | ucorf/hprose/hprose_service.cpp:38-39 | that order: a proper front first, else the first byte that differs decides |
| HproseService.Service.RegisterFunction | ucorf/hprose/hprose_service.h:130-137 | the first registration of a name wins |
| HproseService.Service.Names | ucorf/hprose/hprose_service.cpp:36-39 | the loop over the map collects the names in order |
| HproseService.Service.GetFunctionList | ucorf/hprose/hprose_service.cpp:32-43 | the loop writes the sorted names as a list |
| HproseService.Service.CallMethod | ucorf/hprose/hprose_service.cpp:7-30 | the three request tags, malformed names and unknown tags |
| HproseService.Service.Call | ucorf/hprose/hprose_service.cpp:45-69 | the name's callee, else the `*` callee, else an error |
| HproseService.Service.RunCallee | ucorf/hprose/hprose_service.h:109-121 | the function is run on the arguments read, or the argument error is returned |
| HproseService.EncodeCall | ucorf/hprose/hprose_service.h:161-165 | the stub's request bytes |
| HproseService.RecursiveWrite | ucorf/hprose/hprose_service.h:202-213 | the arguments' formats in order |
| HproseService.DecodeCall | ucorf/hprose/hprose_service.h:172-192 | value, default, logic error or call error, by tag |
| HproseCalls.AnswerIsResult | ucorf/hprose/hprose_service.cpp:7-30 | the body of the reply to a stub's request is the function's marshalled result |
| HproseCalls.ServedUnlessNegativeCount | ucorf/hprose/hprose_protocol.h:480-482 | an Hprose request stops the receive loop if and only if decoding the arguments of the function it calls reaches a list with a negative count |
| HproseCalls.StoppableExactly | ucorf/hprose/hprose_service.h:109-121 | some request can stop a server if and only if one of its functions takes a list |
| HproseCalls.StubRequestIsServed | ucorf/hprose/hprose_service.h:161-165 | a request made by a stub never stops it |
| HproseCalls.HproseCallReturns | ucorf/hprose/hprose_service.h:158-179 | over every interleaving, any connections and any cutting: a stub's call that returns success holds the bytes that decode to what the function registered under its name, or else under `*`, returned for its arguments |
| NodeName.ParseMatchesExactly | ucorf/zookeeper.cpp:339-348 | the pattern matches in at most one way and the parse finds it |
| NodeName.UrlRoundTrip | ucorf/zookeeper.cpp:337-359 | every `proto://addr` with non-empty colon-free protocol and non-empty slash-free address survives |
| NodeName.UrlRoundTripExactly | ucorf/zookeeper.cpp:337-359 | with a slash-free protocol, if and only if the protocol is non-empty and colon-free |
| NodeName.ColonWithSlashes | ucorf/zookeeper.cpp:337-359 | a protocol with slashes and a colon that nevertheless survives, so the condition needs a slash-free protocol |
| NodeName.PlainAddress | ucorf/zookeeper.cpp:346-347 | an address without a scheme is registered under `TCP` and comes back with it |
| NodeName.EmptyProtocol | ucorf/zookeeper.cpp:346-347 | and so does one with an empty scheme |
| NodeName.NodeRoundTripExactly | ucorf/zookeeper.cpp:337-359 | the converse on nodes with slash-free address: if and only if both parts are non-empty |
| NodeName.SameUrlExactly | ucorf/zookeeper.cpp:351-359 | two nodes share a URL if and only if they are equal or neither has a colon |
| NodeName.EmptyUrlExactly | ucorf/zookeeper.cpp:353-354 | a node has the empty URL if and only if it has no colon |
| NodeName.UrlsDistinctExactly | ucorf/server_finder.cpp:95-98 | distinct names give distinct URLs if and only if at most one has no colon |
| NodeName.RegisteredNodes | ucorf/zookeeper.cpp:337-350 | what a server registers contains a colon, or is empty for a URL that does not match |
| Finder.SwapParity | ucorf/server_finder.cpp:99-100 | after any list a known URL's transport has moved to the new group if listed an odd number of times, else it is back in the old one |
| Finder.NewUrls | ucorf/server_finder.cpp:101-111 | a new URL gets a transport created in this update |
| Finder.KeysFollowList | ucorf/server_finder.cpp:94-114 | after any update the keys are the listed URLs |
| Finder.KeptExactly | ucorf/server_finder.cpp:99-100 | a listed URL keeps its transport if and only if it is listed an odd number of times |
| Finder.VisitsConserve | ucorf/server_finder.cpp:95-112 | the loop loses no transport except a new one overwritten by a repetition |
| Finder.UpdateConservesExactly | ucorf/server_finder.cpp:94-122 | every transport stays held once or shut down once if and only if no new URL is listed twice |
| Finder.UpdateKeepsGood | ucorf/server_finder.cpp:94-122 | an update with distinct URLs keeps: all entries non-null, transports distinct, all transports accounted for |
| Finder.Reconciliation | ucorf/server_finder.cpp:94-122 | over any sequence of distinct lists: keys of the last list, distinct transports, each ever created held once or shut down exactly once |
| Finder.Continuity | ucorf/server_finder.cpp:99-100 | a URL in two consecutive lists keeps its transport, which is not shut down |
| Finder.ListedTwice | ucorf/server_finder.cpp:99-122 | a known URL listed twice ends with an empty entry and its transport shut down |
| Finder.ReconcileNodes | ucorf/server_finder.cpp:95-98 | distinct child names, at most one without a colon, meet what reconciliation needs |
| Finder.ServerFinder.OnZookeeperChilds | ucorf/server_finder.cpp:87-123 | with the destroy lock and a live token the loops compute the update of the child list, otherwise nothing changes |
| Finder.ServerFinder.ShutDown | ucorf/server_finder.cpp:116-122 | every transport left over is shut down once, empty entries are skipped |
| Dispatcher.RobinDispatcher.Add | ucorf/dispatcher.cpp:7-11 | appended to the list, index untouched |
| Dispatcher.RobinDispatcher.Del | ucorf/dispatcher.cpp:12-18 | the first occurrence is erased, exactly one, the rest keep their order |
| Dispatcher.RobinDispatcher.Get | ucorf/dispatcher.cpp:20-30 | none on an empty list; else the index advances in `size_t` arithmetic, is in range, and selects the result |
| Dispatcher.TurnExactly | ucorf/dispatcher.cpp:27-28 | the next index is one more, modulo 2^64 and then modulo the length, also from an index behind the end of a shortened list |
| Dispatcher.RoundIsRotation | ucorf/dispatcher.cpp:27-29 | from any index, n Gets visit the positions as a rotation of the list |
| Dispatcher.Fairness | ucorf/dispatcher.cpp:20-30 | from any index, any k consecutive Gets use each of n positions between floor(k/n) and ceil(k/n) times |
| Dispatcher.FullRounds | ucorf/dispatcher.cpp:20-30 | q·n consecutive Gets use each position exactly q times |
| Dispatcher.PickedAt | ucorf/dispatcher.cpp:29 | the transports returned are those at the positions used |
| Dispatcher.GetInARow | ucorf/dispatcher.cpp:20-30 | k calls on the object return the specified transports and leave the specified index |
| Dispatcher.HashDispatcher.Add | ucorf/dispatcher.cpp:33-41 | inserts under the transport's key with the virtual count in force, 64 when unset |
| Dispatcher.HashDispatcher.Del | ucorf/dispatcher.cpp:42-47 | erases the transport's key |
| Dispatcher.HashDispatcher.Get | ucorf/dispatcher.cpp:48-59 | looks up the request's hash, else the hash of a running number |
| Dispatcher.LookupsYieldMembers | ucorf/dispatcher.cpp:33-59 | after any adds and removals, keys shared or not, a lookup yields a transport added and not removed since, or none |
| Dispatcher.ChangesHistoryIndependent | ucorf/dispatcher.cpp:33-47 | without collisions among the texts hashed the ring depends only on the live keys and what they were added with |
| Dispatcher.AddedAlone | ucorf/dispatcher.cpp:33-41 | a transport alone on the ring then owns exactly the points asked for |
| Dispatcher.SharedKey | ucorf/dispatcher.cpp:33-47 | two transports with one key: removing the second takes the first, which won its points, out of the ring |
| Dispatcher.WinnersStay | ucorf/dispatcher.cpp:33-47 | with distinct keys a transport is in the ring under its own value if and only if its insert won a point and it was not removed since |
| Dispatcher.WinnersStayExactly | ucorf/dispatcher.cpp:33-47 | no history of adds and removals over some transports leaves a winner outside the ring if and only if their keys are distinct |

## Left out

- Sockets, `libgo`, `libgonet`, real time and `NetTransport`: the transport is an environment that presents bytes with the unconsumed tail in front, fires callbacks and reports send results; a timeout is a step that may happen whenever `rcv_timeout_ms` is set.
- A send callback is taken to fire at most once per `Send`.
- Heap identity of `RspChanGroup` and channel objects: groups are values under numbers that `OnConnected` never reuses, channels are a slot of the call; aliasing through stale pointers is not part of the model.
- `co_yield` inside the receive loops: the objects run a buffer without interruption; interleavings at those points are covered by the state machine, whose `Arrive`, `Match` and `Push` steps interleave freely.
- The reconnect loop over finders in `Call` is one step with an arbitrary result.
- Wrap-around of `msg_id_` at 2^64 and of `wnd_size_`.
- Client.ClientImpl.TakeId: counts in unbounded integers, so it does not model the wrap-around of the 64-bit counter.
- One-way calls have steps in the state machine but no method on the `Client` object.
- Services are functions of method name and body; a service with state of its own is not modelled, nor is an Hprose function that throws by itself. What the caller of the receive loop does with an escaping exception is foreign code: the session is taken to end there.
- Client.ClientImpl.Issue: starts after a transport was picked; window test, dispatch and reconnect are steps of the state machine only.
- HproseService.Service.RunCallee: takes argument lists of any length where the source has callees of zero to three arguments.
- The locks around registration and lookup of Hprose functions; `RegisterFunction`, whose template as written accepts only functions of one argument, is modelled for any callee.
- The network half of `Hprose_ServiceStub::CallMethod` when `Call` fails, and `CallMethodNE`, which passes its error code where an argument is expected.
- Hprose doubles, dates, UUIDs, maps, null and unsigned integers: their writers are missing or not inverted by their readers.
- Memory exhaustion on a large list count; only the exception for a negative one is modelled.
- `std::hash`: an uninterpreted function into 64-bit values.
- Concurrent `Get`s on `robin_idx_`, which is updated under a shared lock: dispatch is modelled one call at a time.
- Finder.ServerFinder.OnZookeeperChilds: takes the outcome of `try_lock` and the token as parameters; callbacks set on a new transport and its first connection attempt are not modelled.
- ZooKeeper sessions, watches and ephemeral nodes, `ParseZookeeperUrl`, `RecursiveConnect` and its retries, `Init` and the single-connection mode.
- Logging, error tables, protobuf wrappers, code generation, samples and benchmarks.
