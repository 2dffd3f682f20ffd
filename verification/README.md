# rtc-bridge: a verified model

rtc-bridge lets a browser reach TCP services through WebRTC. Nodes register with a coordinator
over WebSocket; a browser posts an SDP offer to the coordinator, which forwards it to a node and
returns the node's answer; each data channel then runs a command loop (ping, list, identity
challenge, connect) before it becomes a byte pipe. This project models the parts of that system
with hard behaviour and proves properties of them for all inputs and all runs.

`dafny verify dfyconfig.toml` checks everything.

## How it is organised

| file | subject |
|---|---|
| Offers, OfferInvariants, OfferTheorems, RegistryTheorems | the coordinator as a concurrent state machine: every locked region and channel operation is one `Action`; what every interleaving keeps |
| Locks, Deadlocks | the same machine with its mutexes and with writes that may block: what can stop it for good, and when it cannot |
| Coordinator | the coordinator's objects (`Coordinator`, `Node`, `PendingOffer`); every method takes one step of that machine (the prune loop one for each entry it drops), on real maps and buffers |
| ServiceIndex, Sorting | `GET /services` |
| Liveness | the same machine with a clock and 30-second prune ticks, and with a node whose pings are under way for a while |
| Backoff | the reconnect delays |
| Ewma | the SDP exchange rate |
| Bytes, Hex, Strings, Numerals, NodeIds | bytes, exclusive or, hexadecimal text, base-36 ids in three implementations |
| Crypto, Registration | abstract SHA-256 and Ed25519; the registration handshake |
| CommandLoop, CommandHistory | the node's side of a data channel |
| ClientChannel | the client's side, and both sides together |
| Bridge, ModeSwitch | the byte pipe, and the switch from commands to bytes |
| Options, Naturals, Reals | the optional value; facts of arithmetic |

Assumptions, each visible as a hypothesis or as an `Enabled` condition: request ids are fresh
(section 5.4 of RFC 9562); SHA-256 and Ed25519 are functions with fixed output lengths and a
signature verifies under its own key (`Cryptography.Sound`); the exponential satisfies
`exp(0) = 1`, `exp(a + b) = exp(a) exp(b)` and `exp(x) >= 1 + x` (`Ewma.IsExp`, which the real
exponential does); UTF-8 leaves ASCII text alone, before other text too (`ClientChannel.IsUtf8`); a JSON array starts
with a bracket (`CommandLoop.IsNode`), and JSON.parse gives back the names that were encoded
(`ClientChannel.ParsesLists`).

Where the code and its comments disagree, the code is modelled:

- `node/coord_client.go:26` calls 60 seconds an asymptotic cap of the delay. That holds without
  jitter (`Backoff.ConvergesToCap`). With jitter the least upper bound is 80 seconds:
  `Backoff.DelayInInterval` and `Backoff.EightyIsTight`.
- `node/coord_client.go:36` gives the jitter as [0.8, 1.2]; the upper end is never reached.

Five statements that one might expect are false of the code, and are replaced by the exact
condition:

- An offer handler does not always return. It writes to its node while it holds the session's mutex,
  and no write has a deadline; if the node stops reading, a tick of the prune loop, a ping or an
  answer during that write leaves nobody to close the connection (`Deadlocks.StuckSchedule`,
  `TickJams`, `ArrivalKills`). All handlers can return exactly if there is no such write
  (`EveryoneCanReturn`), so they can if every write that is begun ends (`EndingWritesSuffice`).
- A live session need not be in the registry, because removal is by id
  (`RegistryTheorems.LiveSessionWithoutEntry`). It is exactly if nothing happened under its id
  since it registered (`SessionHasEntry`).
- The demo page's id is not always the node's id. It is exactly if the digest is at least 36^49
  (`NodeIds.DemoAgrees`, `NodeIds.DemoDiffers`).
- A node does not survive every challenge: `connectCoordinator` does not check the challenge's
  length. It panics exactly if there are fewer than 32 bytes (`Registration.Register`).
- The client's `fromHex` and Go's decoder differ (`Hex.LenientExample`). They agree exactly on
  hexadecimal digits and on odd lengths (`Hex.DecodersAgree`).

## Model

| member | source | states |
|---|---|---|
| OfferTheorems.SendNeverBlocks | coordinator/main.go:250-263 | in every interleaving, when a read loop is about to send an answer the one-slot channel is empty and nothing was ever sent on it, so the send cannot block, even if the handler timed out since the waiter was removed from `pending` |
| OfferTheorems.AtMostOneSend | coordinator/main.go:389-424 | at most one answer is ever sent on a waiter's channel, and its buffer never holds more than was sent |
| OfferTheorems.AnswersNeverCross | coordinator/main.go:380-418 | the answer a handler takes carries its own request id and came through the session its offer was written to; an honest peer computed it for this very offer |
| OfferTheorems.AnswerArrives | node/coord_client.go:160-182 | an answer that an honest node gives to a waiting handler, with no other on the way, is returned by this handler |
| OfferTheorems.OffersNeverCross | coordinator/main.go:395-404 | every offer written to a session's connection is that of a handler which found this session, under the handler's own id |
| OfferTheorems.OffersWrittenOnce | coordinator/main.go:388-404 | no request id is written twice, on one connection or on two |
| OfferTheorems.WaitsAfterWriting | coordinator/main.go:401-415 | a handler that waits, or waited, for an answer had its offer written to its session's connection |
| OfferTheorems.LookupFindsLiveSession | coordinator/main.go:380-389 | the lookup of an offer finds a session with the requested id that has not unregistered and whose connection is not closed |
| OfferTheorems.LookupsCounted | coordinator/main.go:380-386 | every offer that is looked up is counted once, as found or as not found |
| OfferTheorems.SessionIsFixed | coordinator/main.go:380-424 | whatever happens to the registry meanwhile, a handler keeps the session its lookup found and the offer it was given |
| OfferTheorems.ExactlyOnePlace | coordinator/main.go:391-424 | between insertion and return a waiter is in exactly one of: its session's `pending`, the reader's hand, its channel; before and after taking the answer in none |
| OfferTheorems.NoPendingLeak | coordinator/main.go:405-424 | once a handler has returned by answer, write error or timeout, its id is in no session's `pending` |
| OfferTheorems.Conservation | coordinator/main.go:380-424 | offers that found a node = answered + timed out + failed to forward + in flight, and the `sdp.record` calls equal the answered handlers |
| OfferTheorems.AnswerIsDropped | coordinator/main.go:255-263 | an answer changes nothing but the wire it came from exactly if its id is not in its session's `pending` |
| OfferTheorems.StrayAnswerIsDropped | coordinator/main.go:255-263 | that is exactly unless a handler of this very session is between insertion and return and got no answer yet; unknown, repeated and expired ids and those of other sessions are dropped |
| OfferTheorems.OwnStepsBounded | coordinator/main.go:388-424 | in every run, whatever is scheduled in between, a handler's own steps plus those it has left are at most those it had left, at most four after its lookup |
| Locks.SchedulesAreRuns | coordinator/main.go:236-424 | with mutexes and writes that take their time, what happens is still a run of the machine without them, so everything above holds |
| Locks.LockInvAlways | coordinator/main.go:287-404 | in every schedule a writing handler has its waiter inserted, a goroutine at its session's mutex is reading, and a sweep has only registered sessions to visit |
| Deadlocks.NoMutexCycle | coordinator/main.go:229-422 | in no reachable state do goroutines wait in a cycle, each for a mutex of the next |
| Deadlocks.StuckSchedule | coordinator/main.go:287-404 | a schedule after which one handler writes to a peer that does not read, a second handler of the session waits for its mutex, and a tick holds the registry's mutex |
| Deadlocks.TickJams | coordinator/main.go:287-300 | a tick that falls into a blocked write of a registered session leaves nobody to close its connection |
| Deadlocks.ArrivalKills | coordinator/main.go:228-260 | so does a ping or an answer that arrives during a blocked write |
| Deadlocks.DeadForever | coordinator/main.go:388-404 | from then on, whatever happens short of the peer reading again, the write goes on and no other handler of the session gets past the mutex |
| Deadlocks.JammedForever | coordinator/main.go:274-303 | and while the tick waits no lookup, registration, unregistration or other tick is completed |
| Deadlocks.EveryoneCanReturn | coordinator/main.go:388-424 | in a reachable state every handler can return by the coordinator's own steps exactly if no blocked write has lost all who could close its connection |
| Deadlocks.EndingWritesSuffice | coordinator/main.go:388-424 | so every handler can return if every write that is begun ends |
| OfferInvariants.SendFindsRoom | coordinator/main.go:261-263 | ownership of waiters implies an empty channel before the send |
| OfferInvariants.OwnershipKept | coordinator/main.go:236-303 | every locked region and channel operation keeps ownership of waiters and genuineness of answers |
| OfferInvariants.HistoryKept | coordinator/main.go:274-303 | every step keeps the registry in agreement with its history |
| OfferInvariants.CountsKept | coordinator/main.go:380-424 | every step keeps the outcome counters equal to the numbers of handlers with that outcome |
| OfferInvariants.InvAlways | coordinator/main.go:143-153 | all of these hold after any run |
| RegistryTheorems.EntryIsLastWord | coordinator/main.go:274-303 | `nodes[id]` is a session exactly if registering it was the last event under this id: no later registration, unregistration or pruning |
| RegistryTheorems.EntriesAreLive | coordinator/main.go:221-222 | every registry entry belongs to a session with that id that has not unregistered and whose connection the coordinator has not closed |
| RegistryTheorems.LiveSessionWithoutEntry | coordinator/main.go:280-285 | a run after which a live session has no entry, because an older session of the same id disconnected |
| RegistryTheorems.SessionHasEntry | coordinator/main.go:274-303 | a registered session has its entry exactly if nothing happened under its id since |
| RegistryTheorems.EntriesAreTheLiveSessions | coordinator/main.go:274-303 | if sessions of one id do not overlap and no tick removes anything, the entries are exactly the sessions that have not unregistered |
| CoordinatorServer.Coordinator.RegisterNode | coordinator/main.go:274-278 | inserting the session object is one step of the machine, and replaces any other entry of the id |
| CoordinatorServer.Coordinator.UnregisterNode | coordinator/main.go:280-285 | the deferred removal, by id, is one step of the machine |
| CoordinatorServer.Coordinator.CloseConnection | coordinator/main.go:164 | the deferred close, after the removal, is one step of the machine |
| CoordinatorServer.Coordinator.HandlePing | coordinator/main.go:228-234 | the ping handler updates `lastSeen` of this session and is one step of the machine |
| CoordinatorServer.Coordinator.TakeWaiter | coordinator/main.go:255-260 | the read loop's locked region returns the waiter inserted under this id, or none, and removes it from this session's map |
| CoordinatorServer.Coordinator.SendAnswer | coordinator/main.go:261-263 | the buffer is empty before the send and holds this answer after it; the object states it reaches are those of the machine |
| CoordinatorServer.Coordinator.Evict | coordinator/main.go:295-298 | dropping an entry and closing its connection is one step of the machine |
| CoordinatorServer.Coordinator.Visit | coordinator/main.go:291-299 | one round of the sweep drops the entry exactly if it was seen before the cutoff |
| CoordinatorServer.Coordinator.Sweep | coordinator/main.go:291-300 | in whatever order, a sweep that nothing interrupts drops exactly the stale entries of the model |
| CoordinatorServer.Coordinator.Prune | coordinator/main.go:287-303 | it deletes exactly the entries seen before the cutoff and closes exactly their connections |
| CoordinatorServer.Coordinator.LookupNode | coordinator/main.go:380-386 | the lookup returns the registered object or none, and is one step of the machine |
| CoordinatorServer.Coordinator.InsertWaiter | coordinator/main.go:388-393 | a fresh waiter is inserted under the request id into the map of the session found, one step of the machine |
| CoordinatorServer.Coordinator.DropWaiter | coordinator/main.go:405-411 | deleting the waiter after a failed write (or a timeout, lines 420-422) is one step of the machine |
| CoordinatorServer.Coordinator.ReceiveAnswer | coordinator/main.go:414-416 | the select's first branch takes the one answer, which carries the handler's own id, and empties the channel |
| CoordinatorServer.Coordinator.RecordExchange | coordinator/main.go:416 | the answer branch adds one event to the tracker's history, as the machine counts it |
| CoordinatorServer.Coordinator.ExchangesPerHour | coordinator/landing.go:38-47 | in every reachable state the rate weighs exactly one exchange for each handler that took the answer branch |
| CoordinatorServer.Coordinator.Services | coordinator/main.go:334-353 | the index of the registered objects' services, with lists in byte order |
| ServiceIndex.HandleServices | coordinator/main.go:334-353 | for any iteration order there is a key exactly for each offered service; each list has each node id as often as that node lists the service, in ascending byte order: of two neighbours the earlier is a prefix of the later or has the smaller byte at the first difference |
| ServiceIndex.IndexUnique | coordinator/main.go:339-349 | that promise determines the response |
| ServiceIndex.AddNode | coordinator/main.go:342-344 | one node's services are appended under their names, duplicates included |
| ServiceIndex.SortLists | coordinator/main.go:347-349 | the final loop sorts each list and keeps its elements |
| Sorting.SortedUnique | coordinator/main.go:348 | a sorted list is determined by its elements, so the library's sort is too |
| Sorting.LeqIsByteOrder | coordinator/main.go:348 | the order is byte order: a prefix comes first, and otherwise the smaller character at the first difference |
| Sorting.SortedKeys | node/main.go:173-177 | names collected from a map in any order and sorted are the sorted names, each once, in ascending byte order |
| Liveness.EntriesAreRecent | coordinator/main.go:287-303 | in every interleaving of the coordinator's steps with 30-second ticks, no registered session was last seen more than 210 seconds ago |
| Liveness.AgeReaches210 | coordinator/main.go:287-303 | 210 seconds is attained |
| Liveness.NeverDropped | node/coord_client.go:118-125 | whatever else the coordinator does, a session of a node running connectCoordinator whose messages take at most 120 seconds is never stale at a tick, its connection is not closed and its read deadline does not pass |
| Liveness.DeliveryExtends | coordinator/main.go:228-242 | every message extends the read deadline to 180 seconds from its arrival; pings and the registration, but not answers, count as having been seen |
| Liveness.LongerDelayCanPrune | coordinator/main.go:289-299 | for every longer delay some run of the coordinator drops such a session |
| Backoff.DelayInInterval | node/coord_client.go:34-65 | whatever the jitter and the resets, the delay lies in [1, 80) |
| Backoff.StaysHigh | node/coord_client.go:34-65 | once 30 or more, the delay stays so until a reset |
| Backoff.ConvergesTo30 | node/coord_client.go:34-65 | after k rounds without a reset, 30 - delay <= 29 (149/150)^k |
| Backoff.RisesBelow30 | node/coord_client.go:34-38 | below 30 every step strictly increases the delay |
| Backoff.RisesTowardCap | node/coord_client.go:21-38 | without jitter a delay below the cap rises and stays below it |
| Backoff.ConvergesToCap | node/coord_client.go:21-38 | without jitter, 60 - delay shrinks at least as (119/120)^k |
| Backoff.EightyIsTight | node/coord_client.go:32-38 | for every bound below 80, so also for 60, some run exceeds it |
| Backoff.RunCoordinator | node/coord_client.go:42-66 | the first wait and every wait after a connection of 30 seconds or more are exactly one second, the wait after that lies between 1.193 and 1.79 seconds, other waits are those of the recurrence truncated to nanoseconds; n completed waits take at least n seconds |
| Backoff.DelayRecurrence | node/coord_client.go:34-57 | each delay comes from the one before, which is forgotten after 30 seconds of connection |
| Backoff.GapsFactor | node/coord_client.go:34-35 | without jitter the distance to 60 is (60 - x)(1 - x/120); with the most of it the distance to 80 is (80 - x)(1 - x/100) |
| Backoff.JitterAround1 | node/coord_client.go:36 | the jitter lies within a fifth of 1 and is spread evenly around it |
| Ewma.SdpTracker.Record | coordinator/landing.go:26-36 | recording keeps the accumulator equal to the weight of the whole history, also if the time lies before the last one |
| Ewma.SdpTracker.PerHour | coordinator/landing.go:38-47 | the rate is 3600/tau times the sum of exp(-age/tau) over all recorded exchanges |
| Ewma.WeightUnordered | coordinator/landing.go:26-36 | that sum does not depend on the order in which the calls took the lock |
| Ewma.WeightShifts | coordinator/landing.go:31-32 | decaying the accumulator moves its reference time, forwards or backwards |
| Ewma.WeightOfOne | coordinator/landing.go:15-33 | one exchange decays as exp(-age/21600) |
| Ewma.WeightAdds | coordinator/landing.go:26-36 | the weights of several exchanges add up |
| Ewma.RateOfOne | coordinator/landing.go:38-47 | right after the first exchange the rate is 1/6 per hour |
| Ewma.RateBound | coordinator/landing.go:15-47 | for exchanges in time order at least d apart, the rate at or after the last is at most 3600/d + 1/6 |
| Ewma.RateDecays | coordinator/landing.go:38-47 | between records the rate does not increase |
| Bytes.XorBytes | node/main.go:264-270 | in every byte of the result each bit is set exactly if one and only one of the two inputs' bits is |
| Bytes.Xor32 | protocol/protocol.go:96-103 | the same for the first 32 bytes of the inputs |
| Bytes.XorIsExclusiveOr | client/src/index.ts:18-22 | the operation on one byte is exclusive or of the bits |
| Bytes.XorAllCancels | protocol/protocol.go:45 | for one contribution fixed, the joint value determines the other |
| Bytes.XorExchange | client/src/index.ts:168-172 | two joint values are equal exactly if the contributions of the two sides differ alike |
| Hex.DecodeEncode | node/main.go:194 | decoding what Go encodes gives the bytes back |
| Hex.DecodesExactly | node/main.go:183 | Go's decoder accepts exactly the even-length strings of digits, and what it yields |
| Hex.HexDigits | node/main.go:183 | the sixteen digits and their values, in lower and upper case |
| Hex.ToHexIsEncode | client/src/index.ts:5-7 | the client's toHex writes the text that Go's encoder writes |
| Hex.FromHex | client/src/index.ts:9-16 | the loop reads each pair as parseInt and Uint8Array do; on digits it decodes as Go does |
| Hex.PairReads | client/src/index.ts:13 | what any two characters are read as: two digits, one digit before anything or after white space or a sign, and otherwise 0 |
| Hex.DecodersAgree | client/src/index.ts:9-16 | both decoders agree exactly on digits and on odd lengths |
| Hex.LenientExample | client/src/index.ts:13 | a string that only the client decodes |
| Hex.FromHexToHex | client/src/index.ts:5-16 | the client's round trip |
| NodeIds.IdMeaning | protocol/protocol.go:76-84 | the id is the whole numeral of the digest, or the numeral of the digest divided by the power of 36 that leaves 30 digits; no leading zero unless the digest is zero |
| NodeIds.SameId | protocol/protocol.go:76-84 | two digests share an id exactly if they agree after that division, each by its own power |
| NodeIds.IdOfKey | protocol/protocol.go:76-84 | the id of a key is the numeral of the hash of its bytes, cut to 30 digits |
| NodeIds.BigEndianFirst | protocol/protocol.go:78 | the first byte of a digest weighs most |
| NodeIds.PubkeyToNodeId | client/src/index.ts:28-33 | the shift-or fold computes Go's id for every key |
| NodeIds.ShiftOr | client/src/index.ts:31 | into the bits a shift leaves free, or is addition |
| NodeIds.DemoPubkeyToNodeId | demo.html:400-408 | the division loop and padding compute the padded numeral of the digest |
| NodeIds.HexToBytes | demo.html:379-384 | the demo's loop reads each pair as parseInt and Uint8Array do |
| NodeIds.HexNumberOfText | demo.html:404 | the hexadecimal text of bytes reads as their big-endian number |
| NodeIds.DemoAgrees | demo.html:400-408 | for 32-byte digests the demo's id is Go's exactly if the digest is at least 36^49 |
| NodeIds.DemoDiffers | demo.html:405-407 | a digest of 32 bytes whose ids have 1 and 30 characters |
| Strings.TrimsLineBreaks | node/main.go:166 | what is cut from a message are the line breaks at its end, all of them and nothing else |
| Strings.TrimsSpace | client/src/index.ts:154 | trimming removes all white space around a text and nothing else |
| Strings.SplitsAtBlanks | client/src/index.ts:154 | the parts joined with blanks are the text, and no part has a blank |
| Strings.PadIsZeros | demo.html:407 | padding puts zeros, and only zeros, before the text |
| Numerals.ValueOfNumeral | protocol/protocol.go:79 | a base-36 numeral stands for its number |
| Numerals.DigitAlphabet | protocol/protocol.go:79 | the digits are 0 to 9 and a to z |
| Numerals.NumeralLength | protocol/protocol.go:79-82 | the number of digits is the least L with n < 36^L |
| Numerals.NumeralPrefix | protocol/protocol.go:80-82 | cutting a numeral to k digits divides its number by 36^(L-k) |
| Registration.BuildPayload | protocol/protocol.go:88-94 | copying prefix and joint value into one buffer gives their concatenation |
| CommandLoop.DomainsAreSeparate | node/main.go:130 | no registration payload equals a data-channel challenge payload |
| Registration.PayloadBindsOpening | protocol/protocol.go:105-109 | for a given challenge the signed payload determines the node's number |
| Registration.SignRegistration | protocol/protocol.go:105-109 | the proof signs the prefix and the exclusive or of both numbers; it panics exactly if one has fewer than 32 bytes |
| Registration.Register | node/coord_client.go:101-109 | the register message that follows a challenge; the node panics exactly if the challenge has fewer than 32 bytes |
| Registration.VerifyRegistration | protocol/protocol.go:122-143 | the comparison loop and checks accept exactly the openings of the commitment whose proof verifies |
| Registration.Admit | coordinator/main.go:168-212 | accepted exactly are a hello with a 32-byte key whose id is derived from this key, followed by a register message with 32-byte number and key whose number opens the commitment and whose proof verifies on the prefix and the exclusive or; each rejection has its reason |
| Registration.OneOpening | protocol/protocol.go:112-143 | openings accepted after the same hello have the same hash, and a hello under any other id is rejected |
| Registration.HonestNodeIsAdmitted | node/coord_client.go:75-113 | a node running connectCoordinator is always admitted, under the id derived from its key |
| CommandLoop.Handle | node/main.go:166-244 | one iteration of the loop computes the specified state and reply; list is answered with the services' names in ascending byte order, each once, and changes nothing |
| CommandLoop.OtherReplies | node/main.go:169-170 | ping is answered with pong, and an unknown command with an error; both leave the loop as it was |
| CommandLoop.ChallengeReplies | node/main.go:181-194 | a challenge replaces any other if it is 32 bytes in hexadecimal, and is an error that changes nothing otherwise |
| CommandLoop.OpeningReplies | node/main.go:196-219 | the reply and the new state for each case of an opening |
| CommandLoop.ConnectReplies | node/main.go:221-239 | a connect always ends the loop, in the bridge exactly if the service is known and can be dialled |
| CommandLoop.LineBreaksIgnored | node/main.go:166 | line breaks after a command do not matter |
| CommandLoop.Serve | node/main.go:155-245 | the loop replies to each message in order until it returns or becomes a bridge, and leaves the other messages in the queue |
| CommandLoop.StepConsistent | node/main.go:158-219 | both loop variables are unset, or both have 32 bytes, so the exclusive or is in range |
| CommandHistory.RemembersLatest | node/main.go:181-219 | after any messages the loop variables are those of the challenge in progress |
| CommandHistory.ProofsAnswerChallenges | node/main.go:196-219 | a message is answered with a proof exactly if it opens the challenge in progress; the proof signs its opening xor the number that challenge was answered with |
| CommandHistory.ProofsInOrder | node/main.go:181-219 | proofs map one to one and in order to the challenges they answer |
| CommandHistory.OpeningsConsume | node/main.go:201-219 | a malformed opening keeps the challenge; a mismatch or a success consumes it |
| ClientChannel.VerifiedMeansSigned | client/src/index.ts:150-195 | whatever the peer replies, the client is satisfied exactly if the expected id is that of the key in the second reply and the signature in it is one, by that key, of this client's number xor the number in the first reply |
| ClientChannel.ProofBindsChallenge | client/src/index.ts:137-188 | if one proof satisfies two clients its signature verifies on both their messages, which are the same only if the peer's numbers differ exactly as the clients' do; with one number for both, one signature verifies on two messages |
| ClientChannel.RoundTrip | client/src/index.ts:127-196 | for every key and both random numbers an honest client verifies an honest node in any loop state, under Go's id of the key and under no other |
| ClientChannel.ReadsProof | client/src/index.ts:150-166 | trimming, splitting and decoding a proof gives back the key and the signature |
| ClientChannel.ReadsChallenge | client/src/index.ts:137-148 | the client reads back the node's random number |
| ClientChannel.ReadsPaddedChallenge | client/src/index.ts:140 | white space around the number does not matter |
| ClientChannel.ReadsPaddedProof | client/src/index.ts:154 | and neither does white space after a proof |
| ClientChannel.AcceptedForms | client/src/index.ts:137-166 | which replies are read, what is read from them, and the reason where one is not |
| ClientChannel.FailureReasons | client/src/index.ts:174-193 | which reason is given for a well-formed proof that is not accepted |
| ClientChannel.RepliesWithOk | node/main.go:221-239 | only a successful connect is answered with ok |
| ClientChannel.VerifyReplies | client/src/index.ts:127-196 | the steps of verifyIdentity on what any peer replies compute the verdict on its two replies; it fails early on a bad first reply, and a missing reply rejects |
| ClientChannel.JudgeProof | client/src/index.ts:168-195 | the client's last checks, through its own xor32 and pubkeyToNodeId |
| ClientChannel.NodePeer.Receive | node/main.go:161-166 | a message in command mode is answered by one iteration of the loop |
| ClientChannel.Channel.SendCmd | client/src/index.ts:98-113 | a command is rejected in pipe mode and otherwise resolves to the node's reply |
| ClientChannel.Channel.Connect | client/src/index.ts:204-208 | the client enters pipe mode exactly when the node does: if the node has the service under the UTF-8 bytes of its name, final line breaks trimmed, and can dial it |
| ClientChannel.PlainServiceName | node/main.go:166 | for an ASCII name without a final line break that is the name itself |
| ClientChannel.Channel.Ping | client/src/index.ts:115-120 | ping succeeds exactly in command mode and changes nothing |
| ClientChannel.Channel.List | client/src/index.ts:122-125 | in command mode the client gets the node's services in ascending byte order, each once, and nothing changes |
| ClientChannel.Channel.VerifyIdentity | client/src/index.ts:127-196 | run step by step against the node it succeeds exactly if the expected id is Go's id of the node's key, and leaves no challenge behind |
| Bridge.DrainToTcp | node/main.go:282-290 | the writer loop writes a prefix of the queue, all of it without an error, and at least what precedes the failing message |
| Bridge.PumpToChannel | node/main.go:293-311 | the reader loop sends a prefix of what it reads, all of it without an error, including a last chunk that comes with EOF |
| Bridge.ReadBytesUpToEnd | node/main.go:296-310 | what it reads is all data up to and including the read that reports EOF or an error |
| Bridge.InvAlways | node/main.go:272-312 | what both goroutines, the queue and the callbacks keep in every interleaving |
| Bridge.TcpGetsPrefix | node/main.go:281-290 | in every interleaving TCP has got a prefix of the messages, queued ones included, and all of them once the queue was drained without error |
| Bridge.ChannelGetsAll | node/main.go:292-311 | in every interleaving the channel has got a prefix of the bytes read, and all of them unless a send failed |
| Bridge.LastRead | node/main.go:305-310 | in every interleaving, a read that reports EOF or an error is the last |
| Bridge.EndsReading | node/main.go:296-310 | its data is still sent, and then the reader stops; after any other read it reads again |
| Bridge.ReadsUpTo64K | node/main.go:294 | a read takes any amount up to 64 KiB |
| Bridge.WriterStops | node/main.go:282-289 | the writer stops by itself exactly when the queue is closed and drained, and otherwise writes the next message or stops at an error |
| Bridge.QueueIsBounded | node/main.go:143-152 | the queue never holds more than 256 messages |
| Bridge.NothingAfterClose | node/main.go:149-152 | once the data channel is closed no message is queued |
| Bridge.BridgeCanEnd | node/main.go:272-312 | from every state the bridge can end with both goroutines done, the body of cleanup run once and the connection closed |
| Bridge.CleanupOnce | node/main.go:273-279 | the body of cleanup runs at most once, and has run when either goroutine is done |
| ModeSwitch.PipeIntegrity | node/main.go:143-239 | the messages after the successful connect go to TCP in order and byte for byte, whether or not they were queued before the bridge started |
| ModeSwitch.ServeThenDrain | node/main.go:155-290 | the goroutine of one channel writes nothing unless it connects, and then exactly the later messages if no write fails |
| ModeSwitch.ConnectsOnce | node/main.go:221-239 | a loop turns into a bridge at most once |

## Left out

- CoordinatorServer.Coordinator.Prune: the effect of closing a connection on its read loop is only that the loop may end, which it may at any time; messages that arrived before may still be read.
- Ewma.SdpTracker.PerHour: real arithmetic; IEEE-754 rounding is not modelled.
- Backoff.RunCoordinator: real arithmetic except for the truncation to nanoseconds; overflow of time.Duration cannot occur in the proved interval.
- Liveness.EntriesAreRecent: a tick is complete when it begins, so no session's mutex is held by a write across a tick.
- Liveness.NeverDropped: timers fire exactly on time; scheduling delays, and waiting for a mutex, count as message delay, and the session's read loop goes on. At a delay of exactly 120 seconds a ping may arrive at the very deadline, which counts as in time; for shorter delays the deadline is strictly later.
- ClientChannel.Channel.SendCmd: one command is outstanding and no reply comes late, so the listeners that share one message are not modelled; the timeout is the case of no reply.
- CommandLoop.Serve: Go's quoting verb, JSON encoding and the text of dial errors are parameters; a failed random read leaves unspecified bytes, modelled as zeros, and ends the loop.
- Deadlocks.EveryoneCanReturn: the library's own locks, and the writes of pongs (which have a deadline of 5 seconds) and of the closing frame; that a session ends at its read deadline is the step ReaderExit. Which of the goroutines that wait for a free mutex gets it is left open.
- Registration.Admit: the text of the close frames, and the 15-second deadline of the handshake.
- WebRTC, ICE, SDP, WebSocket framing and TCP dialling: ordered queues with nondeterministic success, failure and close.
- Internals of SHA-256, Ed25519, random numbers, UUIDs, base64, JSON and JSON5.
- That the id in a register message is the one derived from its key: the two checks of the handshake are separate, so this is stated only for nodes running connectCoordinator.
- `dial`, `createChannel`, the CLI client, the pages, configuration, CORS, `/nodes`, `/api/stats`, the echo server: plumbing or easy validation.
