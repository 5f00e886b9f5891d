# p2psession in Dafny

A model of the session coordinator and relay, and of the client's data plane, with proofs. Components whose
methods update their fields in place are classes; each method is proved to be a step of a specification on
values, and the properties of whole runs are proved about those steps. `dafny verify dfyconfig.toml` checks
everything.

| file | models |
|---|---|
| `Machine.dfy` | machine integers, byte order, Go string order |
| `Reorder.dfy`, `Stream.dfy` | the receive side of a logical stream across uint16 wrap-around; the stream object and end-to-end delivery |
| `KeyExchange.dfy`, `Restart.dfy` | the lossy pairwise key exchange between N clients; clients that come back with new keys |
| `StreamTable.dfy` | stream IDs, and streams opened over two independent FIFO channels |
| `RateLimit.dfy` | the fixed-window limiter |
| `Frame.dfy` | the data-plane frame codec |
| `Hub.dfy`, `OnlineRoom.dfy` | the online connections of a session: specification, then the code |
| `Delivery.dfy` | what the hub and the relay do to each connection, entry by entry |
| `Relay.dfy`, `WorkerRelay.dfy` | the Go relay; the edge worker's relay and their agreement |
| `Records.dfy`, `Sessions.dfy` | records and helpers; what the store interface promises |
| `MemoryStore.dfy`, `SqliteStore.dfy` | the two stores, each refining the interface |
| `Promises.dfy` | what each store call promises, field by field, and that both stores keep it |
| `StoresAgree.dfy`, `StoresRuns.dfy` | their agreement, and exactly when: on one call, and over whole sequences of calls |
| `Service.dfy` | operations that read, decide and write back; the sweep |
| `Authority.dfy` | who may change what, in every reachable state |
| `Interleaving.dfy`, `Standing.dfy` | what survives concurrent callers; when a rejection, a revocation, the member limit and the sweep's listing do |
| `Capacity.dfy`, `Presence.dfy` | capacity with atomic operations; hub and store together |
| `Bits.dfy`, `Token.dfy`, `WorkerToken.dfy` | bit regrouping; Go's join codes and tokens; the worker's |

Clocks, random strings, message arrivals and losses are parameters of the steps. A time is a natural number
of nanoseconds, 0 standing for the zero time.

Where the code and its comments disagree, the model follows the code:

- The comment on eviction in `deliver` says it keeps a stream from stalling; `Reorder.EvictionStallsForever` shows an eviction stalls the stream for good.
- The worker's comment calls its join code the same as Go's; the alphabets differ, and `WorkerToken.GoCodeIsForeign` and `WorkerToken.WorkerCodeIsForeign` show neither side ever reads the other's code.
- The comment on `DecodeToken` says the two encodings are never confused; `Token.TokenDecodesIff` gives the exact exception.
- The two stores are meant to behave alike; `StoresRuns.RunsAgreeIff` gives the exact condition over every sequence of calls, `StoresAgree.AgreesIff` for one call from stores in step. What a call can put out of step unseen shows in a later one: `StoresAgree.OldCodeAgreesIff`, `StoresRuns.BlankCodeShowsIff`, `StoresAgree.RejoinAgreesIff`.
- A late open is meant never to revive a finished stream; `StreamTable.OpenedOnceAndGone` gives the exact condition: with no data before the close there is nothing to remember the stream by.
- The two flags of the key exchange are meant to make any loss heal; `Restart.RestartedPairIsReadyIff` shows they do not when a peer comes back with a new key after both were spent on the old one.

What does not hold unconditionally is stated as an equivalence, and each failure is exhibited by a run from
the start or by a concrete input:

| fails at | exactly when | exhibited by |
|---|---|---|
| the stores' agreement, on one call or over a run | `StoresAgree.AgreesIff`, `StoresRuns.RunsAgreeIff` | `StoresAgree.TakenIndexSplitsTheStores` |
| their agreement on an old code | `StoresAgree.OldCodeAgreesIff` | `StoresAgree.BlankRotationSplitsTheStores` |
| their agreement after a blank code | `StoresRuns.BlankCodeShowsIff` | `StoresRuns.DashSplitsTheStores` |
| their agreement on a returning node | `StoresAgree.RejoinAgreesIff` | `StoresAgree.SharedNodeSplitsTheStores` |
| the hub's index table | `Hub.AttachKeepsInverse` | `Hub.ReusedIndexIsUnreachable` |
| a pair's readiness after a restart | `Restart.RestartedPairIsReadyIff` | `Restart.RestartStrandsThePair` |
| disjoint stream IDs | `StreamTable.AllocKeepsParityIff` | `StreamTable.BothSidesIssueOne` |
| a stream told of once and gone | `StreamTable.OpenedOnceAndGone` | `StreamTable.LateOpenStaysOpen`, `StreamTable.VeryLateOpenComesTwice`, `StreamTable.ReusedTooSoonIsMissed` |
| a rejection under interleaving | `Standing.DenialHoldsIff`, `Standing.KeptOutIff` | `Interleaving.UndoneRejectionIsReachable` |
| the member limit under interleaving | `Standing.LimitHoldsIff` | `Interleaving.ConcurrentApprovalsAreReachable` |
| the member limit, operations atomic | `Capacity.StepOvershootsIff` | `Capacity.RejectedMemberReturnsOverLimit` |
| the sweep's listing of members | `Standing.ListingHoldsIff` | `Standing.SweepRemovesTheReturned` |
| the sweep's listing of idle sessions | `Standing.IdleListingHoldsIff` | `Standing.SweepDeletesTheReturned` |
| hub and store on who is online | `Presence.OldSocketLastLeavesMemberOnline` | `Presence.ShownOnlineForGood` |
| the byte order of short reads | `Streams.ReadKeepsOrderIff` | `Streams.ReadOutOfOrder` |
| decoding one's own token | `Token.TokenDecodesIff` | `Token.UnreadableTokenExists` |

## Model

| member | source | states |
|---|---|---|
| Reorder.NumberIsMod | pkg/sessionclient/stream.go:62-92 | The number a frame carries after i increments of a uint16 is i modulo 65536. |
| Reorder.OldestIsUnique | pkg/sessionclient/stream.go:231-241 | Signed 16-bit distances tell buffered numbers apart, so what the eviction loop picks does not depend on map order. |
| Reorder.BufferBounded | pkg/sessionclient/stream.go:208-244 | Whatever arrives, the reorder buffer holds at most 256 entries. |
| Reorder.ReorderSafety | pkg/sessionclient/stream.go:208-244 | If each frame arrives at most once and never 65536 or more ahead, what was handed over is at every moment a prefix of what was written, across wrap-around and evictions. |
| Reorder.ReorderCompleteness | pkg/sessionclient/stream.go:208-244 | Without evictions the hand-over stops exactly at the first frame that has not arrived. |
| Reorder.OrderDoesNotMatter | pkg/sessionclient/stream.go:208-244 | Two eviction-free runs over the same set of arrivals end in the same state and the same output. |
| Reorder.SlightReorderingNeverEvicts | pkg/sessionclient/stream.go:208-244 | If no frame is more than 256 places past the next expected one, nothing is evicted and the window holds by itself. |
| Reorder.AliasedFrameIsHandedOver | pkg/sessionclient/stream.go:208-244 | The window is needed: a frame exactly 65536 ahead is handed over in place of another one. |
| Reorder.EvictionStallsForever | pkg/sessionclient/stream.go:208-244 | Once an arrival evicts, some frame that did arrive is lost and no later arrivals ever get the stream past it (the comment on the eviction says it avoids a stall). |
| Reorder.EvictionIsReachable | pkg/sessionclient/stream.go:208-244 | For every transmission long enough: with the first frame late, the 257th after it evicts. |
| Reorder.OutOfTurnWaits | pkg/sessionclient/stream.go:208-244 | A frame that is not due is buffered and hands nothing over; in a buffer of 256 the one furthest behind as a signed 16-bit number, and no other, makes room. |
| Reorder.InTurnHandsOver | pkg/sessionclient/stream.go:208-244 | The frame that is due is handed over, then, in order, what waits under the following numbers, up to the first that does not wait; these leave the buffer and no others. |
| Streams.ChunksLoseNothing | pkg/sessionclient/stream.go:62-92 | Cutting a write into chunks loses and reorders no byte. |
| Streams.WireCarriesTheChunks | pkg/sessionclient/stream.go:62-92 | The i-th chunk of a write is the i-th frame on the wire, under the next wrapping number. |
| Streams.Stream.Write | pkg/sessionclient/stream.go:62-92 | Returns the bytes of the chunks sent before the first refusal; the frames numbered and sent are exactly those chunks in order, and a refused chunk has used up its number; a closed stream sends nothing. |
| Streams.Stream.WriteChunks | pkg/sessionclient/stream.go:62-92 | The chunking loop: how many chunks went out, with consecutive numbers, and whether one was refused. |
| Streams.Stream.Deliver | pkg/sessionclient/stream.go:208-244 | The method on the fields is the specified arrival step, and pushes its output in order. |
| Streams.Stream.EvictOldest | pkg/sessionclient/stream.go:231-241 | The loop over the map removes the entry with the least signed distance. |
| Streams.Stream.DrainBuffer | pkg/sessionclient/stream.go:208-244 | The loop hands over everything contiguous and leaves the rest. |
| Streams.Stream.Push | pkg/sessionclient/stream.go:247-257 | A chunk is queued or, when 64 are waiting, dropped and the overflow noted. |
| Streams.Stream.ReadMessage | pkg/sessionclient/stream.go:147-169 | Reads return the pushed chunks in order, all of them before the end of the stream; without a drop a failed read means everything was read. |
| Streams.Stream.MarkRemoteClosed | pkg/sessionclient/stream.go:260-273 | Closes once, keeps the first reason, and reports whether the table entry must be dropped. |
| Streams.FramesLoseNothing | pkg/sessionclient/stream.go:62-92 | The frames of a sequence of writes hold exactly the bytes written. |
| Streams.EndToEnd | pkg/sessionclient/stream.go:62-244 | For any arrival permutation without eviction, the bytes handed over are exactly the bytes written. |
| Streams.EndToEndShort | pkg/sessionclient/stream.go:62-244 | Up to 65536 frames in all, that holds without a window assumption. |
| Streams.ReadIsWrittenIff | pkg/sessionclient/stream.go:62-257 | From Write to ReadMessage: for any arrival permutation without eviction, with reads in between as they may come and the queue read empty in the end, the bytes read are the bytes written if and only if the application kept up: at no moment more than 64 chunks handed over and not yet read. |
| Streams.RefusedChunkStallsTheReader | pkg/sessionclient/stream.go:62-92 | A chunk the transport refused has used up its number: whatever else arrives or is evicted, the reader never gets past the chunk before it. |
| Streams.CutEvery16K | pkg/sessionclient/stream.go:62-92 | Chunk i of a Write holds its bytes from 16384 i on, 16384 of them or what is left; their number is rounded up. |
| Streams.PushTakesOrDrops | pkg/sessionclient/stream.go:247-257 | A chunk waits while fewer than 64 do; after that it is dropped and the first error noted stays. |
| Streams.Stream.Read | pkg/sessionclient/stream.go:99-144 | As many bytes of the first chunk as fit; the rest goes to the back of the queue. An empty queue answers as ReadMessage does. |
| Streams.ReadKeepsOrderIff | pkg/sessionclient/stream.go:99-118 | Read keeps the order of whatever bytes are queued if and only if the first chunk fits its buffer or nothing with bytes in it waits behind. |
| Streams.ReadOutOfOrder | pkg/sessionclient/stream.go:99-118 | Else a queue of the same shape whose bytes come out in another order: zeros in the first chunk, ones behind. |
| Machine.LessIsBytewise | pkg/sessionclient/crypto.go:131-135 | Strings are ordered at the first byte that differs, or by length where one begins the other. |
| KeyExchange.InfoIsSymmetric | pkg/sessionclient/crypto.go:117-157 | Both ends build the same key-derivation info, whoever has the smaller NodeID. |
| KeyExchange.InfoNamesThePair | pkg/sessionclient/crypto.go:117-157 | Different pairs of NodeIDs never build the same info. |
| KeyExchange.DeriveAgrees | pkg/sessionclient/crypto.go:117-157 | Both ends of a pair accept each other and derive the same key, given the commutation law of X25519. |
| KeyExchange.Client.SendHelloTo | pkg/sessionclient/loops.go:567-580 | At most one hello per peer: the method is the specified step on the flags and the outbox. |
| KeyExchange.Client.ReplyHello | pkg/sessionclient/loops.go:643-656 | At most one reply per peer, counted apart from the hello. |
| KeyExchange.Client.OnKeyExchange | pkg/sessionclient/loops.go:600-640 | Decoding, derivation, error cases and the reply, as one specified step. |
| KeyExchange.AtMostTwoMessages | pkg/sessionclient/loops.go:567-656 | In any run of N clients with losses, each ordered pair sends at most two messages. |
| KeyExchange.Convergence | pkg/sessionclient/loops.go:567-656 | When nothing of a pair that discovered each other is in flight, both are ready with one key if and only if neither direction lost every message it sent; one loss never prevents it. |
| KeyExchange.OneDiscoveryIsEnough | pkg/sessionclient/loops.go:600-656 | Without losses one discovery brings up both ends. |
| KeyExchange.RunKeepsInv | internal/server/ws.go:227-245 | Over every run with silent drops by the server: each message sent is in flight, delivered or lost, and the flags and keys say which. |
| KeyExchange.KeySeparation | pkg/sessionclient/crypto.go:104-145 | With hash and HKDF without collisions and NodeIDs without a zero byte: two derivations give the same key if and only if the Diffie-Hellman secret, the session and the unordered pair of NodeIDs are the same. |
| KeyExchange.HeldKeysSeparate | pkg/sessionclient/crypto.go:104-145 | Over any two runs, of one session or of two: keys held for two pairs are the same if and only if sessions, pairs and secrets are; different pairs of a session, or one pair in two sessions, never share a key, even under one secret. |
| KeyExchange.KeyOnTheWire | pkg/sessionclient/crypto.go:124-142 | The key in full: HKDF over the secret, salted with the hashed session, for the bytes of the version name and the two NodeIDs, the lesser first, each after a zero byte. |
| KeyExchange.DerivesIff | pkg/sessionclient/crypto.go:117-128 | A public key gives a key if and only if it has 32 bytes and the curve accepts it. |
| KeyExchange.TakenIff | pkg/sessionclient/loops.go:600-656 | A key_exchange is taken, and answered once, if and only if it names its sender and x25519 and brings a public key that gives a key; then only the sender's key and reply flag change, else nothing. |
| KeyExchange.RefusedAs | pkg/sessionclient/loops.go:600-640 | The errors of the others, in the order of the checks. |
| KeyExchange.NodeIsNamedOrAnnounced | pkg/sessionclient/loops.go:618-634 | The key is derived for the NodeID the message names, or the one the server announced if it names none. |
| KeyExchange.HelloIff | pkg/sessionclient/loops.go:482-580 | A hello goes to exactly the named peers that are not oneself and not greeted before; forgetting a peer drops its key and spends no flag. |
| Restart.HistoryKeepsPairBooks | pkg/sessionclient/loops.go:482-656 | Over every history with losses, forgotten keys and restarts elsewhere, counted from any moment on: what one end sends the other is what its two flags had left, every message is in flight, delivered or lost, and the first delivery sets the key. |
| Restart.RestartedPairIsReadyIff | pkg/sessionclient/loops.go:555-656 | After any history a client comes back as a new process under its old member ID, with a new key. Once the two have discovered each other again and nothing is under way, they are ready with one key if and only if in each direction not everything was lost; the survivor sends a hello and a reply only if it had not spent them on the former process; without losses they are ready if and only if it had one of the two left or a message was already under way. |
| Restart.SpentFlagsStrandThePair | pkg/sessionclient/loops.go:567-656 | With both spent and nothing under way the new process never gets the survivor's key, whatever is discovered, forgotten, delivered or lost later on. |
| Restart.RestartStrandsThePair | pkg/sessionclient/loops.go:482-656 | Such a run from the start, for any two clients and any new key: ready, restarted, discovered again without a loss, and not ready. |
| Restart.TurnsAre | pkg/sessionclient/loops.go:482-503 | A member_left costs the pair's key at that end and nothing else; a restart clears what the client knew and gives it a new secret, under its old names, and touches nobody else. |
| StreamTable.CandidateIs | pkg/sessionclient/loops.go:369-397 | The i-th ID tried is start + 2i modulo 2^32. |
| StreamTable.FewStreamsSuffice | pkg/sessionclient/loops.go:369-397 | With fewer than 32768 IDs busy the bounded search succeeds, with an ID of the side's own parity, wrap-around included. |
| StreamTable.AllocKeepsParityIff | pkg/sessionclient/loops.go:369-397 | The ID handed out has the side's parity if and only if a free one of that parity is within 32768 tries or the least free ID happens to have it. |
| StreamTable.SidesNeverCollide | pkg/sessionclient/loops.go:369-397 | Over every run of opens, inbound streams and drops by both sides, no ID is ever issued by both, as long as each open keeps its parity. |
| StreamTable.BothSidesIssueOne | pkg/sessionclient/loops.go:369-397 | The condition is needed: a run of two new sides alone after which both have issued the ID 1: 32768 streams kept, the counter once round, one more open on either side. |
| StreamTable.OppositeParities | pkg/sessionclient/loops.go:369-397 | Exactly one end of a pair draws from the even IDs. |
| StreamTable.FallbackCrossesParity | pkg/sessionclient/loops.go:369-397 | With the first 32768 even IDs busy the even side is given the odd ID 1. |
| StreamTable.StreamRegistry.AllocStreamID | pkg/sessionclient/loops.go:369-397 | The ID is unused and the counter moves past it: the first free ID of the side's parity within 32768 tries, else the least free one. |
| StreamTable.StreamRegistry.TryIDs | pkg/sessionclient/loops.go:369-397 | The bounded search succeeds exactly when a free ID is within reach, and then finds the first. |
| StreamTable.StreamRegistry.LeastFreeID | pkg/sessionclient/loops.go:369-397 | The fallback probe ends whenever fewer than 2^32 IDs are busy, at the least free one. |
| StreamTable.StreamRegistry.DropStream | pkg/sessionclient/loops.go:409-425 | Removes the stream, remembers when it was closed and forgets closings older than 30 s. |
| StreamTable.StreamRegistry.OnStreamOpen | pkg/sessionclient/loops.go:428-460 | Creates the stream and notifies the application unless it exists, was closed under 30 s ago, or the peer is unknown. |
| StreamTable.StreamRegistry.OnStreamClose | pkg/sessionclient/loops.go:463-469 | Closes and drops an existing stream; anything else is ignored. |
| StreamTable.StreamRegistry.RegisterInboundStream | pkg/sessionclient/loops.go:197-211 | Creates once; an existing stream is kept. |
| StreamTable.StreamRegistry.OnDataFrame | pkg/sessionclient/loops.go:148-194 | Data of a known sender that decrypts creates the stream if need be and is fed to it; close, reset, ping and unknown frames do what the table says. |
| StreamTable.OpenedOnceAndGone | pkg/sessionclient/loops.go:148-469 | For every interleaving of the control channel (open) with the data channel (data, then close): and whatever became of earlier streams of that ID, the application is told once more and the ID is gone at the end if and only if: with data before the close, the open came before it or less than 30 s late; without, it came before it and not within 30 s of an earlier close. |
| StreamTable.LateOpenStaysOpen | pkg/sessionclient/loops.go:428-469 | From an empty table: a close that overtakes its open, without data, leaves the stream open for good. |
| StreamTable.VeryLateOpenComesTwice | pkg/sessionclient/loops.go:148-469 | From an empty table: an open 30 s late announces a finished stream a second time and leaves it open. |
| StreamTable.ReusedTooSoonIsMissed | pkg/sessionclient/loops.go:428-469 | From an empty table: an ID used again within 30 s of its close, without data in time, is not announced. |
| StreamTable.StreamBelongsToItsBringer | pkg/sessionclient/loops.go:148-469 | In every state of every run a stream is under the peer whose open or data brought it, and has been without a break since: neither a later open nor data of another peer takes it over. |
| StreamTable.DropNotes | pkg/sessionclient/loops.go:409-425 | A drop removes the stream, notes when, and forgets exactly the closings of more than 30 seconds ago. |
| StreamTable.HandsOut | pkg/sessionclient/loops.go:369-397 | The ID is start + 2i modulo 2^32 for the least i under 32768 that is free, and the counter is left at the next; with none free it is the least free ID and the counter has gone on by 65536. |
| StreamTable.StepActsOnOneSide | pkg/sessionclient/loops.go:336-425 | An open adds and issues an ID that was free at that side; an inbound stream or a drop changes that side alone. |
| RateLimit.Bucket.Allow | internal/server/server.go:335-348 | The call is the specified step; a limit of zero or less admits everything and changes nothing. |
| RateLimit.Bucket.Sweep | internal/server/server.go:351-358 | The sweep is the specified step, with the clock read twice. |
| RateLimit.WindowAdmitsUpToLimit | internal/server/server.go:335-348 | One counting window admits exactly min(calls, limit) per key. |
| RateLimit.AtMostTwiceTheLimit | internal/server/server.go:335-358 | With a monotone clock and any mix of keys, calls and sweeps, any closed interval of the window's length admits at most twice the limit for one key. |
| RateLimit.WindowLasts | internal/server/server.go:335-358 | An event begins the next counting window if and only if it comes more than the window after the event that began the last. |
| Frames.EncodeFrame | internal/protocol/frame.go:62-106 | Succeeds exactly on valid frames, with the specified bytes; each refusal has its own error. |
| Frames.ParseFrame | internal/protocol/frame.go:109-152 | The walk over the buffer is the specified parse, with its six errors. |
| Frames.EncodedLength | internal/protocol/frame.go:155-164 | The encoded length is the header length plus the payload length. |
| Frames.ParseOfEncode | internal/protocol/frame.go:62-152 | Parsing an encoded frame gives the frame back (no targets for a broadcast). |
| Frames.EncodeOfParse | internal/protocol/frame.go:62-152 | Encoding a parsed upload gives its bytes back with reserved byte 11 zeroed. |
| Frames.LayoutOnTheWire | internal/protocol/frame.go:62-106 | The header byte by byte: 0x21, flags, source index, kind, stream ID, number and a zero, integers in network order. |
| Frames.TargetsOnTheWire | internal/protocol/frame.go:88-106 | Behind it one index at byte 12, or a count at byte 12 and as many indices from byte 13, or nothing; then the payload. |
| Frames.ParseAnswers | internal/protocol/frame.go:109-152 | What is accepted, as conditions on the bytes, if and only if; and the error of the rest in the order of the checks. |
| Frames.FieldsOffTheWire | internal/protocol/frame.go:109-152 | The fields of an accepted frame are those bytes. |
| Hub.AtMostOneCurrent | internal/member/hub.go:201-297 | In a valid room, at most one connection per member and kind is attached and not kicked. |
| Hub.AttachKeepsValid | internal/member/hub.go:201-233 | The replaced connection is closed, so the new one is the only current one of its kind. |
| Hub.DetachKeepsValid | internal/member/hub.go:236-297 | Detaching keeps that. |
| Hub.StaleDetachIsHarmless | internal/member/hub.go:246-268 | A stale or repeated detach touches neither slots nor tables. |
| Hub.HookFiresOnTransition | internal/member/hub.go:236-297 | The offline callback fires exactly when a detach takes the member offline, with the connection that left last. |
| Hub.AttachKeepsInverse | internal/member/hub.go:201-233 | Attach keeps members and byIndex inverse if and only if the index is the member's own. |
| Hub.MakeApprovedKeepsInverse | internal/member/hub.go:525-546 | Approval keeps them inverse if and only if the new index is free. |
| Hub.DetachKeepsInverse | internal/member/hub.go:236-297 | Detach keeps them inverse. |
| Hub.RunsStayValid | internal/member/hub.go:201-546 | Every run of attach, detach, close, delivery, broadcast and approval keeps the room valid. |
| Hub.RunsKeepTheTable | internal/member/hub.go:201-546 | Every run with owned indices keeps the two tables inverse. |
| Hub.LookupIsExact | internal/member/hub.go:436-450 | After every such run, lookup by index finds a member if and only if it is online, approved and has that index. |
| Hub.ReusedIndexIsUnreachable | internal/member/hub.go:201-297 | A run from an empty room without owned indices: the index of a member that left goes to another, and the detach that follows makes the new holder unreachable by it. |
| Hub.HooksBalance | internal/member/hub.go:236-297 | Over every run: as many offline callbacks as times online, but for a time that has not ended. |
| Delivery.DeliveryChooses | internal/member/hub.go:300-330 | A binary frame is offered to the member's relay connection and to no other, and to the control connection only while there is no relay; a text frame the other way about. Queued last below 256, else counted as dropped and closed at the 64th drop; the answer says whether it was queued. |
| Delivery.BroadcastChooses | internal/member/hub.go:356-405 | Each approved member online but the one left out gets the frame once, binary on that connection, text on control and never on relay; everything else stays; the count is the number of these members. |
| Delivery.AttachReplaces | internal/member/hub.go:201-233 | A new connection takes the member's place of its kind with the reported ID, index and approval; the one found there, and no other, is closed as a duplicate. |
| Delivery.AttachKeepsOthers | internal/member/hub.go:201-233 | It enters its index; nobody else's entry changes. |
| Delivery.DetachVacates | internal/member/hub.go:236-297 | The current connection gives up its place; the member's last one takes entry and index along and is reported offline; everybody else stays. |
| Delivery.CloseClosesBoth | internal/member/hub.go:499-521 | Both connections of the member are closed for the reason given, and no other. |
| Delivery.ApprovalEnters | internal/member/hub.go:454-546 | Approval sets flag and index and enters it; of the other indices exactly the member's own old one is released. |
| Delivery.EveryStepActs | internal/member/hub.go:201-546 | So each step of a run of the hub does to the room what its name says. |
| OnlineRooms.OnlineRoom.Send | internal/member/hub.go:102-112 | Queued, or counted as dropped, and the 64th drop closes the connection. |
| OnlineRooms.OnlineRoom.KickConn | internal/member/hub.go:124-127 | Idempotent close with the latest reason. |
| OnlineRooms.OnlineRoom.Attach | internal/member/hub.go:201-233 | The updates of the fields amount to the specified attach. |
| OnlineRooms.OnlineRoom.Detach | internal/member/hub.go:236-297 | The updates of the fields amount to the specified detach. |
| OnlineRooms.OnlineRoom.Deliver | internal/member/hub.go:300-330 | Binary frames prefer the relay connection, text frames the control connection. |
| OnlineRooms.OnlineRoom.Broadcast | internal/member/hub.go:356-405 | The loop over the snapshot reaches every approved member but one, each once, in any order. |
| OnlineRooms.OnlineRoom.LookupMemberByIndex | internal/member/hub.go:436-450 | Lookup as specified. |
| OnlineRooms.OnlineRoom.MakeApproved | internal/member/hub.go:525-546 | Releases the old index if it is the member's, then enters the new one. |
| OnlineRooms.OnlineRoom.SetApproved | internal/member/hub.go:454-469 | Only the flag changes. |
| OnlineRooms.OnlineRoom.CloseMember | internal/member/hub.go:499-521 | Both connections are closed, nothing is detached. |
| Relay.MeaningPreserved | internal/relay/relay.go:71-186 | Every frame a call enqueues parses back to the uploaded flags, stream, number and payload under the sender's stored index, and is queued for an approved online member other than the sender; a listed target is active and holds the index. |
| Relay.MulticastIsUnicasts | internal/relay/relay.go:109-169 | A multicast leaves the hub exactly as one unicast per listed index in order would, with the same deliveries and bytes counted; only the frame counters differ. |
| Relay.ForwardReportsWhatItQueued | internal/relay/relay.go:71-169 | A unicast or multicast returns exactly the number of frames it queued, and none on failure. |
| Delivery.DataSparesControl | internal/relay/relay.go:71-186 | Whatever is forwarded, to one, several or all: only connections for data change, so that no data frame is offered to a control connection while its member has a relay one. |
| Delivery.UnicastReaches | internal/relay/relay.go:109-135 | An accepted unicast is offered, under the sender's stored index, to the approved active member its index stands for, on that member's connection for data, and to nobody else; with no such member the room stays as it was. |
| Delivery.ForwardAnswers | internal/relay/relay.go:71-192 | Not active, malformed, too large: refused in this order, counted as denied, with nothing queued. Else counted in, and counted out with the bytes times the deliveries, or as without a target. |
| Relay.Forwarder.Forward | internal/relay/relay.go:71-107 | Checks, counters, source overwrite and dispatch, as one specified step. |
| Relay.Forwarder.ForwardUnicast | internal/relay/relay.go:109-135 | The specified unicast step, counters included. |
| Relay.Forwarder.ForwardMulticast | internal/relay/relay.go:137-169 | The loop over the targets is the specified fold. |
| Relay.Forwarder.ForwardBroadcast | internal/relay/relay.go:171-186 | Encoded once, handed to the hub, counted by members reached. |
| WorkerRelay.OnRelayFrame | cloudflare/worker.js:737-798 | The worker accepts exactly the byte strings the Go parser accepts (from an active member) and emits one unicast per reachable target in order. |
| WorkerRelay.Pack | cloudflare/worker.js:778-787 | The bytes the worker writes by hand are the Go encoding of the unicast frame. |
| WorkerRelay.EachIsPlan | internal/relay/relay.go:137-169 | Looking up targets while delivering, the Go relay carries out a plan fixed beforehand. |
| WorkerRelay.TheRelaysAgree | cloudflare/worker.js:737-798 | Over one table of active, online members and payloads within the limit: for unicast and multicast the worker emits, byte for byte and in order, what Forward delivers. |
| WorkerRelay.BroadcastReachesTheSame | cloudflare/worker.js:763-798 | A broadcast reaches the same members through either relay. |
| WorkerRelay.BroadcastMeansTheSame | cloudflare/worker.js:778-787 | And carries the same flags, source, stream, number and payload. |
| WorkerRelay.BroadcastBytesDiffer | cloudflare/worker.js:778-787 | But never the same bytes: the worker re-packs a broadcast as a unicast. |
| WorkerRelay.SentOnlyToActive | cloudflare/worker.js:738-795 | Every frame goes to a member listed under an addressed index, active and not the sender; and every addressed index with such a member is answered. |
| WorkerRelay.UploadReaches | cloudflare/worker.js:738-795 | So an accepted upload, broadcast included, goes to exactly the members that may be sent to under the indices it is for, each time as a unicast under that index and the sender's own, otherwise as it came. |
| Records.MemberById | internal/storage/store.go:110-117 | The first member with the ID, or none. |
| Records.MemberByNodeId | internal/storage/store.go:120-127 | The first member with the NodeID, or none. |
| Records.ActiveMembers | internal/storage/store.go:99-107 | The count of active members. |
| Records.ActiveCountIsSize | internal/storage/store.go:99-107 | With distinct IDs that count is the number of active IDs. |
| Records.FreeIndexOf | internal/storage/store.go:141-152 | The loop on a 16-bit counter finds the least unused index from 1 on, or 0. |
| Records.FreeFromIsLeast | internal/storage/store.go:141-152 | The index found is unused and the least such; 0 means 1..65535 are all used. |
| Records.NewMemberId | internal/storage/memory.go:269-284 | Eight tries, then a counting probe that ends: an ID no member has. |
| Records.ItoaIsInjective | internal/storage/memory.go:269-284 | Different counters give different IDs, which is why the probe ends. |
| Records.DrawTakesTheFirst | internal/storage/memory.go:269-284 | The first of the tries that no member has is taken. |
| Records.DrawCountsUp | internal/storage/memory.go:269-284 | If all are taken, the base with the least number that makes it unused. |
| Records.ItoaIsDecimal | internal/storage/memory.go:269-284 | That number is written in decimal digits without leading zeros. |
| Records.NormalizeTrims | internal/storage/memory.go:86-92 | White space around a code does not count. |
| Records.NormalizeReads | internal/storage/memory.go:87-92 | Inside it dashes and blanks do not count and small letters are read as capitals; any other character stands for itself. |
| Sessions.StepKeepsStoreOk | internal/storage/store.go:196-234 | Admissible calls keep IDs, indices, NodeIDs and normalised codes distinct. |
| MemoryStores.MemRefines | internal/storage/memory.go:97-457 | Every admissible call on the map and its code index does what the interface promises, same result, same sessions, and keeps the code index exact. |
| MemoryStores.RecJoinViews | internal/storage/memory.go:152-264 | Joining on the member list means joining on members by ID. |
| MemoryStores.MemoryStore.Create | internal/storage/memory.go:97-117 | Conflict on a known ID or code, else stored and indexed. |
| MemoryStores.MemoryStore.Get | internal/storage/memory.go:120-131 | The stored record, or not found. |
| MemoryStores.MemoryStore.GetByJoinCode | internal/storage/memory.go:134-149 | Through the code index. |
| MemoryStores.MemoryStore.Join | internal/storage/memory.go:152-264 | Closed, expired, rejoin, revoked, join limit, capacity, index, new member: the specified outcome of each. |
| MemoryStores.MemoryStore.UpdateMember | internal/storage/memory.go:287-307 | Replaces the first member with the ID. |
| MemoryStores.MemoryStore.RemoveMember | internal/storage/memory.go:310-327 | Removes the first member with the ID. |
| MemoryStores.MemoryStore.MarkOffline | internal/storage/memory.go:331-354 | Only for the connection on record. |
| MemoryStores.MemoryStore.Revoke | internal/storage/memory.go:357-370 | Sets the flag. |
| MemoryStores.MemoryStore.RotateToken | internal/storage/memory.go:373-400 | Moves the code index entry and replaces hash and code, or conflicts. |
| MemoryStores.MemoryStore.Close | internal/storage/memory.go:403-415 | Sets the flag. |
| MemoryStores.MemoryStore.Delete | internal/storage/memory.go:418-433 | Removes the session and its code. |
| MemoryStores.MemoryStore.List | internal/storage/memory.go:436-457 | Exactly the matching sessions, each once, by creation time. |
| SqliteStores.SqlRefines | internal/storage/sqlite.go:420-963 | Every admissible call on the tables does what the interface promises, same result, same sessions. |
| SqliteStores.JoinNeverViolatesConstraints | internal/storage/sqlite.go:556-689 | Inside Join no unique constraint is hit: index and ID come from the rows loaded in the same transaction. |
| SqliteStores.InsertAllFits | internal/storage/sqlite.go:466-472 | Creating a session with members that fit together inserts them all. |
| SqliteStores.FirstOfAscending | internal/storage/sqlite.go:364-383 | With rows in index order, the first match by NodeID is the member with the least index. |
| SqliteStores.CreateKeepsSchema | internal/storage/sqlite.go:420-474 | A failed insert rolls everything back; keys and unique constraints hold afterwards. |
| SqliteStores.WriteKeepsSchema | internal/storage/sqlite.go:717-760 | A member write that passes the constraint check keeps every key and unique constraint. |
| SqliteStores.SQLiteStore.SelectMembers | internal/storage/sqlite.go:364-383 | The rows of the session, in strictly ascending index order. |
| SqliteStores.SQLiteStore.Create | internal/storage/sqlite.go:420-474 | All or nothing, as specified on the tables. |
| SqliteStores.SQLiteStore.Get | internal/storage/sqlite.go:521-526 | The row and its members, or not found. |
| SqliteStores.SQLiteStore.GetByJoinCode | internal/storage/sqlite.go:529-547 | Through the normalised column. |
| SqliteStores.SQLiteStore.Join | internal/storage/sqlite.go:556-689 | The specified transaction: refusals, rejoin or insert, owner and counter update. |
| SqliteStores.SQLiteStore.UpdateMember | internal/storage/sqlite.go:694-760 | Overwrites the row, or reports missing session, missing member or conflict. |
| SqliteStores.SQLiteStore.RemoveMember | internal/storage/sqlite.go:788-816 | Deletes the row, or reports what is missing. |
| SqliteStores.SQLiteStore.MarkOffline | internal/storage/sqlite.go:820-856 | Only for the connection on record. |
| SqliteStores.SQLiteStore.Revoke | internal/storage/sqlite.go:861-867 | Sets the flag. |
| SqliteStores.SQLiteStore.RotateToken | internal/storage/sqlite.go:870-912 | Replaces code, normalised code and hash, or conflicts. |
| SqliteStores.SQLiteStore.Close | internal/storage/sqlite.go:915-920 | Sets the flag. |
| SqliteStores.SQLiteStore.Delete | internal/storage/sqlite.go:939-963 | Removes the member rows and the session row together, or neither. |
| StoresAgree.AgreesIff | internal/storage/sqlite.go:420-963 | From stores in step, one call gets the same answer from both and leaves the same sessions if and only if a guard on the call and the sessions before it holds: for Create a conflict in both, or a session ID, a creation time and members with distinct IDs and indices that name the session; for UpdateMember the same error in both, or the right session and an index nobody else has; every other call always agrees. |
| StoresAgree.TakenIndexSplitsTheStores | internal/storage/sqlite.go:694-760 | A run from two empty stores to a call that is answered differently: a member written back under another one's index. |
| StoresAgree.RunsAgree | internal/storage/memory.go:97-457 | Over every sequence of admissible calls with the same clock and random strings: the same results, call for call, and the same sessions, with each store's own invariant. |
| StoresRuns.StepAgreesIff | internal/storage/memory.go:97-457 | From equal sessions, with the code index and the NodeIDs in any state: one call gets the same answer and leaves the same sessions if and only if a guard on the call and the memory store holds: the index says of the code what the records say, the first listed member with the node has the least index, the written index is free, a new session's members go in, or both refuse. |
| StoresRuns.StepKeepsSchema | internal/storage/sqlite.go:420-963 | Every call on the tables, admissible or not, keeps their keys and unique constraints. |
| StoresRuns.RunsAgreeIff | internal/storage/memory.go:97-457 | Over every sequence of calls whatsoever from two empty stores: every call is answered alike and leaves the same sessions if and only if that guard holds at every call. |
| StoresRuns.AlikeMeansSameResults | internal/storage/sqlite.go:420-963 | In such a run the two lists of results are equal, and so are the sessions at its end. |
| StoresRuns.BlankCodeShowsIff | internal/storage/memory.go:97-117 | After a new session taken alike over an exact index, some later lookup is answered differently if and only if its code is named but blank, and so is some later Create that the sessions alone would let both stores take. |
| StoresRuns.DashSplitsTheStores | internal/storage/memory.go:97-149 | A run from two empty stores: a session under the code "-", then the lookup of "-" and a second such session answered differently. |
| StoresAgree.IndexIsLinearScan | internal/storage/memory.go:97-149 | After every such sequence the code index is the linear scan over normalised codes. |
| StoresAgree.OldCodeAgreesIff | internal/storage/memory.go:373-400 | After a rotation, looking the old code up answers alike if and only if there was none or the new one is not blank; otherwise memory still opens the session by it and the tables no longer know it. |
| StoresAgree.BlankRotationSplitsTheStores | internal/storage/memory.go:373-400 | Such a run from two empty stores. |
| StoresAgree.BlankCodeTakesTheIndex | internal/storage/memory.go:97-117 | A session created under a code of blanks and dashes answers alike at first; then memory opens it by any such code and refuses every further one, and the tables do neither. |
| StoresAgree.WriteLeavesAlike | internal/storage/sqlite.go:694-760 | A member written back alike, whatever its NodeID, leaves a session in which nothing that shows differs. |
| StoresAgree.CreateLeavesAlike | internal/storage/sqlite.go:420-474 | So does a session created alike, whatever its code and its members' NodeIDs. |
| StoresAgree.RejoinAgreesIff | internal/storage/memory.go:176-205 | In such a session the next join of a known node answers alike if and only if the first member in memory's list with that NodeID also has the least index of them, which is the one the tables pick. |
| StoresAgree.SharedNodeSplitsTheStores | internal/storage/memory.go:176-307 | A run from two empty stores: create, write a member back under another one's NodeID, both alike; then the node joins and comes back as different members. |
| Promises.StepFulfils | internal/storage/store.go:196-235 | Every admissible call, field by field: which calls are refused, in which order and with nothing changed, and what exactly the others change. A node not on record is let in if and only if the session is not closed, expired or revoked, has joins left, has room unless the newcomer must wait, and has an index left; it gets the least one. A known node comes back whatever the limits and the revocation. |
| Promises.MemoryFulfils | internal/storage/memory.go:97-457 | The locked map keeps all of these promises. |
| Promises.TablesFulfil | internal/storage/sqlite.go:420-963 | So do the tables. |
| Promises.UndatedIsDated | internal/storage/memory.go:112-115 | A session created without a time is stored as if it had come with the store's own. |
| Service.DecideKeepsIdentity | internal/session/service.go:392-485 | What an operation writes back has the index, node, role and session of the member it read, and fits in. |
| Service.SessionService.Approve | internal/session/service.go:437-463 | Owner, target, status and capacity checks on a snapshot, then the write-back. |
| Service.SessionService.Reject | internal/session/service.go:466-485 | Owner check, no self-removal, then denied without connection. |
| Service.SessionService.Touch | internal/session/service.go:410-424 | Only for the connection on record. |
| Service.SessionService.UpdateCandidates | internal/session/service.go:392-407 | At most 16 candidates. |
| Service.Idle | internal/session/service.go:574-594 | Whether no active member is online, and since the earliest departure, or the creation where there is no active member. |
| Service.SessionService.Prune | internal/session/service.go:533-571 | The nested loops of deletions and removals amount to the specified sweep; the counts are the sessions deleted and the members removed from sessions that stay. |
| Service.PruneSparesTheOnline | internal/session/service.go:533-571 | A sweep never deletes an unexpired, unclosed session with an active member online, nor removes an online member of it. |
| Service.SweepDeletesIff | internal/session/service.go:533-594 | A session is gone after a sweep if and only if it was closed, past a set end, or has an idle timeout, nobody active online, and: nobody active and created longer ago than that; or an active member that left longer ago; or active members none of whom ever left and a timeout under the longest duration. A session that stays keeps its head and loses exactly the members offline for longer than the grace. |
| Authority.AnswersFollowTheRecords | internal/session/service.go:392-485 | In every state that any interleaving reaches, approval, rejection, heartbeat and candidates are answered and carried out by the records alone: only the recorded owner approves or rejects, a pending member with room left or anybody but itself; every refusal has its error, in the order of the checks, and changes nothing; every success changes that one member in just these fields. |
| Authority.ReadsFollowTheRecords | internal/session/service.go:392-485 | The same for a read with others working in between: it readies exactly that write, or nothing. |
| Authority.NobodyLetsThemselvesIn | internal/session/service.go:437-463 | Over every run of a session that asks for approval: whoever is active and not the owner, or about to be made so by a decided write, was approved by the recorded owner at an earlier step, while pending and with room. |
| Authority.OwnerIsRecorded | internal/session/service.go:442-445 | In every reachable state the owner role is held by the recorded owner and by nobody else. |
| Service.MissedSweepLosesNothing | internal/session/service.go:559-568 | Where a session outlives both, sweeping early and late leaves the members that sweeping late alone leaves. |
| Service.EarlySweepProlongs | internal/session/service.go:533-594 | But an earlier sweep can keep a session alive that the later one alone deletes: it drops the departure the idle time would count from. |
| Service.TwoSweepsSuffice | internal/session/service.go:533-571 | At one time, a third sweep finds nothing the second left. |
| Service.SecondSweepDeletes | internal/session/service.go:533-594 | Read off the session before the first sweep: the second one, at the same time, deletes it exactly if nobody active is online and either all active members are past their grace and it was created long enough ago, or those not past it never left. |
| Service.OneSweepIsNotEnough | internal/session/service.go:533-594 | A session that one sweep leaves and the next deletes. |
| Interleaving.EveryMoment | internal/session/service.go:392-485 | Under every interleaving of split read and write steps with joins, removals and disconnections: IDs, indices in 1..65535 and NodeIDs are pairwise distinct, a member with the owner role is the recorded owner and active, joins are members present plus members removed and stay within the limit. |
| Interleaving.StepIsTheCall | internal/storage/store.go:196-235 | Each step leaves the session as the store call it stands for does. |
| Interleaving.JoinLeads | internal/storage/memory.go:152-256 | A join leaves everything alone, brings the known node back, or lets a new one into a session that is neither revoked nor closed. |
| Interleaving.IdentityIsForLife | internal/session/service.go:392-485 | A member ID keeps its index, NodeID and role for the life of the session. |
| Interleaving.StaleWriteFits | internal/session/service.go:392-485 | A stale write never takes another member's index or node, so either store accepts it. |
| Interleaving.StaleWriteIsLost | internal/storage/memory.go:287-307 | Once its member is gone a stale write changes nothing, even if the index has a new holder. |
| Interleaving.RunsKeepInv | internal/storage/memory.go:152-327 | The invariant behind these, over every run. |
| Interleaving.ConcurrentApprovalsOvershoot | internal/session/service.go:437-463 | Two approvals that both read before either writes put the session over its capacity. |
| Interleaving.ConcurrentApprovalsAreReachable | internal/session/service.go:437-463 | A run from a new session for two to three active members. |
| Interleaving.StaleTouchUndoesRejection | internal/session/service.go:410-485 | One losing schedule, from any state: a heartbeat read before a rejection and written after it takes the rejection back. When it does hold: Standing.DenialHoldsIff. |
| Interleaving.StaleTouchRevivesOldConnection | internal/session/service.go:410-424 | A heartbeat read before a rejoin and written after it puts the old connection back on record. |
| Interleaving.UndoneRejectionIsReachable | internal/session/service.go:410-485 | A run from a new session: a member online and approved is rejected, and a late heartbeat makes it active again. |
| Interleaving.RevivedConnectionIsReachable | internal/session/service.go:410-424 | A run from a new session: after a rejoin, a late heartbeat and the old socket's close mark the member offline. |
| Standing.DenialEndsIff | internal/session/service.go:392-485 | Of all split steps, exactly three end a denial: finishing a write that carries another status, the node's return to an open session, the member's removal. |
| Standing.DenialHoldsIff | internal/session/service.go:466-485 | Over every run: a member denied at some moment is denied at every later one if and only if no step in between is one of those. |
| Standing.SettledDenialHoldsIff | internal/session/service.go:466-485 | Once every write begun before the rejection is done, only the node's return or the member's removal ends it, whatever else goes on. |
| Standing.BecomesActiveIff | internal/session/service.go:437-463 | A member on record becomes active exactly by finishing a write that makes it so, or by its node's return where approval is off. |
| Standing.KeptOutIff | internal/session/service.go:437-485 | Over every run: a member not active at some moment stays out at every later one if and only if none of these steps is in between; with approval on its node may come back as often as it likes. |
| Standing.StepOverfillsIff | internal/session/service.go:437-463 | Of all split steps, exactly these put a session over its limit: in a full one, finishing a write that makes a non-active member active, or such a member's return where approval is off. |
| Standing.LimitHoldsIff | internal/session/service.go:437-463 | Over every run: the limit holds at every moment if and only if no step is one of these. |
| Standing.LimitHoldsWithoutOverlap | internal/session/service.go:437-463 | With approval on and every write done straight after its read, the limit holds at every moment of every run. |
| Standing.StepRecoversIff | internal/session/service.go:559-568 | A member gone or past its grace recovers exactly by its node's return, an older write that has it back, or being marked off anew within the grace. |
| Standing.ListingHoldsIff | internal/session/service.go:533-571 | Over every run from the sweep's listing to its removal: a member listed as past its grace is so, or gone, at every moment if and only if none of these steps comes in between. |
| Standing.SweepRemovesTheReturned | internal/session/service.go:559-568 | A run from a new session: listed as past its grace, back online, and removed by the sweep. |
| Standing.StepBringsOnlineIff | internal/session/service.go:541-556 | Of all split steps, exactly these bring an active member online where none was: on a connection, a known node's return to be active or a newcomer let in active, or an older write done that has a member active and online. |
| Standing.IdleListingHoldsIff | internal/session/service.go:533-571 | Over every run from the listing of an idle session to its deletion: nobody active is online at any moment if and only if none of these steps comes in between. |
| Standing.SweepDeletesTheReturned | internal/session/service.go:541-556 | A run from a new session: listed as idle for too long, its owner back online so that it would be spared, and deleted by ID all the same. |
| Standing.RevocationHolds | internal/storage/memory.go:357-370 | Over every run from a revocation up to the next new token: the session is revoked at every moment, and nobody is in it that was not there before, whoever joins and whatever is written late. |
| Standing.KnownNodeReturns | internal/storage/memory.go:176-205 | A known node gets back in all the while: its record is there under its new connection. |
| Standing.ClosureHolds | internal/storage/memory.go:403-415 | From a closure on nobody new gets in, for good. |
| Standing.ShutStepAdmitsNobody | internal/storage/memory.go:176-212 | One step of a revoked or closed session brings nobody that was not there; only a new token ends a revocation, and nothing a closure. |
| Capacity.StepOvershootsIff | internal/storage/memory.go:178-205 | Of all atomic steps, exactly one kind puts a full session over its limit: the return of a known, non-active node when approval is off. |
| Capacity.CapacityHolds | internal/storage/memory.go:178-256 | Over every run, active members never exceed a positive limit when approval is required, or when nobody is rejected. |
| Capacity.RejectedMemberReturnsOverLimit | internal/storage/memory.go:188-198 | The trace that breaks it: three active members in a pair session. |
| Capacity.StepIsTheCall | internal/storage/store.go:196-235 | Each atomic step leaves the session as the service's operation or the store call does. |
| Presence.DetachMarksOfflineIff | internal/member/hub.go:289-296 | A detach reaches the stored record exactly when it takes the member off the hub and the closing connection is the one on record. |
| Presence.OldSocketsAreIgnored | internal/storage/memory.go:331-354 | Over every run, a socket of an earlier join never touches the record of a member that has joined again. |
| Presence.OldSocketLastLeavesMemberOnline | internal/server/server.go:95-101 | When the last socket to close is not the recorded one, the hub has lost the member and the store still shows it online. |
| Presence.ShownOnlineForGood | internal/server/server.go:95-101 | A run from a new session to such an end: join, both sockets, join again, a new control socket only, which closes before the old relay socket. |
| Presence.StepIsTheCall | internal/server/server.go:95-101 | Each step leaves the session as the store call does; a detach that takes the member off the hub calls MarkOffline with that connection, and no other step of the hub calls the store. |
| Presence.AttachReportsTheRecord | internal/server/ws.go:69-293 | Only members on record attach, to the relay only active ones, under the index of their record and approved while active. |
| Bits.DecodeOfEncode | internal/auth/token.go:90-108 | Regrouping bytes to 5- or 6-bit digits and back gives every byte string back. |
| Bits.EncodedNumber | internal/auth/token.go:90-108 | The digits write the same number as the bytes, shifted left by the padding: most significant first, as RFC 4648 has it. |
| Token.EncodeJoinCode | internal/auth/token.go:90-108 | The prefix and the base32 text in groups of four; empty for other lengths. |
| Token.IsBase32Alphabet | internal/auth/token.go:158-172 | Nonempty and every character a base32 letter or digit in either case. |
| Token.JoinCodeDecodes | internal/auth/token.go:119-134 | After the prefix, under any letter case and with dashes and blanks anywhere, a join code decodes to its 32 bytes. |
| Token.OwnJoinCodeDecodes | internal/auth/token.go:90-134 | In particular as it was handed out. |
| Token.BareBase32Decodes | internal/auth/token.go:136-145 | Without the prefix, under any letter case. |
| Token.TokenDecodesIff | internal/auth/token.go:119-155 | The base64url form decodes to its bytes if and only if it does not start with P2P- ignoring case. |
| Token.PaddedTokenDecodesIff | internal/auth/token.go:187-192 | The same with padding. |
| Token.UnreadableTokenExists | internal/auth/token.go:126-134 | Such tokens exist. |
| Token.AlphabetIs | internal/auth/token.go:90-192 | Digit v is written with letter v of the alphabet, spelled out, and a character is read as v if and only if it is that letter. |
| Token.JoinCodeOnPaper | internal/auth/token.go:90-108 | A join code has 68 characters: P2P-, then 52 letters in groups of four with dashes between, letter i standing for digit i. |
| Token.PrefixReads | internal/auth/token.go:126-131 | The prefix that marks a join code is P2P- in any letter case and nothing else. |
| Token.WrappedBase32Decodes | internal/auth/token.go:136-155 | Without the prefix, base32 under any letter case with dashes, underscores and line breaks anywhere inside. |
| WorkerToken.WorkerJoinCode | cloudflare/worker.js:69-85 | The 32-bit accumulator loop writes exactly the base32 digits, the last one padded with zero bits. |
| WorkerToken.DecodeBody | cloudflare/worker.js:101-115 | The 32-bit accumulator loop reads exactly the whole bytes, or fails on a foreign character. |
| WorkerToken.WorkerRoundTrip | cloudflare/worker.js:69-116 | decodeToken(joinCode(raw)) is raw for all 32-byte raw. |
| WorkerToken.GoCodeIsForeign | cloudflare/worker.js:52-116 | The worker never reads a Go join code as its token: no character has the same value in both alphabets. |
| WorkerToken.WorkerCodeIsForeign | internal/auth/token.go:119-134 | Nor does the Go server read the worker's. |
| WorkerToken.WorkerReadsAnyCase | cloudflare/worker.js:92-116 | The worker reads its own codes in any letter case, with dashes anywhere after the prefix. |

## Left out

- HTTP handlers, WebSocket upgrade, pumps and deadlines, logging, metrics, configuration, version, CLI, installer and containers: plumbing.
- Cryptographic strength: hashes, HKDF and signatures are uninterpreted functions and X25519 is one with the commutation law; tickets are a join and split of strings.
- SQL parsing, WAL, pragmas and driver errors: a statement is an update of two maps under their constraints, a transaction takes effect as a whole; `ORDER BY member_index` is a selection of the least row left.
- Random IDs: drawn strings are parameters. Theorems on whole runs assume that a drawn member ID is not empty and was never used before.
- Short reads in a whole run: `Streams.Stream.Read` is stated call by call, the theorems from Write on read by `ReadMessage`.
- `Close` and `Reset` called by the local application.
- Stream tables with three or more members: streams are keyed by ID alone, so IDs of different peers can collide.
- The order of messages around a client's restart: what the former process sent is taken to have arrived, or to be lost, before the new one starts.
- The other way a listed session can recover: a departure its idle time counts from is removed or replaced while nobody active is online. `Standing.IdleListingHoldsIff` speaks of members online.
- Hub objects on the heap: connections and online members are handles into maps of one room object, so aliasing between them is by handle; the map of rooms is one room, an empty room standing for one that was removed.
- Two calls on one hub, relay or stream at the same time: each call is one step; a membership view does not change during one forwarded frame.
- `List` with a limit, whose iteration order differs between the stores, and the SQL `List` loop; as a function of the tables it is part of the agreement.
- Letter case and blanks beyond ASCII, in join codes and tokens.
- Times at the Unix epoch itself, which the SQL store reads back as the zero time; wrap-around of 64-bit counters.
- The limiter reads the clock before it takes the lock, so two callers can arrive out of order; the bound assumes a monotone clock.
- WorkerToken.DecodeWorkerCode: reads join codes only; the worker's base64url branch is not modelled.
- The rest of the worker's session logic, which repeats the store's rules with fewer of them; per target it sends to every open socket, the Go hub to one, so the relays are compared per target.
