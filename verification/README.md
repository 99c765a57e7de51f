# Verification of qtun

qtun is a point-to-multipoint tunnel over QUIC streams with a SOCKS5 server beside it. This project models its
stateful core in Dafny and proves what the code keeps over all inputs, chunkings and interleavings. Check it with
`dafny verify dfyconfig.toml`.

## What is modelled

- **The server as a step system** (`Link`, `ServerSystem`). The routing table, the two registry maps, `App.mutex`, the
  TUN workers, the sweep, and for every connection its reader, its writer, the bounded queue and the close signal. One
  step is one critical section, or one access where the code takes no lock; looking an address up and testing the
  connection's closed flag count as one step. A ping handler holds `App.mutex` from its route insertion to its
  registration, and other steps that do not need that mutex fall in between. Message bytes go all the way to the wire.
  `RegistrySafety`, `NoStranding`, `QuietSweep`, `ExactInverse`, `Forwarding`, `Delivery`, `WorkerAlone`,
  `LateEviction` and `Progress` hold the results; each speaks about every run.
- **The same maps as objects** (`Registry`, `Server`, `App`): `SetConns`, `DeleteDeadConn`, `RemoveConnByConnPointer`,
  the ping handler, the sweep and the forwarding loop as methods, specified by the functions the step system uses.
- **Frames** (`Streams`, `Frames`, `FramePort`, `SizeBound`): full reads over arbitrary chunks, the frame codec with its
  uint16 truncation, the read loop. AES-GCM is any pair `seal`/`open` with `open(seal(x)) = x` and 16 bytes of overhead.
- **Envelopes** (`Wire`, `Envelope`, `EnvelopeExact`): varints and fields after the Protocol Buffers encoding
  specification, the marshaler, sizer and unmarshaler of the oneof, and exactly which bytes are decoded to what.
- **The client's scheduling** (`Scheduler`): the round-robin counter with int64 wrap-around and its conversion to an
  `int` of 32 or 64 bits, concurrent callers, ping rounds.
- **SOCKS5** (`SocksAddress`, `SocksMessages`, `SocksSession`, `SocksOrder`, `SocksServer`): a flat session function, the
  server that reads from the network in pieces, and what the order of a session guarantees (RFC 1928, RFC 1929).
- **The PAC script's matcher** (`Pac`).

## Where the code falls short

- The sweep deletes routes without `App.mutex`. `NoStranding.SweepCanStrand` is a run in which this leaves a registered
  connection without any route: the sweep sees a new client's route before the ping registers its connection.
  `NoStranding.NeverStrandedExactly` says for which runs it does not happen, and
  `NoStranding.NothingStrandedOutsidePings` that keeping the sweep's deletions out of ping handlers is enough.
- A second address on one connection makes the two registry maps disagree. `ExactInverse.SecondAddressBreaksInverse`
  is such a run and `ExactInverse.AlwaysInverseExactly` says for which runs it does not happen. The client's pings
  travel over the round-robin, and shift from round to round unless the writes in between fill whole turns over the
  slots (`Scheduler.LaterRound`). So a connection comes to carry a second address when packets are sent
  (`Scheduler.PacketShifts`) or some connection could not be made (`Scheduler.EmptySlotShifts`). When such a connection
  goes away, its other address stays registered with it (`ExactInverse.CleanupLeaves`,
  `ExactInverse.StaleEntrySurvives`).
- An eviction can remove the registration of an open connection: when the client of an address that was found dead comes
  back before `DeleteDeadConn`. `LateEviction.EvictionHitsOpen` and `LateEviction.SweepEvictionHitsOpen` are such runs, and `LateEviction.HandsAlwaysDeadExactly`
  says for which runs it does not happen.
- A frame body of 65536 bytes or more is cut by its uint16 length; `Frames.FrameRoundTrip` and
  `SizeBound.PacketCrossesTunnel` give the exact bounds.
- The PAC script loops for ever on a host that starts with a dot and has no listed suffix, because JavaScript clamps a
  negative start of `lastIndexOf` to 0 (`Pac.HaltsExactly`, `Pac.DottedHostLoops`).
- The client indexes its slots with `int(serial)`, which becomes negative after 2^31 writes in the builds for 386 and arm
  and after 2^63 in the others; a write then panics unless no remainder is left. `Scheduler.WrappedIndexFails` has such
  writes, `Scheduler.IndexInRange` and `Scheduler.WritesSucceedExactly` say exactly when it does not happen.

## Model

| member | source | states |
|---|---|---|
| ServerSystem.MutexWaitedForExactly | qtun/app.go:100-187 | exactly a ping's begin, a worker's copy of the routes and its route deletion wait for `App.mutex`; look-ups, evictions, cleanups and the sweep do not |
| RegistrySafety.StepKeepsInv | transport/server.go:91-140 | every step of every goroutine keeps the link, mutex, registry and worker invariants |
| RegistrySafety.ReachableInv | transport/server.go:91-140 | so every reachable state satisfies them, under every interleaving |
| RegistrySafety.RegistryCoherent | transport/server.go:174-220 | in every reachable state a reverse entry is matched by a forward entry, so the reverse map is injective, and no connection is without a stream |
| RegistrySafety.NoStreamless | transport/server.go:204-209 | the branch of `SetConns` for a nil stream is never taken |
| RegistrySafety.RegistrationStable | transport/server.go:191-210 | an address that stays registered stays with the same connection |
| RegistrySafety.NoResurrection | transport/server_conn.go:58-74 | after its cleanup a connection never returns to the reverse map, its closed flag stays set, and `Stop` is called at most once in a run |
| RegistrySafety.CleanedUpGainsNothing | transport/server.go:191-220 | after its cleanup a connection gains no entry in the forward map either |
| RegistrySafety.OnlyCleanupCleans | transport/server.go:133-138 | only the read exit's own cleanup brings a connection past it |
| RegistrySafety.RunIsLater | transport/server_conn.go:238-251 | along a run closed flags, closed streams, accepted messages and wire bytes only grow |
| RegistrySafety.QueuedOnlyWhenReady | transport/server_conn.go:75-113 | no message can be queued before `crypto()` has finished, although the writer starts first |
| RegistrySafety.PingExcludesWorkers | qtun/app.go:168-187 | between a ping's two updates no worker copies or changes the routes and no other ping begins, and the ping can finish |
| RegistrySafety.SignalReachesWriter | transport/server_conn.go:53-56 | in every reachable state a writer that waits while its reader has raised the close signal can take it |
| RegistrySafety.KeylessStarts | transport/server_conn.go:115-126 | a server without a key always reaches a connection's read loop |
| RegistrySafety.FailedCryptoLeaves | transport/server_conn.go:75-77 | with a key `crypto()` can fail and the connection leaves; one that never was ready accepts nothing, is not registered, and no worker holds it |
| RegistrySafety.StreamlessStopped | transport/server.go:204-209 | were there a streamless entry, registering over it would stop its connection and drop the entry from the forward map |
| RegistrySafety.DeliversAcceptedPrefix | transport/server_conn.go:163-277 | in every reachable state the wire is frames under the server's key, and any received part of it reads as a prefix of the accepted messages |
| Link.LinkStepKeepsLinkOk | transport/server_conn.go:58-114 | accepted messages are written, in flight or queued, in order, with at most two queued; the exit closes, flags and stops in that order |
| Link.WriteKeepsConserved | transport/server_conn.go:163-213 | a write moves one message from in flight to written, or loses it and ends the writer |
| Link.WriteKeepsWireOk | transport/server_conn.go:208-210 | the wire is whole frames and at most the start of one more, also when the stream fails in the middle |
| Link.EnqueueKeepsLinkOk | transport/server_conn.go:215-226 | queueing keeps order and bound; a message for a closed queue is dropped |
| Link.ClientReadsAcceptedPrefix | transport/client_conn.go:317-376 | the client's read loop delivers a prefix of what the server accepted for it, then stops with a short read |
| Link.WireIsWritten | transport/server_conn.go:253-276 | until a write fails, the wire is exactly the frames of the written messages |
| Link.WrittenExactly | transport/server_conn.go:163-213 | a message is written whole, and the writer goes on, if and only if the open stream takes all of its frame |
| Link.DrainHasStep | transport/server_conn.go:253-277 | before `Stop`, the writer has a step while anything accepted is unwritten |
| Link.DrainStep | transport/server_conn.go:253-277 | with a stream that takes everything each such step brings it nearer to the end |
| Link.Drained | transport/server_conn.go:253-277 | and at the end everything accepted is on the wire |
| Link.QueueHoldsTwo | transport/server_conn.go:47 | a third message waits |
| Link.SignalTakenOnce | transport/server_conn.go:48-56 | the close signal is raised once, while it is down, and is down again when the writer has taken it |
| Link.NilNeverWritten | transport/server_conn.go:255-257 | the nil received from the closed queue is never written, as the stream is closed by then |
| Link.RaisedSignalBlocks | transport/server_conn.go:48 | a raised signal cannot be raised again |
| Link.StopNeverBlocks | transport/server_conn.go:53-56 | the close signal's one-element channel is empty when the read exit raises it |
| Link.StopEndsWriter | transport/server_conn.go:238-277 | after `Stop` the writer ends within four steps and writes nothing more, whatever is queued |
| NoStranding.StepAndStranding | qtun/app.go:168-187 | only a finishing ping can strand a registration, and it does exactly when its address is free, unrouted and not being evicted |
| NoStranding.NeverStrandedExactly | qtun/app.go:51-68 | a run of the code never strands a registration if and only if every finishing ping met that guard |
| NoStranding.NothingStrandedOutsidePings | qtun/app.go:138-142 | with the sweep's route deletions outside ping handlers, every registered address is routed or about to be evicted, under every interleaving |
| NoStranding.SweepCanStrand | qtun/app.go:57-62 | a concrete run of the unlocked sweep that strands a new connection |
| QuietSweep.QuietSweepLeavesOnlyLive | qtun/app.go:54-65 | from any reachable state with no eviction in flight and the sweep kept out of pings, the sweep's steps alone come to an end, after three for each dead route, and leave exactly the registrations and routes of open connections |
| QuietSweep.SweepDoneExactly | qtun/app.go:57-62 | the sweep has no step left exactly when it holds no address and no route leads to a dead one |
| ExactInverse.StepAndInverse | transport/server.go:191-210 | only a finishing ping can make the two maps disagree, and it does exactly when it registers a free address for a connection that has one already |
| ExactInverse.AlwaysInverseExactly | transport/server.go:174-220 | a run of the code keeps the two maps inverses if and only if no finishing ping did that |
| ExactInverse.RunKeepsExactInverse | transport/server.go:174-220 | on runs with one address per connection, `Conns[a] == c` if and only if `ConnsReverse[c] == a` |
| ExactInverse.SecondAddressBreaksInverse | transport/server.go:202-203 | a concrete run, two pings with different addresses on one connection, that ends in maps that are not inverses |
| ExactInverse.CleanupLeaves | transport/server.go:212-220 | a cleanup leaves exactly those entries of its connection that its reverse entry does not name |
| ExactInverse.StaleEntrySurvives | transport/server.go:212-220 | a concrete run in which an address stays registered with a connection that is gone |
| ExactInverse.InverseForgetsCleaned | transport/server.go:212-220 | while the maps are inverses no cleaned-up connection is registered |
| Forwarding.SendsOnlyToFoundConnection | qtun/app.go:100-151 | under any interference a worker sends the packet of its last fetch, to a connection that its last step found open, under an address of the snapshot it took one step earlier; the packet joins that connection's accepted messages, unless the queue is closed, and no other's |
| Forwarding.EvictsOnlyFoundDead | qtun/app.go:133-142 | under any interference a worker evicts only the address that it has just taken from its packet's routes, found unregistered or closed and unrouted, each one step after the other |
| Forwarding.GivesUpOnlyUnrouted | qtun/app.go:102-129 | under any interference a worker gives a packet up only at a snapshot that finds no address, after every address it looked up for that packet was dead and has been evicted |
| WorkerAlone.WorkerAloneEnds | qtun/app.go:100-151 | on the step system, a worker left alone takes at most four steps for each address of its destination and four more; it takes only dead addresses away, and sends the packet, once and to a live one, if and only if there is one, and otherwise no address is left |
| WorkerAlone.HasOwnStep | qtun/app.go:100-151 | and until then it has a step to take, unless the mutex is held or the queue is full |
| Delivery.AcceptedAreDeliveries | transport/server_conn.go:215-226 | on every run a connection's accepted messages are exactly what the run's sends queued on it, in their order |
| Delivery.SendsHaveOwnFetch | qtun/app.go:143-149 | between two sends of a worker lies the fetch of what the second one sends, so no packet is sent twice |
| LateEviction.EvictionTooLate | qtun/app.go:133-142 | if a worker's eviction meets an open connection, a ping registered that address after the look-up of this eviction |
| LateEviction.SweepEvictionTooLate | qtun/app.go:57-62 | the same of the sweep's evictions |
| LateEviction.StepAndHands | qtun/app.go:168-187 | only a finishing ping can bring an open connection under an eviction, and it does exactly when it registers an open connection under an address about to be evicted |
| LateEviction.HandsAlwaysDeadExactly | qtun/app.go:133-142 | a run never has an eviction aimed at an open connection if and only if no finishing ping did that |
| LateEviction.EvictionHitsOpen | qtun/app.go:133-142 | a concrete run in which an eviction removes the registration of an open connection |
| LateEviction.SweepEvictionHitsOpen | qtun/app.go:57-62 | a concrete run in which the sweep does so |
| Progress.BlockedHasStep | transport/server_conn.go:215-277 | while a worker waits for a full queue, the connection's own goroutines have a step to take |
| Progress.BlockedProgress | transport/server_conn.go:215-277 | each such step unblocks the worker or lowers a rank of at most 48, which only the start of a ping handler on that connection raises, by one |
| Link.BlockedCanMove | transport/server_conn.go:253-277 | while the queue is full the writer has a step, or has finished with the stream closed and the flag set and the reader not yet stopped |
| Registry.OperationsKeepCoherence | transport/server.go:174-220 | each registry operation keeps coherence, and removal by pointer takes the connection out of the reverse map |
| Registry.OperationsSpareOthers | transport/server.go:174-220 | no operation hands an address over, and each removes only the entry it is about |
| Registry.SweepKeepsLiveness | qtun/app.go:54-65 | a sweep keeps every live entry and revives none |
| Registry.SweepIdempotent | qtun/app.go:54-65 | a second sweep changes nothing |
| Registry.SweepLeavesOnlyLive | qtun/app.go:54-65 | if every registered address is routed, exactly the live ones remain |
| Server.Server.GetConnsByAddr | transport/server.go:165-172 | the registered connection, or nil |
| Server.Server.DeleteDeadConn | transport/server.go:174-189 | both maps lose the address and its connection |
| Server.Server.SetConns | transport/server.go:191-210 | a free address is registered in both maps; a nil connection at a free address and a taken address change nothing; a streamless entry is stopped and dropped |
| Server.Server.RemoveConnByConnPointer | transport/server.go:212-220 | both maps lose the connection and the address its reverse entry names |
| Server.ServerConn.Write | transport/server_conn.go:215-226 | queues the message, or drops it when the queue is closed |
| Server.ServerConn.Stop | transport/server_conn.go:53-56 | raises the close signal and closes the queue, once |
| App.App.ServerOnData | qtun/app.go:159-197 | a ping adds its route and then registers, a packet goes to the TUN device, malformed data changes nothing, a too short packet panics |
| App.App.CleanRouteOf | qtun/app.go:55-64 | one route is left with exactly its live addresses, whatever the iteration order |
| App.App.CleanRoute | qtun/app.go:51-68 | an uninterrupted sweep leaves every route with exactly its live addresses, keeps the routes' keys, and removes exactly the dead routed addresses from the registry |
| App.App.ForwardPacket | qtun/app.go:100-151 | run alone the loop ends, sends the packet once if and only if some routed address is live, evicts only dead addresses, and otherwise leaves the route empty or absent |
| App.DeleteAllTwice | transport/server.go:174-189 | evicting dead addresses in two batches is evicting them in one, even when batches share addresses or connections |
| Frames.FrameLayout | transport/client_conn.go:230-280 | which byte of a frame is the flag, which two the length, low byte first, and where body and nonce lie |
| Frames.FrameRoundTrip | transport/server_conn.go:128-213 | a reader gets the message back and leaves what follows if and only if the body fits in the uint16 length |
| Frames.CutFrameIsShort | transport/client_conn.go:344-376 | a frame cut anywhere reads as a short stream |
| Frames.CutFrameError | transport/client_conn.go:344-376 | which error each cut gives, and where a reader without a key panics |
| Frames.DeliversExactly | transport/server_conn.go:128-161 | for all bytes, a message is delivered if and only if they start with a plain frame that holds it, or with a sealed one that the reader's cipher opens to it |
| Frames.RejectedFrameEnds | transport/server_conn.go:88-161 | a frame under another key ends the loop after the messages before it, and nothing of it is delivered |
| Frames.StreamRoundTrip | transport/client_conn.go:230-280 | the whole stream gives back the whole list of messages, then end of file |
| Frames.StreamCut | transport/server_conn.go:128-161 | a stream cut at any byte gives exactly the messages contained whole, then a short read |
| Frames.WholeFramesBounds | transport/server_conn.go:128-161 | how many messages are contained whole, given by the lengths of the encodings |
| FramePort.OutStream.Write | transport/server_conn.go:208-210 | the stream takes everything, a beginning, or nothing once closed |
| FramePort.Port.WriteFrame | transport/client_conn.go:230-280 | fills the reused buffer with exactly one frame and hands it to the stream |
| FramePort.Port.ReadFrame | transport/server_conn.go:128-161 | for any chunking the outcome is that of the flat decoder, the reader stands after the frame, and no length overruns the buffer |
| FramePort.Port.ReadLoop | transport/server_conn.go:88-113 | for any chunking the loop delivers exactly the flat decoder's messages |
| Streams.ChunkReader.ReadFullInto | transport/server_conn.go:142-145 | a full read gives the next bytes whatever pieces they arrive in, or tells an empty from a cut stream |
| Streams.ChunkReader.ReadFull | socks5/request.go:93-95 | the same into a fresh buffer |
| Envelope.EnvelopeRoundTrip | protocol/protocol.pb.go:102-145 | unmarshalling restores the oneof case and every field |
| Envelope.OneofSizer | protocol/protocol.pb.go:147-166 | the accumulated size is the length the marshaler emits |
| Envelope.EnvelopeMessage.OneofMarshaler | protocol/protocol.pb.go:102-121 | appends exactly the envelope's encoding |
| Envelope.EnvelopeMessage.OneofUnmarshaler | protocol/protocol.pb.go:123-145 | handles fields 1 and 2, refuses a wrong wire type, takes one length-delimited message off the input |
| EnvelopeExact.UnmarshalExactly | protocol/protocol.pb.go:123-145 | for all bytes: they are an envelope if and only if they are fields of which every number 1 and 2 holds a ping or a packet, and the last of those counts |
| EnvelopeExact.PingDecodesExactly | protocol/protocol.pb.go:168-173 | a ping is decoded if and only if its bytes are fields, and every field has its last value |
| EnvelopeExact.PacketDecodesExactly | protocol/protocol.pb.go:238-239 | the same for a packet |
| EnvelopeExact.FieldExactly | protocol/protocol.pb.go:123-145 | a field is split off if and only if the input starts with a key of a known wire type and its value |
| EnvelopeExact.VarintExactly | protocol/protocol.pb.go:123-145 | a varint is read if and only if the input starts with one, of at most ten bytes and 64 bits |
| Envelope.PingLayout | protocol/protocol.pb.go:168-173 | for every ping: the field number and wire type of the envelope and of each field, in order, zero values left out |
| Envelope.PacketLayout | protocol/protocol.pb.go:238-239 | the same for every packet |
| Envelope.PacketLength | protocol/protocol.pb.go:156-160 | the length of a packet's envelope in terms of its payload |
| Wire.VarintRoundTrip | protocol/protocol.pb.go:107-112 | a varint reads back as its number and leaves what follows |
| SizeBound.PacketFits | transport/client.go:203-210 | an enveloped packet fits in a frame if and only if it has at most 65511 bytes with a key, 65527 without |
| SizeBound.PacketCrossesTunnel | transport/client_conn.go:245-261 | a packet arrives as it was sent, with the stream in step, exactly within that bound |
| Scheduler.Balanced | transport/client.go:127-132 | until the `int` of the counter wraps, any n consecutive writes give each connection n/T, rounded down or up |
| Scheduler.InterleavingBalanced | transport/client.go:127-132 | so they do under any interleaving of callers |
| Scheduler.IndexInRange | transport/client.go:128-130 | a write finds its slot if and only if `int(serial)`, of 32 or 64 bits, is not negative or leaves no remainder, and then that is the slot with its remainder |
| Scheduler.WritesSucceedExactly | transport/client.go:128-130 | all of the next n writes find their slot if and only if there is one slot, or the counter stays below 2^31 or 2^63, or just reaches it and the number of slots divides it |
| Scheduler.WrappedIndexFails | transport/client.go:128-130 | with 32 bits counter 0x80000001 indexes two slots with -1 and 0x80000000 three slots with -2; with 64 bits three slots fail at 2^63 |
| Scheduler.RoundReachesEveryone | transport/client.go:167-176 | with all connections present every connection carries exactly one ping of a round |
| Scheduler.LaterRound | transport/client.go:167-210 | a later round assigns every address to the carrier it had if and only if the writes since, pings and packets, fill whole turns over the slots, whatever slots are empty |
| Scheduler.RoundsRepeatExactly | transport/client.go:59-67 | with no packets in between and until the `int` wraps, every later round does so if and only if all slots are present, or none is |
| Scheduler.EmptySlotShifts | transport/client.go:59-67 | with one of three slots empty a connection carries one address in a round and another in the next |
| Scheduler.PacketShifts | transport/client.go:203-209 | with both slots present and one packet between two rounds it does so too |
| Scheduler.RoundBeforeWrap | transport/client.go:167-176 | until the `int` of the counter wraps, what `SendAllPing` does is that round |
| Scheduler.PingUnmarshals | transport/client.go:178-201 | the server reads a ping as the announced connection's address, the client's IP, the time and the two fixed texts |
| Scheduler.Client.Write | transport/client.go:127-132 | the counter moves on by one, and the slot of its `int` gets the message, or the index is out of range and it panics |
| Scheduler.Client.SendAllPing | transport/client.go:167-201 | a round announces every occupied slot in order, each ping on the slot the counter selects and with that connection's address and the client's IP as the server will read them, up to a panic of a wrapped `int` |
| SocksAddress.ReplyRoundTrip | socks5/request.go:256-350 | the address part of a reply reads back as the address shown, and consumes nothing after it, if and only if name length and port are in range; the server itself only replies with no address or a TCP address, which is |
| SocksAddress.ReplyLayout | socks5/request.go:307-350 | every reply byte for byte: the type each kind of address gets, an IPv4-mapped one as four bytes, and when there is none |
| SocksAddress.EmptyReplyRoundTrip | socks5/request.go:313-316 | a reply without an address reads as 0.0.0.0:0 |
| SocksAddress.ParseAddrComplete | socks5/request.go:256-304 | every address section 5 of RFC 1928 lets a client write is read back |
| SocksAddress.ParseAddrSound | socks5/request.go:256-304 | nothing else is accepted |
| SocksAddress.ReadAddrSpec | socks5/request.go:256-304 | for any chunking the result and the unread rest are those of the flat parser |
| SocksAddress.FormatReply | socks5/request.go:307-350 | the message buffer holds exactly the reply, or there is a formatting error |
| SocksMessages.ParseLoginComplete | socks5/auth.go:66-94 | every login of section 2 of RFC 1929 is read back |
| SocksMessages.ParseLoginSound | socks5/auth.go:66-94 | nothing else is accepted |
| SocksMessages.ParseRequestComplete | socks5/request.go:90-116 | every request of section 4 of RFC 1928 is read back |
| SocksMessages.ParseRequestSound | socks5/request.go:90-116 | nothing else is accepted, except that the reserved byte is ignored |
| SocksMessages.ReadMethods | socks5/auth.go:141-151 | for any chunking, the offered methods and the unread rest |
| SocksMessages.ReadLogin | socks5/auth.go:66-94 | for any chunking, the login and the unread rest |
| SocksMessages.NewRequest | socks5/request.go:90-116 | for any chunking, the request and the unread rest |
| SocksSession.FirstSupportedIsFirst | socks5/auth.go:120-129 | the method used is the client's first supported offer; there is none exactly when offers and table are disjoint |
| SocksOrder.DialExactly | socks5/socks5.go:121-169 | the server dials an address if and only if the input is version, offer, valid login where asked for, and an allowed CONNECT request to it, and its answers went through |
| SocksOrder.DestinationExactly | socks5/request.go:119-138 | rules and rewriter see the request's address, or its name with the address it resolved to |
| SocksOrder.DialShape | socks5/request.go:159-213 | one dial at most, right after the rules allowed it and with every earlier write through, and proxying only after the success reply went through |
| SocksOrder.OneReply | socks5/request.go:119-251 | every parsed request gets exactly one reply, with the code its path dictates |
| SocksOrder.SessionReplies | socks5/socks5.go:121-169 | over a whole session with a good opening and a request: the method selection, the login's status where one was asked for, and that one reply |
| SocksOrder.CodeNumbers | socks5/request.go:124-251 | the code in numbers for each answer of resolver, rules and dial |
| SocksOrder.SessionActions | socks5/request.go:119-213 | the name is resolved if there is one, the rules are asked about known commands, and data is proxied if and only if a success reply went through |
| SocksOrder.UnreadableReplies | socks5/socks5.go:147-157 | a request that cannot be read is answered only for an unknown address type, with code 8 |
| SocksOrder.ReplyMissingExactly | socks5/request.go:333-335 | it goes without one exactly when the dialled address has neither 4 nor 16 bytes |
| SocksOrder.RefusalExactly | socks5/auth.go:113-137 | 0xFF is sent if and only if a complete offer has no supported method, and then nothing else happens |
| SocksOrder.BadLoginExactly | socks5/auth.go:96-106 | the failure status is sent if and only if a complete login is rejected, and then nothing is resolved, asked or dialled |
| SocksOrder.AuthenticateComplete | socks5/auth.go:60-130 | a good opening authenticates and leaves exactly the rest |
| SocksOrder.AuthenticateSound | socks5/auth.go:60-130 | only a good opening authenticates |
| SocksServer.Server.New | socks5/socks5.go:61-97 | the method table is filled from the configured or default authenticators and is never empty |
| SocksServer.LastAuthenticatorWins | socks5/socks5.go:92-94 | the last authenticator with a code is in force |
| SocksServer.EntryIsLast | socks5/socks5.go:92-94 | every entry of the table is the last of its code |
| SocksServer.Server.RunAuthentication | socks5/auth.go:113-130 | for any chunking, the flat negotiation's actions and unread rest |
| SocksServer.Server.ServeConn | socks5/socks5.go:121-169 | for any chunking, exactly the flat session's actions, with proxying from the first byte after the request |
| Pac.FindProxyForURL | static/proxy.pac:5257-5275 | the loop ends and answers proxy if and only if the host or the text after a scanned dot is listed |
| Pac.HaltsExactly | static/proxy.pac:5257-5275 | the loop ends if and only if the host does not start with a dot or has a listed suffix |
| Pac.LoopsForever | static/proxy.pac:5257-5275 | otherwise no number of rounds gives an answer |
| Pac.DottedHostLoops | static/proxy.pac:5257-5275 | the host ".a" with nothing listed is such a host |
| Pac.OrdinaryHost | static/proxy.pac:5257-5275 | for a host not starting with a dot, a scanned dot is any dot but the last |

## Left out

- Server.ServerConn.Write: does not block on a full queue; the bound of two and the blocking are part of the step system.
- FramePort.Port.ReadFrame: a plain message is returned as a value; the code returns a slice of the read buffer that the next read overwrites.
- Envelope.EnvelopeRoundTrip: strings are bytes, without the UTF-8 check, and an encoding has fewer than 2^64 bytes, as every Go slice has.
- Envelope.EnvelopeMessage.OneofUnmarshaler: the generated functions are modelled; the library version in `go.mod` (v1.5.2) decodes through its own tables, which skip a wrong wire type as an unknown field and merge a repeated oneof message. What a message holds after a failed decoding is left open; groups (wire types 3 and 4) read as malformed.
- SocksServer.Server.New: the defaults for resolver, rules, rewriter and dialer enter a session as arbitrary functions; the logger's is left out.
- RegistrySafety.QueuedOnlyWhenReady: `makeAES128GCM` is a step that succeeds or fails; MD5, AES-GCM and nonce generation are not part of this model.
- Go's memory model: unlocked reads in `GetConnsByAddr`, `IsClosed` and the sweep are atomic steps; the runtime's abort on concurrent map access is not modelled.
- The step system's sweep visits routes one at a time in any order and any number of times, which includes every order Go's map iteration can take.
- How a dialled address is written as text: the code prefers the IP address to the name and leaves the rest to the library.
- Custom SOCKS5 authenticators, resolvers, rewriters and dialers beyond what the session observes of them; the byte pump after the reply; `PermitCommand` and `StaticCredentials` are instances of the arbitrary rules and credentials.
- QUIC sessions, TLS certificates, the TUN device, routes and proxy settings of the operating system, the file server, the command line, logging, timers.
- Client reconnection and `GetConnPort`: they depend on library timing and address formats.
- `transport/pool.go`, `utils`, `config`, generated getters, and the list of domains in the PAC file: only easy properties.
