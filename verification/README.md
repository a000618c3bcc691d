# Verified models of a media relay

Dafny models of the algorithms at the heart of Karl, a media relay for SIP calls: packet reordering, loss
recovery, SDP rewriting, port and session bookkeeping, rate limiting and RTCP. Each model follows the Go
code branch by branch; the theorems are about all inputs and all runs. Where a promise fails for some
inputs, the code is modelled as it is, a lemma gives a concrete input, and another proves exactly when the
promise holds.

| files | what they model |
|---|---|
| `SequenceNumbers`, `PacketHeap`, `JitterBuffer`, `JitterRuns` | the jitter buffer: circular sequence numbers, the indexed heap, playout order and counters over every run |
| `FecCodec`, `FecDecoder`, `FecRuns`, `FecHandler`, `FecWire` | XOR forward error correction: recovery is exact over every run, block partition, wire format |
| `SdpText`, `Sdp`, `SdpWellFormed`, `SdpRoundTrip`, `SdpListener` | SDP parsing and answering: what survives print and parse, when a second pass is the identity |
| `PortSpec`, `PortRuns`, `PortAllocator` | the port allocator, one call after another: exclusivity, limits, reuse delay, pair scan |
| `PortThreads`, `PortAlone`, `PortPlaces`, `PortReleases`, `PortDelays`, `PortRaces`, `PortReuse` | the port allocator as interleaved threads with shard locks: waiting, limits, exclusivity, counters, reuse delay, and the runs that break them |
| `PortReallocation` | cluster port reallocation: inverse maps, rollback, the hash-offset probe |
| `HashRing`, `SessionRouter`, `RouterThreads` | the consistent-hash ring and the session router: minimal disruption, load accounts, and the same for interleaved calls |
| `Takeover`, `TakeoverThreads` | session takeover after a node leaves, as interleaved survivors, with its port handling, alone and among other workers |
| `TokenBucket`, `RateLimiter`, `RateLimiterThreads` | token buckets, invisible eviction, the rate bound of the whole limiter, its counters under interleaved calls |
| `RtcpFraming` | compound RTCP packets: bytes, framing, round trip |
| `Backpressure` | lock-free admission as interleaved atomic steps: the bound, and when waiters are woken |
| `ReceiverStats` | extended sequence numbers and the loss count |
| `Basics` | what the models share |

A specification module holds the value-level functions; classes in the source become classes whose methods
are proved equal to those functions on their `View()`; runs are folds of the functions over event sequences.
Time, network binding, hash functions, map iteration order, and the success of encoding and storing are
parameters. A method that holds one mutex throughout is one step. The port allocator, the session router and
the rate limiter hold their locks only for parts of a call; they are modelled twice, with whole calls as
steps, and with every locked section and atomic operation of any number of threads as a step, and a call
that nothing overlaps is proved to be the same in both. In `Backpressure` the closed flag, the load of the
size, the check, each addition and each channel operation are steps; the load of `Acquire` whose value
`acquireBlocking` does not use is left out. `dafny verify dfyconfig.toml` checks the whole project.

Where code and comments disagree the model follows the code. `Flush` counts dropped packets after emptying
the heap, so it never counts any. `uint16(seqCycles*65536)` is always zero, so the loss count forgets every
wrap. `maybeBlockIP` counts a block unconditionally, and `isBlocked` uncounts one without looking again; the
count stays right while calls for one address do not overlap. The two shard locks of a pair are said to be
taken in order; they are only for even ports. The retries of `allocatePort` probe the same ports again.

## Model

| member | source | states |
|---|---|---|
| `SequenceNumbers.AheadIsModular` | internal/jitter_buffer.go:120-124 | the circular distance from a to b is (b - a) modulo 2^16 |
| `SequenceNumbers.SeqLessByRank` | internal/jitter_buffer.go:119-124 | within half the circle of a base, seqLess compares distances from the base, so it is a strict order there |
| `SequenceNumbers.SeqLessIsNotTransitive` | internal/jitter_buffer.go:119-124 | a concrete cycle: without the window seqLess is not an order |
| `PacketHeaps.RootIsOldest` | internal/jitter_buffer.go:91-117 | in a heap ordered by distance from the playout position no packet is older than the root |
| `PacketHeaps.RootIsOldestOfAll` | internal/jitter_buffer.go:109-117 | the root's sequence number is the oldest of all buffered ones |
| `PacketHeaps.UpStep` | internal/jitter_buffer.go:91-107 | one sift-up swap moves the single possible heap violation one level up |
| `PacketHeaps.DownStep` | internal/jitter_buffer.go:91-117 | one sift-down swap with the smaller child moves the violation one level down |
| `PacketHeaps.DownStop` | internal/jitter_buffer.go:91-117 | sift-down may stop when the smaller child is not smaller |
| `PacketHeaps.Rebase` | internal/jitter_buffer.go:91-124 | a heap stays ordered when the playout position moves past no buffered packet |
| `PacketHeaps.PacketHeap.Less` | internal/jitter_buffer.go:95 | compares two slots by seqLess, which inside the window is comparing distances |
| `PacketHeaps.PacketHeap.Swap` | internal/jitter_buffer.go:96-100 | exchanges two slots and keeps every index field equal to its slot |
| `PacketHeaps.PacketHeap.Up` | internal/jitter_buffer.go:91-107 | restores heap order upward, permuting the slots and keeping the indices |
| `PacketHeaps.PacketHeap.SmallerChild` | internal/jitter_buffer.go:91-117 | picks the child that no other child of the slot precedes |
| `PacketHeaps.PacketHeap.Down` | internal/jitter_buffer.go:91-117 | restores heap order downward, permuting the slots and keeping the indices |
| `PacketHeaps.PacketHeap.Push` | internal/jitter_buffer.go:102-107 | heap.Push: adds exactly the packet and keeps heap order and indices |
| `PacketHeaps.PacketHeap.Pop` | internal/jitter_buffer.go:109-117 | heap.Pop: returns the root, leaves a heap of exactly the others |
| `PacketHeaps.PacketHeap.Remove` | internal/jitter_buffer.go:96-117 | heap.Remove: takes out the packet at any index, leaves a heap of exactly the others |
| `JitterBuffers.JitterBuffer.constructor` | internal/jitter_buffer.go:158-175 | an empty, uninitialised buffer |
| `JitterBuffers.JitterBuffer.ContentsInWindow` | internal/jitter_buffer.go:183-321 | in a valid buffer the map has one entry per heap packet, keyed by its number, each less than 2^15 ahead of nextExpected |
| `JitterBuffers.JitterBuffer.OldestIsRoot` | internal/jitter_buffer.go:249-321 | the heap root is the oldest entry of the map |
| `JitterBuffers.JitterBuffer.IndexIsPosition` | internal/jitter_buffer.go:249-321 | each mapped packet's index field is its heap position, so heap.Remove takes out the right one |
| `JitterBuffers.JitterBuffer.Push` | internal/jitter_buffer.go:183-246 | duplicate, late, overflow and reorder branches; the new state and answer are those of the specification |
| `JitterBuffers.JitterBuffer.Store` | internal/jitter_buffer.go:210-246 | drops the oldest packet when full, then inserts; counts drops and reorderings |
| `JitterBuffers.JitterBuffer.Pop` | internal/jitter_buffer.go:249-321 | plays the expected packet, or after the maximum delay the oldest one, else nothing; the new state is the specification's |
| `JitterBuffers.JitterBuffer.PopBatch` | internal/jitter_buffer.go:338-350 | repeated pops up to the first that yields nothing |
| `JitterBuffers.JitterBuffer.Flush` | internal/jitter_buffer.go:391-402 | empties the buffer; dropped does not grow, since it is computed after emptying |
| `JitterBuffers.JitterBuffer.Reset` | internal/jitter_buffer.go:405-424 | empties the buffer and zeroes the counters; the next packet starts playout again |
| `JitterRuns.PopBatchStepIsPopBatch` | internal/jitter_buffer.go:338-350 | the observed batch step is PopBatch of the specification |
| `JitterRuns.RunKeepsInv` | internal/jitter_buffer.go:183-424 | every reachable state keeps window, playout order and counter balance together |
| `JitterRuns.WindowInEveryState` | internal/jitter_buffer.go:119-124 | in every reachable state each buffered packet is 0..32767 ahead of nextExpected, so seqLess is a strict total order on the contents, and size is at most MaxSize |
| `JitterRuns.PlayoutInOrder` | internal/jitter_buffer.go:249-350 | over any run between resets the unwrapped numbers of popped packets strictly increase, with gaps of at most 2^15, across wraparound |
| `JitterRuns.FlushedCount` | internal/jitter_buffer.go:391-402 | flush discards nothing exactly when every flush finds the buffer empty |
| `JitterRuns.Conservation` | internal/jitter_buffer.go:183-402 | packetsIn = out + dropped + late + duplicates + size + flushed always; without the flushed term exactly when every flush found the buffer empty |
| `JitterRuns.RunTracks` | internal/jitter_buffer.go:183-350 | for senders within half the circle of playout, each buffered packet's sender number is its unwrapped position |
| `JitterRuns.PlayoutFollowsSender` | internal/jitter_buffer.go:183-350 | for senders whose packets arrive within half the circle of the playout position: every popped packet was pushed, and popped packets come in strictly increasing sender numbers, without duplicate or reordering; JitterRuns.OutOfReachOvertakes shows the condition needed |
| `JitterRuns.OutOfReachOvertakes` | internal/jitter_buffer.go:183-350 | a concrete run with one arrival out of reach that plays packet 65537 before packet 2 |
| `JitterSpec.NeverPopsEmptyIff` | internal/jitter_buffer.go:210-217 | no Push takes a packet from an empty heap, if and only if MaxSize is at least one; otherwise the first Push does |
| `FecCodec.AbsorbCommutes` | internal/fec_handler.go:144-187 | XOR accumulation of payload, length, timestamp and payload-type byte does not depend on the order of two packets |
| `FecCodec.AbsorbTwice` | internal/fec_handler.go:237-294 | absorbing a packet twice cancels it |
| `FecCodec.AbsorbAnyOrder` | internal/fec_handler.go:237-294 | accumulating the same packets in any order gives the same sums, so map iteration order is irrelevant |
| `FecCodec.ReadBack` | internal/fec_handler.go:276-294 | a packet is read back from its own sums bit for bit if and only if its payload type is below 128 and its payload below 65536 bytes |
| `FecCodec.RecoverMissing` | internal/fec_handler.go:144-294 | the sums of a block with all other packets cancelled out, in any order, give exactly the missing packet, if and only if that packet has a payload type below 128 and a payload below 65536 bytes |
| `FecDecoder.RebuildAnyOrder` | internal/fec_handler.go:237-294 | recovery of one missing packet gives the same result for every visiting order of the received map |
| `FecDecoder.RebuildIsExact` | internal/fec_handler.go:237-294 | for a sound block the rebuilt packet is the sender's, and the slice never goes out of range |
| `FecDecoder.TryRecoverSound` | internal/fec_handler.go:237-294 | with one missing packet it is recovered, stored and the block completed; otherwise nothing changes |
| `FecDecoder.NewBlockSound` | internal/fec_handler.go:205-234 | splitting the protected numbers into received and missing makes a sound block |
| `FecDecoder.RefreshSound` | internal/fec_handler.go:297-326 | moving newly received numbers out of the missing list keeps the block sound |
| `FecDecoder.ReceiveFecSound` | internal/fec_handler.go:205-234 | an honest FEC packet keeps the decoder sound; one missing packet is recovered at once, otherwise none is |
| `FecDecoder.VisitSound` | internal/fec_handler.go:297-326 | visiting one block: recovers it if at most one number is missing, leaves other blocks alone, expires only old blocks |
| `FecDecoder.PassSound` | internal/fec_handler.go:297-326 | a pass over any order of blocks keeps soundness and every received packet |
| `FecDecoder.PassKeeps` | internal/fec_handler.go:297-326 | what an initial part of the pass recovered or settled is kept by the rest of the pass |
| `FecDecoder.PassRecovers` | internal/fec_handler.go:297-326 | in whatever order blocks are visited, a block with at most one missing number is recovered by the pass |
| `FecDecoder.ReceiveMediaSound` | internal/fec_handler.go:190-202 | receiving a sender's packet keeps the decoder sound and holds the packet |
| `FecEncoder.AddKeepsSettings` | internal/fec_handler.go:118-141 | a disabled encoder does nothing; after an add the block is shorter than BlockSize |
| `FecEncoder.RunPartitions` | internal/fec_handler.go:118-187 | over any run of adds and block-size changes, emitted blocks followed by the current block are the packets added |
| `FecEncoder.EncoderPartition` | internal/fec_handler.go:118-187 | the protected numbers emitted so far followed by the current block are the numbers added in order; each SequenceBase is its block's first number |
| `FecRuns.RunIsExact` | internal/fec_handler.go:190-326 | over every run from one sender stream, each held packet, received or recovered, equals the sender's bit for bit, and nothing panics |
| `FecRuns.QuietStep` | internal/fec_handler.go:190-337 | a media packet that evicts nothing recovers every block that lacked one packet, keeping earlier progress |
| `FecRuns.SettleYield` | internal/fec_handler.go:297-326 | after a pass a number that was a block's only missing one is received |
| `FecRuns.ChainsAreRecovered` | internal/fec_handler.go:190-337 | chained recoveries: after n further packets, none of which evicts a held packet or block, everything obtainable by n rounds of single recoveries is held |
| `FecRuns.HeldIff` | internal/fec_handler.go:190-337 | after every run a packet is held, if and only if it arrived or was recovered and no later arrival lies more than 256 ahead of it on the circle |
| `FecRuns.OlderEvictsNewer` | internal/fec_handler.go:329-337 | a packet that arrives just after its successor evicts it |
| `FecRuns.HeldIsReachable` | internal/fec_handler.go:190-326 | over every run nothing is held beyond the arrivals and their peeling closure: every set of numbers that has the arrivals and is closed under completing a protected group has all that is held |
| `FecRuns.SentIsHonest` | internal/fec_handler.go:118-187 | every FEC packet the encoder emits describes packets of its own stream |
| `FecRuns.EndToEnd` | internal/fec_handler.go:118-326 | whatever subset of an encoder run's media and FEC packets arrives, in any order and repetition, the decoder holds only the sender's packets and never panics |
| `FecWire.Layout` | internal/fec_handler.go:468-520 | where each field of a serialised packet lies |
| `FecWire.DeserializeSerialize` | internal/fec_handler.go:468-575 | deserialising a serialised packet, with any bytes after it, gives it back exactly when it has fewer than 65536 protected numbers and payload bytes |
| `FecWire.SerializeDeserialize` | internal/fec_handler.go:523-575 | for every accepted input, serialising the result gives the prefix the header lengths delimit |
| `FecWire.SerializeFECPacket` | internal/fec_handler.go:468-520 | the buffer filled by offsets is the wire form |
| `FecWire.DeserializeFECPacket` | internal/fec_handler.go:523-575 | the offset-by-offset reader is the specification, including all its length errors |
| `FecHandlers.XorInto` | internal/fec_handler.go:164-181 | XORs a payload into the accumulator in place, leaving the rest |
| `FecHandlers.FecHandler.AddMediaPacket` | internal/fec_handler.go:118-141 | appends to the block, emits and clears it when full; the whole new encoder state |
| `FecHandlers.FecHandler.GenerateFECPacket` | internal/fec_handler.go:144-187 | the accumulated arrays are the sums of the specification; none for an empty block |
| `FecHandlers.FecHandler.Cancel` | internal/fec_handler.go:249-274 | XORing received packets out in map order gives the specification's rebuild |
| `FecHandlers.FecHandler.TryRecoverPackets` | internal/fec_handler.go:237-294 | recovery in place, with the out-of-range slice reported as a panic |
| `FecHandlers.FecHandler.ReceiveFECPacket` | internal/fec_handler.go:205-234 | the new decoder state and the recovered packets are the specification's |
| `FecHandlers.FecHandler.CleanupOldPackets` | internal/fec_handler.go:329-337 | keeps exactly the packets at most the window behind |
| `FecHandlers.FecHandler.VisitBlock` | internal/fec_handler.go:297-326 | one iteration of the block loop, with expiry |
| `FecHandlers.FecHandler.TryCompleteBlocks` | internal/fec_handler.go:297-326 | the loop over blocks in some order equals the specification's pass in that order |
| `FecHandlers.FecHandler.ReceiveMediaPacket` | internal/fec_handler.go:190-202 | store, clean up, complete: the specification's step |
| `FecHandlers.FecHandler.SetBlockSize` | internal/fec_handler.go:441-453 | clamps the size to 2..100 and keeps the current block |
| `FecHandlers.FecHandler.Reset` | internal/fec_handler.go:456-465 | empties encoder and decoder |
| `SdpText.PiecesOfJoin` | internal/ng_socket_listener.go:1172-1235 | splitting at a separator distributes over joining at it |
| `SdpText.SplitRender` | internal/ng_socket_listener.go:1172-1198 | splitting rendered lines gives the lines back, even ones that end in a carriage return |
| `SdpText.JoinOfSplit` | internal/ng_socket_listener.go:1223-1235 | joining the pieces of splitBy with the separator gives the text back, and no piece contains it |
| `SdpText.FieldsOfJoin` | internal/ng_socket_listener.go:1200-1221 | the fields of two texts joined by white space are the fields of both |
| `SdpText.FieldsOfToken` | internal/ng_socket_listener.go:1200-1221 | a white-space-free token is its own only field |
| `SdpText.IndexOfFirst` | internal/ng_socket_listener.go:1237-1244 | indexOf gives the first occurrence or -1 |
| `SdpNumbers.ParsePrinted` | internal/ng_socket_listener.go:1250-1276 | parseInt of intToString of n is n for 0 <= n < 2^63, with 64-bit wrap-around written out |
| `SdpListener.SplitSDPLines` | internal/ng_socket_listener.go:1172-1198 | the index loop computes the line split of the specification |
| `SdpListener.SplitTextFields` | internal/ng_socket_listener.go:1200-1221 | the index loop computes the field split of the specification |
| `SdpListener.SplitBySlash` | internal/ng_socket_listener.go:1223-1235 | the index loop computes the slash split of the specification |
| `SdpListener.ParseDecimal` | internal/ng_socket_listener.go:1250-1260 | the digit loop, which stops at the first other character, in 64-bit arithmetic |
| `SdpListener.FormatDecimal` | internal/ng_socket_listener.go:1262-1276 | the digit loop and the in-place reversal print the number |
| `SdpListener.ReverseInPlace` | internal/ng_socket_listener.go:1262-1276 | reverses an array in place |
| `SdpListener.Parser.SetCodecFmtp` | internal/ng_socket_listener.go:948-959 | sets the fmtp of the first codec with the payload type |
| `SdpListener.Parser.ParseSDPAttribute` | internal/ng_socket_listener.go:918-993 | every attribute branch updates the parsed fields as specified |
| `SdpListener.Parser.ParseMediaValue` | internal/ng_socket_listener.go:892-904 | the media line: type, port, protocol and payload types; ignored when short |
| `SdpListener.Parser.FillStaticCodecs` | internal/ng_socket_listener.go:996-1016 | adds the static codecs for payload types that have none |
| `SdpListener.ParseSDP` | internal/ng_socket_listener.go:862-915 | the line loop computes the parser of the specification |
| `SdpListener.ChooseProtocol` | internal/ng_socket_listener.go:1146-1169 | flags in order, then the parsed features |
| `SdpListener.BuildResponseSDP` | internal/ng_socket_listener.go:1019-1143 | the appended answer is the rendered lines of the specification |
| `SdpWellFormed.ParsedIsWellFormed` | internal/ng_socket_listener.go:862-1016 | for every text, the parsed fields are clean tokens, a codec with an fmtp is the first of its payload type, and numbers are in range |
| `SdpRoundTrip.RtpmapReadsBack` | internal/ng_socket_listener.go:928-946 | a printed rtpmap parses back to the codec, with fewer than one channel read as one |
| `SdpRoundTrip.FmtpReadsBack` | internal/ng_socket_listener.go:948-959 | a printed fmtp sets the same parameters again |
| `SdpRoundTrip.CryptoReadsBack` | internal/ng_socket_listener.go:976-985 | a printed crypto line gives back suite and key |
| `SdpRoundTrip.AllCodecLinesParse` | internal/ng_socket_listener.go:1072-1093 | the printed codec lines parse back to the codec list with fmtp |
| `SdpRoundTrip.MediaLineParses` | internal/ng_socket_listener.go:1057-1070 | the printed media line parses back, and is ignored when there are no codecs |
| `SdpRoundTrip.HeaderLinesParse` | internal/ng_socket_listener.go:1028-1070 | the session lines parse back to connection address, media type, port and protocol |
| `SdpRoundTrip.TailLinesParse` | internal/ng_socket_listener.go:1095-1143 | direction, mux, ICE, DTLS and crypto lines parse back to what was printed |
| `SdpRoundTrip.ParseOfBuild` | internal/ng_socket_listener.go:862-1143 | parsing the printed answer gives every field as computed, for all well-formed parses |
| `SdpRoundTrip.ProtocolAgain` | internal/ng_socket_listener.go:1146-1169 | the protocol chosen from the reparsed answer is the same exactly when there are codecs or the protocol does not depend on lost fields |
| `SdpRoundTrip.HeaderAgain` | internal/ng_socket_listener.go:1028-1070 | the header is printed identically again, if and only if a codec-less answer said only the defaults |
| `SdpRoundTrip.TailAgain` | internal/ng_socket_listener.go:1095-1143 | the rest is printed identically again when a setup line has its fingerprint, and otherwise loses exactly one line |
| `SdpRoundTrip.BuildAgain` | internal/ng_socket_listener.go:862-1143 | print, parse, print is the identity on the text if and only if Stable, a condition on the parsed fields and flags |
| `SdpRoundTrip.AnswerIsRecovered` | internal/ng_socket_listener.go:862-1169 | for every SDP text: media type, port, protocol, direction and mux are recovered, and the codec list exactly when all channel counts are at least one |
| `SdpRoundTrip.SecondPass` | internal/ng_socket_listener.go:862-1169 | for every SDP text a second pass with the same address, port and flags yields the identical SDP if and only if Stable |
| `SdpRoundTrip.SetupLineIsLost` | internal/ng_socket_listener.go:1119-1131 | a concrete SDP whose setup line is gone after the second pass |
| `SdpRoundTrip.ZeroChannelsAreLost` | internal/ng_socket_listener.go:928-946 | a concrete codec with zero channels that is not recovered from the answer |
| `SdpRoundTrip.BareVideoIsLost` | internal/ng_socket_listener.go:1057-1070 | a concrete video line without known codecs whose answer reads as audio and is not reproduced |
| `PortSpec.NewIsValid` | internal/port_allocator.go:104-141 | a new allocator satisfies the invariant |
| `PortRuns.ScanPairsIsFirst` | internal/port_allocator.go:325-351 | a pair scan returns the first free pair of its parity, or none is free |
| `PortRuns.FoundPair` | internal/port_allocator.go:325-351 | a found pair is in range, free, and even-aligned under EvenOnly |
| `PortRuns.NoPairIffAllBlocked` | internal/port_allocator.go:325-351 | with EvenOnly the wrapped scan fails exactly when every aligned pair with rtp at most MaxPort - 2 is blocked |
| `PortRuns.AllocatePairFailsIff` | internal/port_allocator.go:284-322 | with EvenOnly a pair is refused exactly when the session is at its limit, or the pool is empty and every aligned pair is blocked |
| `PortRuns.DelayEndsIff` | internal/port_allocator.go:186-215 | a port leaves the reuse delay exactly when its time is over |
| `PortRuns.ScanPortsIsFirst` | internal/port_allocator.go:544-581 | the single-port scan returns a free port of its stride, or none is free |
| `PortRuns.NoPortIffBlockedAbove` | internal/port_allocator.go:529-585 | the single-port scan fails exactly when every port from the hint up is blocked |
| `PortRuns.AllocatePairKeeps` | internal/port_allocator.go:284-322 | allocating a pair keeps the invariant; the pair is in range, unowned and not in its reuse delay |
| `PortRuns.AllocateBoundKeeps` | internal/port_allocator.go:529-585 | allocating a bound port keeps the invariant; the port was free |
| `PortRuns.RefillKeeps` | internal/port_allocator.go:162-183 | refilling keeps the invariant and the owned ports, and pools no port in its reuse delay |
| `PortRuns.CleanKeeps` | internal/port_allocator.go:186-215 | forgetting ports whose delay is over keeps the invariant |
| `PortRuns.ReleaseKeepsIff` | internal/port_allocator.go:588-630 | releasing keeps the invariant if and only if the port is unallocated or belongs to a named session |
| `PortRuns.ReleaseAllFrees` | internal/port_allocator.go:633-648 | releasing a list frees exactly those ports and stamps their release time |
| `PortRuns.ReleaseSessionKeepsIff` | internal/port_allocator.go:633-648 | releasing a session keeps the invariant if and only if it has a name or owns nothing |
| `PortRuns.NamelessSessionLeaks` | internal/port_allocator.go:633-648 | a concrete allocation for the nameless session whose release breaks the invariant |
| `PortRuns.ApplyKeeps` | internal/port_allocator.go:162-648 | calls that do not overlap: every safe step keeps the invariant; ports handed out were unowned and not delayed; owned ports change by exactly those handed out and freed |
| `PortRuns.StepKeepsDelay` | internal/port_allocator.go:186-215 | calls that do not overlap: no port is handed out before its reuse delay is over; overlapping calls are PortDelays.DelayIsKept |
| `PortRuns.RunKeepsInv` | internal/port_allocator.go:104-648 | over every run of calls that do not overlap: allocated = pooled + session-owned, each owned port in exactly one list, no session above its limit, currentInUse = allocated - released = number owned |
| `PortRuns.HandedOutExclusively` | internal/port_allocator.go:284-648 | over every run of calls that do not overlap a port handed out is owned by nobody and past its reuse delay; overlapping calls are PortPlaces.ObtainsFreePorts and PortDelays.DelayIsKept |
| `PortRuns.ReleasingPooledPortBreaks` | internal/port_allocator.go:588-630 | a concrete pooled port whose release breaks the invariant |
| `PortAllocators.PortAllocator.constructor` | internal/port_allocator.go:104-141 | the starting state and hint |
| `PortAllocators.PortAllocator.TryReservePortPair` | internal/port_allocator.go:354-413 | reserves both ports exactly when both are free, in a call that nothing overlaps; the two shard locks are steps of PortThreads |
| `PortAllocators.PortAllocator.FindAvailablePortPair` | internal/port_allocator.go:325-351 | the two scan loops compute the specified pair and move the hint |
| `PortAllocators.PortAllocator.RefillPool` | internal/port_allocator.go:162-183 | the refill loop computes the specified state |
| `PortAllocators.PortAllocator.RecordAllocation` | internal/port_allocator.go:494-526 | owner, session list and counters |
| `PortAllocators.PortAllocator.AllocatePortPair` | internal/port_allocator.go:284-322 | pool first, else scan; limit and exhaustion errors; the whole new state |
| `PortAllocators.PortAllocator.AllocateWithConnection` | internal/port_allocator.go:529-585 | limit check, scan from the hint without wrapping; the whole new state |
| `PortAllocators.PortAllocator.ReleasePort` | internal/port_allocator.go:588-630 | frees, stamps and unlists the port, or reports an unknown one |
| `PortAllocators.PortAllocator.ReleaseSessionPorts` | internal/port_allocator.go:633-648 | the release loop over a copy of the session's list |
| `PortAllocators.PortAllocator.CleanReleasedPorts` | internal/port_allocator.go:186-215 | the deletion loop, in any order of the map, leaves exactly the ports whose delay is not over |
| `PortAllocators.Drop` | internal/port_allocator.go:610-624 | the loop removing the first occurrence of a port from a list |
| `PortThreads.MoveIsOwn` | internal/port_allocator.go:284-648 | a step changes at most the thread that takes it |
| `PortThreads.AlwaysEven` | internal/port_allocator.go:325-351 | with EvenOnly, in every interleaving the hint and every pair or port looked at are even |
| `PortThreads.SomeThreadCanStep` | internal/port_allocator.go:368-413 | with EvenOnly, in every reachable state of any number of threads a call holding one shard lock can take the other, and whenever a call is under way some call can go on |
| `PortThreads.ActPays` | internal/port_allocator.go:284-319 | a step of a call lists no more ports than the call still owed after its limit check |
| `PortThreads.MoveKeepsLimitIff` | internal/port_allocator.go:289-319 | a step keeps every session's list plus what calls past the check may still list within MaxAllocations, if and only if it does not pass the check without room for that |
| `PortThreads.LimitIff` | internal/port_allocator.go:289-319 | in every interleaving that holds throughout, if and only if no call passes the check without room for what others are about to list |
| `PortThreads.LimitOvershoot` | internal/port_allocator.go:289-319 | in every interleaving of T threads a session holds and is due at most MaxAllocations + 2(T - 1) ports |
| `PortAlone.FindsPair` | internal/port_allocator.go:325-413 | the steps of one undisturbed scan, lookups and locks included, find the pair the specification finds |
| `PortAlone.CallAlone` | internal/port_allocator.go:162-648 | from every state in which nobody else holds a lock, the steps of a call that nothing overlaps run to its end and leave the allocator as the one-step operation does |
| `PortPlaces.StepKeepsExclusively` | internal/port_allocator.go:284-648 | a thread's step keeps every allocated port in one place unless it deletes a port that is pooled or in a call's hands |
| `PortPlaces.PrematureBreaks` | internal/port_allocator.go:588-603 | such a deletion always breaks it |
| `PortPlaces.MoveKeepsExclusivelyIff` | internal/port_allocator.go:284-648 | a step keeps every allocated port in one pooled pair, one call's hands or one entry of its owner's list, if and only if it is no such deletion; the list of the nameless session, which releases leave alone, is not counted |
| `PortPlaces.ExclusivelyIff` | internal/port_allocator.go:284-648 | in every interleaving that holds throughout, if and only if no release deletes a pooled port or one in a call's hands; the list of the nameless session is not counted |
| `PortPlaces.ObtainsFreePorts` | internal/port_allocator.go:284-585 | in every such interleaving a call obtains only pooled or unallocated ports, never one that a session or another call has |
| `PortReleases.StepKeepsRightful` | internal/port_allocator.go:588-648 | releases under way stay apart: each has to delete listed ports that no other has to |
| `PortReleases.OrderlyIsExclusive` | internal/port_allocator.go:588-648 | in every interleaving whose releases begin only for listed ports that no release under way has to delete, every allocated port is in one place throughout |
| `PortReleases.CountersBalance` | internal/port_allocator.go:507-626 | in every interleaving without premature deletion, gauge, totals and number of ports handed out agree but for the calls between a list and its counter; for named sessions those are the ports in their lists |
| `PortReleases.QuietCounts` | internal/port_allocator.go:507-626 | and whenever no call is under way currentInUse = allocated - released = number of ports handed out, for named sessions those in their lists |
| `PortDelays.MoveKeepsCalmIff` | internal/port_allocator.go:357-363 | what calls have looked up stays out of the reuse delay after a step, if and only if the step neither deletes a looked-up port nor looks up one between its deletion and its stamp |
| `PortDelays.CalmIff` | internal/port_allocator.go:357-607 | in every interleaving without premature deletion that holds throughout, if and only if no step does either |
| `PortDelays.StampsThroughout` | internal/port_allocator.go:186-215 | then every release stamp is in the released map or older than the reuse delay |
| `PortDelays.DelayIsKept` | internal/port_allocator.go:357-607 | then a port is allocated again only when its last release is at least the reuse delay ago; how many threads that takes is PortReuse.DelayIsKeptIff |
| `PortRaces.OvershootIsReached` | internal/port_allocator.go:289-319 | for every T a run in which a session ends with MaxAllocations + 2(T - 1) ports |
| `PortRaces.RingStays` | internal/port_allocator.go:391-395 | sixteen calls that each hold one shard lock and need the next never move again, whatever else happens |
| `PortRaces.CallsWaitForever` | internal/port_allocator.go:325-413 | without EvenOnly a run from the start that reaches such a ring |
| `PortRaces.StaleLookup` | internal/port_allocator.go:357-413 | for every positive reuse delay a run in which a port is reserved at the very time of its release |
| `PortRaces.DoubleRelease` | internal/port_allocator.go:588-648 | a run in which two releases of one port free it while another call has it in hand |
| `PortReuse.OneThreadIsCalm` | internal/port_allocator.go:357-607 | a single thread never overtakes its own lookup |
| `PortReuse.DelayIsBroken` | internal/port_allocator.go:544-581 | for every allocator that can give out a port, every positive delay and every number of threads above one, an orderly run allocates a port within its delay |
| `PortReuse.DelayIsKeptIff` | internal/port_allocator.go:357-607 | with orderly releases the reuse delay is kept in every interleaving of T threads, if and only if T is at most one or the delay is not positive |
| `SortedPoints.BinarySearch` | internal/consistent_hash.go:341-349 | the binary search finds the first point at or after the hash |
| `SortedPoints.SuccessorIsSuccessor` | internal/consistent_hash.go:341-349 | with wrap-around it finds the clockwise successor of the hash among the points |
| `SortedPoints.SuccessorWithMore` | internal/consistent_hash.go:63-90 | adding points moves the successor only to an added point |
| `SortedPoints.SuccessorWithFewer` | internal/consistent_hash.go:93-127 | removing points keeps the successor unless it was removed |
| `SortedPoints.SuccessorThroughGone` | internal/consistent_hash.go:93-127 | when a hash's point is removed, the hash and the point have the same successor afterwards |
| `SortedPoints.SortedIsUnique` | internal/consistent_hash.go:85-89 | a collection of points has only one sorted ring |
| `HashRings.AddKeepsInv` | internal/consistent_hash.go:63-90 | ring sorted, its points are the keys of ringNodes, owners are live, loads sum up: kept by AddNode |
| `HashRings.RemoveKeepsInv` | internal/consistent_hash.go:93-127 | the same invariant is kept by RemoveNode |
| `HashRings.OwnerIsLive` | internal/consistent_hash.go:130-143 | on a non-empty ring every hash has a live owner, at the clockwise successor |
| `HashRings.AddMovesOnlyToNewNode` | internal/consistent_hash.go:63-90 | AddNode changes a key's owner only to the new node, with or without collisions |
| `HashRings.RemoveMovesOnlyItsPoints` | internal/consistent_hash.go:93-127 | RemoveNode keeps a hash's ring point if and only if it is not one of the removed node's points, also when the ring becomes empty |
| `HashRings.RemoveSparesOthersIff` | internal/consistent_hash.go:93-127 | RemoveNode changes no other node's keys, if and only if each of its points that another node holds is taken over by a point of that node |
| `HashRings.RemoveMovesOnlyItsHashes` | internal/consistent_hash.go:93-127 | with collision-free virtual nodes RemoveNode moves only the removed node's keys: the special case of RemoveSparesOthersIff |
| `HashRings.CollisionMovesOthers` | internal/consistent_hash.go:93-127 | two nodes added to an empty ring that share its one point: removing one takes the other's keys away |
| `HashRings.RemoveUndoesAddIff` | internal/consistent_hash.go:63-127 | RemoveNode after AddNode restores the whole ring if and only if the new node's points were not on it |
| `HashRings.RingRestored` | internal/consistent_hash.go:63-127 | sorting points in and filtering them out again gives the same sorted ring |
| `HashRings.FirstSuitableIsFirst` | internal/consistent_hash.go:164-172 | the load scan returns the first healthy node below the limit clockwise from its start, or no position has one |
| `HashRings.ScanPassesAll` | internal/consistent_hash.go:164-172 | from any start the scan passes every ring point |
| `HashRings.ChosenHasRoom` | internal/consistent_hash.go:146-183 | whenever the ring has a healthy node below the load limit, such a node is chosen |
| `HashRings.ChosenIsHealthyIff` | internal/consistent_hash.go:146-183 | on a non-empty ring the chosen node is live, and healthy if and only if some node is |
| `RouterObjects.HashRing.Add` | internal/consistent_hash.go:63-90 | the replica loop and the sort give the specified ring |
| `RouterObjects.HashRing.Remove` | internal/consistent_hash.go:93-127 | the filter loops give the specified ring and loads |
| `RouterObjects.HashRing.GetNode` | internal/consistent_hash.go:130-143 | the owner at the key's hash, none on an empty ring |
| `RouterObjects.HashRing.ScanRing` | internal/consistent_hash.go:164-172 | the clockwise scan for a suitable node |
| `RouterObjects.HashRing.GetNodeWithLoad` | internal/consistent_hash.go:146-183 | scan, else a healthy node, else the plain owner |
| `RouterObjects.HashRing.IncrementLoad` | internal/consistent_hash.go:212-220 | counts only known nodes |
| `RouterObjects.HashRing.DecrementLoad` | internal/consistent_hash.go:223-231 | counts only known nodes with load |
| `RouterObjects.HashRing.SetNodeHealth` | internal/consistent_hash.go:234-241 | changes the health of a known node and nothing else |
| `SessionRouting.AddKeeps` | internal/consistent_hash.go:367-369 | adding a node keeps the router invariant and exactness |
| `SessionRouting.DropKeeps` | internal/consistent_hash.go:372-383 | removing a node clears its sticky sessions and keeps invariant and exactness |
| `SessionRouting.RouteKeeps` | internal/consistent_hash.go:386-413 | a routing call that nothing overlaps keeps the invariant whichever live node is picked; overlapping calls are RouterThreads |
| `SessionRouting.EndKeeps` | internal/consistent_hash.go:416-425 | ending a session keeps invariant and exactness |
| `SessionRouting.RouteExactIff` | internal/consistent_hash.go:386-413 | loads stay equal to the stuck sessions if and only if the session is not rerouted off an unhealthy node |
| `SessionRouting.RouterAccounts` | internal/consistent_hash.go:372-425 | over every run of calls that do not overlap totalLoad is the sum of nodeLoad, sticky entries are live, each load is at least its stuck sessions, with equality when nothing was rerouted |
| `RouterObjects.SessionRouter.AddRingNode` | internal/consistent_hash.go:367-369 | adds the node to the ring and keeps the router invariant |
| `RouterObjects.SessionRouter.RouteSession` | internal/consistent_hash.go:386-413 | a call that nothing overlaps: sticky hit, or a new pick with its load counted; the specified state |
| `RouterObjects.SessionRouter.EndSession` | internal/consistent_hash.go:416-425 | a call that nothing overlaps: unsticks and decrements; the specified state |
| `RouterObjects.SessionRouter.RemoveRingNode` | internal/consistent_hash.go:372-383 | a call that nothing overlaps: removes the node and the sticky entries naming it |
| `RouterThreads.RingAlwaysSound` | internal/consistent_hash.go:367-425 | in every interleaving of any number of threads the ring is sound and totalLoad is the sum of nodeLoad |
| `RouterThreads.MoveKeepsAccountedIff` | internal/consistent_hash.go:372-413 | a step keeps every sticky entry naming a live node or one about to be swept, if and only if it does not stick a session to a node whose removal has ended since the pick |
| `RouterThreads.AccountedIff` | internal/consistent_hash.go:372-413 | in every interleaving that holds throughout, if and only if no session sticks so late |
| `RouterThreads.WaitingIsAccounted` | internal/consistent_hash.go:372-413 | it holds when no removal ends while its node is picked and not yet stuck to |
| `RouterThreads.MoveKeepsCoveredIff` | internal/consistent_hash.go:404-425 | loads plus pending counts cover the stuck sessions after a step, if and only if no node comes back to sessions that nobody is about to count |
| `RouterThreads.MoveKeepsExactlyIff` | internal/consistent_hash.go:404-425 | they equal them after a step, if and only if the step neither reroutes off a live node, nor gives back an uncounted load, nor sweeps a returned node, nor brings a node back with sessions or counts left over |
| `RouterThreads.LoadsIff` | internal/consistent_hash.go:404-425 | both equivalences over every interleaving |
| `RouterThreads.QuietAccounts` | internal/consistent_hash.go:367-425 | whenever no call is under way the accounts are those of calls that do not overlap, if nothing stuck late and no node came back short |
| `RouterThreads.RouteAlone` | internal/consistent_hash.go:386-413 | the steps of a routing call that nothing overlaps are the one-step operation |
| `RouterThreads.EndAlone` | internal/consistent_hash.go:416-425 | so are those of ending a session |
| `RouterThreads.DropAlone` | internal/consistent_hash.go:372-383 | and those of removing a node |
| `RouterThreads.LateStick` | internal/consistent_hash.go:372-413 | from any state: a removal that runs between pick and sticking leaves the session stuck to a node that is gone |
| `RouterThreads.LateStickHappens` | internal/consistent_hash.go:372-413 | such a run of two threads from the start for every first node, with a pick the lookup allows |
| `RouterThreads.EarlyEndLeaks` | internal/consistent_hash.go:404-425 | ending a session between sticking and counting leaves a load that no session holds |
| `RouterThreads.EarlyEndHappens` | internal/consistent_hash.go:404-425 | such a run of two threads from the start for every first node, with a pick the lookup allows: no session is stuck and the node carries a load |
| `RouterThreads.NodeComesBackShort` | internal/consistent_hash.go:367-413 | a run of two threads from the start, with a pick the lookup allows, after which no call is under way and a node that came back carries less load than its stuck sessions |
| `SortedNames.SortDependsOnContents` | internal/redis_cluster.go:1132-1133 | the sorted node list depends only on which names are in it |
| `Takeover.GetActiveNodesSorted` | internal/redis_cluster.go:1120-1134 | whatever the map iteration order, the list is the local node and the recently seen others, sorted |
| `Takeover.SurvivorComputesTarget` | internal/redis_cluster.go:1120-1147 | a survivor that sees the active set computes the node determined by the set alone, and it is active |
| `Takeover.SurvivorsAgree` | internal/redis_cluster.go:1120-1147 | when all survivors see the same set exactly one of them selects itself for a session |
| `Takeover.CollectJobs` | internal/redis_cluster.go:940-958 | the loop keeps exactly the departed node's sessions this node selects itself for |
| `Takeover.RunKeepsInv` | internal/redis_cluster.go:904-990 | in every interleaving jobs are unchanged departed sessions, and only departed sessions change, to a claimant that selected itself |
| `Takeover.TwoCanClaim` | internal/redis_cluster.go:904-990 | two survivors that both select themselves can both claim: the run |
| `Takeover.OneClaimantIff` | internal/redis_cluster.go:904-990 | a departed session has at most one claimant in every interleaving if and only if at most one survivor's computation selects itself |
| `Takeover.AgreedTakeover` | internal/redis_cluster.go:904-990 | when all survivors see the same set: in every interleaving one claimant at most, only departed sessions change, and to the node everyone computes |
| `Takeover.ListedIsPendingOrClaimed` | internal/redis_cluster.go:904-990 | without failures a session its target has listed is pending or claimed |
| `Takeover.EverySessionIsClaimed` | internal/redis_cluster.go:904-990 | when every survivor has listed the sessions, nothing failed and no job is left, every departed session belongs to a survivor |
| `Takeover.SplitViewsClaimTwice` | internal/redis_cluster.go:1120-1147 | two survivors that do not know of each other: a run in which both claim |
| `TakeoverPorts.ReleasePortsOnError` | internal/redis_cluster.go:1225-1231 | the loop releases the positive ports in order |
| `TakeoverPorts.GiveBackRestoresIff` | internal/redis_cluster.go:1160-1231 | giving a fresh pair back restores the session lists if and only if the session has a name and the pair is positive |
| `TakeoverPorts.GiveBackLeaves` | internal/redis_cluster.go:1160-1231 | concrete pairs, for the nameless session and at port 0, whose return leaves the session lists changed |
| `TakeoverPorts.GrowsByPair` | internal/redis_cluster.go:1165-1185 | an allocation on the way adds exactly the new pair to the session, or changes no ownership |
| `TakeoverPorts.Shrinks` | internal/redis_cluster.go:1225-1231 | giving the ports back undoes the growth: invariant, session lists and owned ports as before |
| `TakeoverPorts.ExecuteSessionTakeover` | internal/redis_cluster.go:1160-1222 | a call that nothing overlaps on the shared allocator: on every error path session lists, owned ports and invariant are as before; on success exactly the new legs' ports were added and the session names this node; overlapping workers are TakeoverThreads |
| `TakeoverThreads.MoveKeepsElsewhere` | internal/port_allocator.go:284-648 | threads that call for other sessions stay clear of the session taken over |
| `TakeoverThreads.ListInEveryInterleaving` | internal/redis_cluster.go:1160-1231 | in every interleaving with calls for other sessions the session's list is what it was, followed by the ports the taking-over thread has listed and not unlisted |
| `TakeoverThreads.FailedTakeoverRestores` | internal/redis_cluster.go:1160-1231 | in every such interleaving, once the thread has given back every port it was given, the session's list is exactly as it was |
| `ReallocationManagers.HashOf` | internal/port_reallocation.go:504-510 | the 64-bit loop computes the character sum modulo 2^31 |
| `ReallocationRuns.ProbeFailsIff` | internal/port_reallocation.go:282-298 | wherever the hash starts it, the probe fails only when every port of [low, high) is owned |
| `ReallocationRuns.AllocateOneFailsIff` | internal/port_reallocation.go:282-298 | one port: fails exactly without retries or free ports, else a free port of the range |
| `ReallocationRuns.AllocateManyIff` | internal/port_reallocation.go:122-134 | count ports: succeeds exactly when that many are free, and gives distinct free ports |
| `ReallocationRuns.ConsistentIsFresh` | internal/port_reallocation.go:326-350 | the deterministic ports are distinct and free, however the hash wraps |
| `ReallocationRuns.ChooseIff` | internal/port_reallocation.go:113-134 | with retries, a new session fails exactly when fewer than count ports are free, consistent ports preferred or not |
| `ReallocationRuns.RecordKeepsIff` | internal/port_reallocation.go:249-265 | recording available ports keeps the maps inverse if and only if they are distinct and the session listed none |
| `ReallocationRuns.AllocateKeeps` | internal/port_reallocation.go:104-144 | AllocatePorts keeps the maps inverse; a new session gets count distinct free ports or fails leaving everything unchanged |
| `ReallocationRuns.TakeoverKeepsIff` | internal/port_reallocation.go:203-273 | TakeoverPorts keeps the maps inverse if and only if it fails or the session had no ports here and reused ports are distinct; when it fails and how many ports it gives |
| `ReallocationRuns.ReleaseKeeps` | internal/port_reallocation.go:181-200 | frees exactly the session's ports and keeps the maps inverse |
| `ReallocationRuns.CleanupKeeps` | internal/port_reallocation.go:456-470 | frees exactly the ports of expired sessions and keeps the maps inverse |
| `ReallocationRuns.RenewKeeps` | internal/port_reallocation.go:415-438 | renewal keeps the invariant |
| `ReallocationRuns.ReleaseUndoesAllocate` | internal/port_reallocation.go:104-200 | releasing a newly allocated session gives the previous state back |
| `ReallocationRuns.RunKeepsInv` | internal/port_reallocation.go:104-470 | over every run whose takeovers fail or are safe, owners and session lists are mutually inverse, lists have no repeats, ports are in range |
| `ReallocationRuns.TakeoverOfLocalSessionBreaks` | internal/port_reallocation.go:203-273 | a concrete local session whose takeover loses its old port |
| `ReallocationManagers.PortReallocationManager.IsPortAvailable` | internal/port_reallocation.go:300-306 | in range and unowned |
| `ReallocationManagers.PortReallocationManager.AllocatePort` | internal/port_reallocation.go:282-298 | the nested probe loops compute the specified port |
| `ReallocationManagers.PortReallocationManager.TryGetConsistentPorts` | internal/port_reallocation.go:326-350 | all deterministic ports or a complete rollback |
| `ReallocationManagers.PortReallocationManager.AllocateCount` | internal/port_reallocation.go:122-134 | count ports or a complete rollback |
| `ReallocationManagers.PortReallocationManager.AllocatePorts` | internal/port_reallocation.go:104-144 | existing session, consistent ports, new ports; the specified state and result |
| `ReallocationManagers.PortReallocationManager.ReleasePorts` | internal/port_reallocation.go:181-200 | the specified state |
| `ReallocationManagers.PortReallocationManager.TakeoverPorts` | internal/port_reallocation.go:203-273 | the availability loop, reuse or reallocation, and recording; the specified state and result |
| `ReallocationManagers.PortReallocationManager.CleanupExpired` | internal/port_reallocation.go:456-470 | the loop over allocations in any order gives the specified state |
| `ReallocationManagers.PortReallocationManager.RenewAllocations` | internal/port_reallocation.go:415-438 | the loop renews every allocation |
| `TokenBuckets.CheckTakesOne` | internal/rate_limiter.go:201-254 | a request leaves other keys alone and takes one token exactly when let through, which is exactly when a token is there |
| `TokenBuckets.IdleIsFull` | internal/rate_limiter.go:83-92 | an idle bucket is full again after the time-to-live, if rate times time-to-live is at least the burst |
| `TokenBuckets.EvictLevel` | internal/rate_limiter.go:335-354 | evicting idle entries changes no key's tokens under that condition |
| `TokenBuckets.LevelDecides` | internal/rate_limiter.go:83-92 | the tokens at one time decide the tokens at every later time |
| `TokenBuckets.SameRuns` | internal/rate_limiter.go:201-354 | under that condition the evicting and the never-evicting limiter give every key the same tokens throughout |
| `TokenBuckets.VisibleOtherwise` | internal/rate_limiter.go:335-354 | otherwise a run exists whose last answer shows the eviction |
| `TokenBuckets.EvictionInvisibleIff` | internal/rate_limiter.go:201-354 | no answer after any run depends on eviction, if and only if rate times time-to-live is at least the burst |
| `RateLimiting.AllowKeepsBalance` | internal/rate_limiter.go:159-295 | an Allow that nothing overlaps keeps the counters exact although maybeBlockIP counts unconditionally; overlapping calls are RateLimiterThreads |
| `RateLimiting.RunKeepsBalance` | internal/rate_limiter.go:159-365 | in every run of calls that do not overlap each request has exactly one verdict and the gauges are the sizes of the maps |
| `RateLimiting.DecideParts` | internal/rate_limiter.go:159-193 | a request reaches each bucket at most once, and every enabled one if it is let through |
| `RateLimiting.AllowedIff` | internal/rate_limiter.go:159-193 | a request is let through exactly when its address is not blocked and every enabled limit has a token |
| `RateLimiting.StepTakes` | internal/rate_limiter.go:159-365 | where rate times time-to-live is at least the burst, every step keeps the buckets sound and takes a token for each request let through |
| `RateLimiting.ThroughPlusLevel` | internal/rate_limiter.go:159-365 | where rate times time-to-live is at least the burst, requests let through plus remaining tokens never exceed starting tokens plus refill |
| `RateLimiting.WindowBound` | internal/rate_limiter.go:159-365 | in every window of every run at most burst + rate * duration requests pass, in all, and per address and per call where rate times time-to-live is at least the burst; RateLimiting.WindowBoundIff shows that condition exact |
| `RateLimiting.WindowBoundIff` | internal/rate_limiter.go:159-365 | for one address or call with no other limit in the way the bound holds in every window of every run, if and only if rate times time-to-live is at least the burst |
| `RateLimiting.TwoBurstsPass` | internal/rate_limiter.go:335-354 | spending the burst, cleaning up after the time-to-live and spending it again lets two bursts through |
| `RateLimiting.FourPassInsteadOfThree` | internal/rate_limiter.go:335-354 | a concrete run in which four requests pass against a bound of 3.5 |
| `RateLimiters.TokenBucket.constructor` | internal/rate_limiter.go:59-66 | a full bucket |
| `RateLimiters.TokenBucket.Refill` | internal/rate_limiter.go:83-92 | adds elapsed times rate, capped |
| `RateLimiters.TokenBucket.Allow` | internal/rate_limiter.go:69-80 | refill, then take a token if there is one |
| `RateLimiters.RateLimiter.IsBlocked` | internal/rate_limiter.go:257-276 | a call that nothing overlaps: answers and forgets an expired block |
| `RateLimiters.RateLimiter.CheckLimit` | internal/rate_limiter.go:201-254 | creates the entry if needed and asks its bucket |
| `RateLimiters.RateLimiter.MaybeBlockIP` | internal/rate_limiter.go:279-295 | blocks above ten requests with more than half rejected |
| `RateLimiters.RateLimiter.Allow` | internal/rate_limiter.go:159-193 | a call that nothing overlaps: block, global, address and call checks in order; the whole new state and answer |
| `RateLimiters.RateLimiter.BlockIP` | internal/rate_limiter.go:298-306 | blocks and counts once |
| `RateLimiters.RateLimiter.UnblockIP` | internal/rate_limiter.go:309-317 | unblocks and counts once |
| `RateLimiters.RateLimiter.EvictIdle` | internal/rate_limiter.go:335-354 | the deletion loop and its count |
| `RateLimiters.RateLimiter.Cleanup` | internal/rate_limiter.go:335-365 | the three deletion loops and the gauges |
| `RateLimiterThreads.CountersSurvive` | internal/rate_limiter.go:159-365 | in every interleaving each request has one verdict or is on its way to one, and activeIPs and activeCalls are the sizes of their maps |
| `RateLimiterThreads.StepKeepsGaugeIff` | internal/rate_limiter.go:257-306 | a step keeps BlockedIPs exact, if and only if it neither lifts a block that is gone nor blocks a blocked address |
| `RateLimiterThreads.GaugeExactIff` | internal/rate_limiter.go:159-365 | in every interleaving BlockedIPs is exact throughout, if and only if no step does either |
| `RateLimiterThreads.ApartIsExact` | internal/rate_limiter.go:159-365 | it is when calls for one address overlap neither each other nor blocking, unblocking or cleanup |
| `RateLimiterThreads.TurnIsAllow` | internal/rate_limiter.go:159-193 | the steps of a call that nothing overlaps are the one-step Allow |
| `RateLimiterThreads.TwoLiftsMiscount` | internal/rate_limiter.go:257-276 | two calls that find one expired block: for every configuration a run after which BlockedIPs is -1 |
| `RateLimiterThreads.TwoBlocksMiscount` | internal/rate_limiter.go:279-295 | two calls past isBlocked and over the threshold: BlockedIPs is one too high |
| `RateLimiterThreads.OverlapMiscounts` | internal/rate_limiter.go:159-295 | a run from the start that ends so |
| `RateLimiterThreads.BoundInEveryInterleaving` | internal/rate_limiter.go:159-365 | where rate times time-to-live is at least the burst, in every window of every interleaving at most burst + rate * duration tokens are taken from each bucket |
| `RateLimiterThreads.AllowedWereTaken` | internal/rate_limiter.go:159-193 | in every run each request allowed took its token in the run or was carried in by one of the threads |
| `RateLimiterThreads.AllowedInEveryInterleaving` | internal/rate_limiter.go:159-365 | in every window of every interleaving of T threads at most burst + rate * duration + T requests are allowed, under the same condition |
| `RtcpFraming.Aligned` | internal/batch_rtcp.go:253-422 | every packet is a whole number of words and the length field counts words less one |
| `RtcpFraming.HeaderReads` | internal/batch_rtcp.go:425-460 | version, count, type, length and SSRC stand where the parser reads them |
| `RtcpFraming.ParseFirstIff` | internal/batch_rtcp.go:425-460 | the packet at the front of a compound is read whole exactly when it is shorter than 65536 bytes, since the expected length is computed in 16 bits |
| `RtcpFraming.FramesReadBackIff` | internal/batch_rtcp.go:345-460 | reading Build() packet by packet gives exactly the added packets in order, with type, count, length and SSRC, if and only if each is shorter than 65536 bytes |
| `RtcpFraming.ReportReadsBack` | internal/batch_rtcp.go:401-419 | a report block read by RFC 3550 section 6.4.1 gives all fields back, the loss count modulo 2^24 |
| `RtcpFraming.SenderReadsBack` | internal/batch_rtcp.go:378-422 | a sender report gives its timestamps, counts and first 31 reports back |
| `RtcpFraming.TextReadsBack` | internal/batch_rtcp.go:288-342 | SDES and BYE texts come back up to their length byte |
| `RtcpFraming.ReturnedIff` | internal/batch_rtcp.go:288-422 | an item comes back unchanged exactly when its texts have at most 255 bytes, it has at most 31 reports and losses below 2^24 |
| `RtcpFraming.RoundTripIff` | internal/batch_rtcp.go:253-460 | everything added comes back from the built compound in order, field by field, if and only if every item fits |
| `RtcpFraming.LongNameIsLost` | internal/batch_rtcp.go:288-313 | a 256-byte name does not come back |
| `RtcpFraming.HugePacketIsLost` | internal/batch_rtcp.go:425-460 | a concrete packet above 65535 bytes that is not read back |
| `RtcpBuilders.CompoundBuilder.AddSR` | internal/batch_rtcp.go:253-270 | the filled array is the sender report's bytes |
| `RtcpBuilders.CompoundBuilder.AddRR` | internal/batch_rtcp.go:273-285 | the filled array is the receiver report's bytes |
| `RtcpBuilders.CompoundBuilder.AddSDES` | internal/batch_rtcp.go:288-313 | the filled array is the source description's bytes, padded with zeros |
| `RtcpBuilders.CompoundBuilder.AddBYE` | internal/batch_rtcp.go:316-342 | the filled array is the goodbye's bytes, with or without a reason |
| `RtcpBuilders.CompoundBuilder.PutReport` | internal/batch_rtcp.go:401-419 | one report block at its offset |
| `RtcpBuilders.CompoundBuilder.AddSRWithReportBlock` | internal/batch_rtcp.go:378-422 | the filled array is the sender report with at most 31 blocks |
| `RtcpBuilders.CompoundBuilder.Build` | internal/batch_rtcp.go:345-359 | the copy loop concatenates the packets |
| `RtcpBuilders.CompoundBuilder.Clear` | internal/batch_rtcp.go:362-364 | forgets the packets |
| `Backpressure.StepKeepsBalance` | internal/backpressure.go:105-214 | each atomic step keeps queueSize = enqueued - dequeued + calls between their adds |
| `Backpressure.StepKeepsBound` | internal/backpressure.go:105-197 | each atomic step keeps queue plus committed threads at most MaxQueueSize + T - 1 |
| `Backpressure.AdmissionBound` | internal/backpressure.go:105-214 | in every interleaving of T threads queueSize plus threads past the check is at most MaxQueueSize + T - 1 under Block, Drop or Reject, never negative, and between calls enqueued - dequeued |
| `Backpressure.BoundIsReached` | internal/backpressure.go:105-147 | for every MaxQueueSize and T some interleaving reaches MaxQueueSize + T - 1 |
| `Backpressure.StepKeepsHeardIff` | internal/backpressure.go:156-214 | a waiter for whom there is room has a token or a release coming after a step, if and only if the step does not take the only token while another waits and no release is under way |
| `Backpressure.HeardIff` | internal/backpressure.go:156-214 | in every interleaving that holds throughout, if and only if no step takes a token so |
| `Backpressure.LoneWaiterIsWoken` | internal/backpressure.go:156-214 | so a thread that never waits beside another has a wake-up coming whenever there is room |
| `Backpressure.WaiterIsStranded` | internal/backpressure.go:156-214 | for every MaxQueueSize of at least two a run that leaves a waiter with room, no token and no other call under way |
| `ReceiverStats.ReceiverSession.UpdateReceiverStats` | internal/rtcp_handler.go:309-339 | the sequence tracking and loss branches with 16-, 32-bit and signed arithmetic written out |
| `ReceiverStats.ReceiverSession.ExtendedHighest` | internal/rtcp_handler.go:560-561 | whenever the session stands for an unwrapped highest number, that number modulo 2^32 |
| `ReceiverStats.FollowedIff` | internal/rtcp_handler.go:318-327 | the code follows to the higher number exactly for trackable packets |
| `ReceiverStats.StepExactIff` | internal/rtcp_handler.go:309-339 | for a packet less than 2^16 away the reported number is the higher one modulo 2^32, if and only if it is ahead by less than 2^15 or in the same cycle, or late within the same cycle by at most 2^15 |
| `ReceiverStats.CounterWrapIff` | internal/rtcp_handler.go:314-316 | after the packet counter wraps to zero the reported number is right, if and only if the packet is no lower than the highest and in its cycle |
| `ReceiverStats.StreamTracks` | internal/rtcp_handler.go:309-339 | over whole streams of any length highestSeq and seqCycles stand for the highest unwrapped number |
| `ReceiverStats.ExtendedIsExact` | internal/rtcp_handler.go:560-561 | for every followable stream of any length the reported extended number is the highest unwrapped number modulo 2^32, over any number of wraps |
| `ReceiverStats.ExactThroughoutIff` | internal/rtcp_handler.go:309-339 | for every stream less than 2^16 from its highest number, the reported number is right after each packet, if and only if every packet can be followed |
| `ReceiverStats.InOrderIsStream` | internal/rtcp_handler.go:309-339 | streams that never decrease, with gaps below 2^15 and in one cycle where the packet counter wraps, are followable |
| `ReceiverStats.LostIs` | internal/rtcp_handler.go:329-337 | over streams of any length packetsLost is expected - received less 65536 for every wrap since the counter started, in signed 32 bits and not below zero |
| `ReceiverStats.LostOf` | internal/rtcp_handler.go:329-337 | for every packet counter the loss is highest - first - received in signed 32 bits, not below zero |
| `ReceiverStats.LostIsRightIff` | internal/rtcp_handler.go:329-337 | packetsLost is expected - received, if and only if that is not negative and there was no wrap, or nothing is missing after at most 2^15 wraps, or exactly 2^16 wraps cancelled out |
| `ReceiverStats.MissingCounts` | internal/rtcp_handler.go:329-337 | expected - received is the count of numbers between the first and the highest that never arrived, less the surplus packets, of which there are none if and only if no number repeats and none lies before the first |
| `ReceiverStats.LostIsSkippedIff` | internal/rtcp_handler.go:329-337 | packetsLost is the count of skipped numbers, if and only if surplus packets and wraps hide nothing, or 2^32 numbers, or nothing was skipped and what is hidden does not show in signed 32 bits |
| `ReceiverStats.LostIsSkipped` | internal/rtcp_handler.go:329-337 | before the first wrap, with no number repeated and none before the first, packetsLost is exactly the count of skipped numbers |
| `ReceiverStats.RepeatHidesLoss` | internal/rtcp_handler.go:329-337 | a concrete repeated packet that hides a skipped number |
| `ReceiverStats.LossAfterWrapIsForgotten` | internal/rtcp_handler.go:329-337 | five packets with 632 numbers that never arrived report no loss |
| `ReceiverStats.ManyDuplicatesReportLoss` | internal/rtcp_handler.go:329-337 | one packet received 2^31 + 11 times reports 2147483638 lost |

## Left out

- Listeners, HTTP handlers, Redis and MySQL clients, DTLS, ICE, WebRTC, capture, health and metrics: input and output around the modelled logic.
- Codecs, comfort noise and voice activity: floating-point approximations.
- JitterBuffer: requires MaxSize at least one; otherwise the first packet panics (JitterSpec.NeverPopsEmptyIff), or the constructor does; the adaptive delay (`updateAdaptiveDelay`) is a parameter, `PopWithTimeout` and the getters are not modelled.
- FEC: redundancy adaptation and statistics; recovery is stated over the packets the handler holds, because `cleanupOldPackets` may evict newer packets when an older one arrives.
- SdpRoundTrip.AnswerIsRecovered, SdpRoundTrip.SecondPass: the local address is a token without white space or slash and the port is below 2^63; session attributes the parser ignores are not carried over by the code and so not by the model.
- PortAllocator: the single-port `AllocatePort` is not modelled; `nextPort` and the counters are unbounded; peak and hit-rate metrics, `Close` and `PortReservation` are not modelled.
- PortRuns.ApplyKeeps: whole calls are steps; what overlapping calls keep is in PortThreads and PortPlaces.
- PortRuns.StepKeepsDelay: whole calls are steps; when overlapping calls keep the reuse delay is in PortDelays.
- PortRuns.RunKeepsInv: whole calls are steps; overlapping calls can exceed the session limit and lose exclusivity, exactly when PortThreads.LimitIff and PortPlaces.ExclusivelyIff say.
- PortRuns.HandedOutExclusively: whole calls are steps; overlapping calls are in PortPlaces and PortDelays.
- PortAllocators.PortAllocator.TryReservePortPair: takes no lock; the locks and what other threads do between them are in PortThreads.
- PortThreads: the sixteen shard maps are one map, with the locks kept apart; the session locks and the released map's are held for one step each; refilling is a call like the others, and the cleaner takes its steps at any time.
- PortDelays.DelayIsKept: for interleavings in which no lookup is overtaken by a release; what that takes is PortReuse.DelayIsKeptIff.
- PortPlaces.MoveKeepsExclusivelyIff: does not count the list of the nameless session, from which the code never removes a port.
- PortPlaces.ExclusivelyIff: does not count the list of the nameless session either.
- PortReleases.CountersBalance: the ports handed out to the nameless session are counted as handed out, not by its list.
- PortReleases.QuietCounts: as PortReleases.CountersBalance.
- PortAllocators.PortAllocator.AllocateWithConnection: the connection itself is not modelled, only whether the port can be bound.
- HashRing: nodes are values, so two ring entries do not share a mutable node; `GetNodes`, the statistics and `RendezvousHash` are not modelled; SHA-256 is an arbitrary function.
- SessionRouting.RouteKeeps: whole calls are steps; what overlapping calls keep is in RouterThreads.
- SessionRouting.RouterAccounts: whole calls are steps; what overlapping calls keep is in RouterThreads.
- RouterObjects.SessionRouter.RouteSession: whole calls are steps; what overlapping calls keep is in RouterThreads.
- RouterObjects.SessionRouter.EndSession: whole calls are steps; what overlapping calls keep is in RouterThreads.
- RouterObjects.SessionRouter.RemoveRingNode: whole calls are steps; what overlapping calls keep is in RouterThreads.
- Takeover: fnv1a is an arbitrary function and the active list is computed once per survivor; the deletion of the departed node's index, the worker pool's timeout and the second takeover path in the cluster manager are not modelled.
- TakeoverPorts.ExecuteSessionTakeover: for a call that no other worker overlaps; what overlapping workers keep is TakeoverThreads.FailedTakeoverRestores. Restoration is stated for sessions with a name and a port range starting at one or above; TakeoverPorts.GiveBackRestoresIff shows that both are needed.
- TakeoverThreads.FailedTakeoverRestores: for workers of different sessions that release no port of this one; storing the session and starting its media are not steps.
- PortReallocation: storing and removing allocations in Redis is not modelled; `AllocateConsistentPorts`, whose fallback takes a mutex it already holds, is left out. With consistent ports preferred the range must not be empty, since the code divides by its size.
- RateLimiter: tokens and times are real numbers, and each call reads the clock once; `Reset`, the middleware and the separate `IPRateLimiter` are not modelled. The request counters of an evicted entry restart, and the blocking rule reads them; TokenBuckets.EvictionInvisibleIff is about the bucket answers.
- RateLimiting.AllowKeepsBalance: whole calls are steps; what overlapping calls keep is in RateLimiterThreads.
- RateLimiting.RunKeepsBalance: whole calls are steps; what overlapping calls keep is in RateLimiterThreads.
- RateLimiters.RateLimiter.Allow: whole calls are steps; what overlapping calls keep is in RateLimiterThreads.
- RateLimiters.RateLimiter.IsBlocked: whole calls are steps; what overlapping calls keep is in RateLimiterThreads.
- Backpressure: the water-mark flag, `ShouldDrop`, `NotifyDropped` and the wrappers around the controller are not modelled; the counters are unbounded.
- ReceiverStats: jitter, round-trip time and the fraction lost are floating point and not modelled. ReceiverStats.LostIsRightIff leaves out the packet at which the 32-bit packet counter starts again, for which the code keeps the old count.
- Circuit breakers, leg state machines, connection pools, authorization cache, CDR merging, configuration: separate components beside the modelled ones.
