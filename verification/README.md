# MiniSFU, modelled and proved

A Dafny model of the four clusters of MiniSFU that hold real algorithms: the transport-wide
congestion-control feedback builder, the packet cache with its loss queue, the subscription
mesh with its renegotiation, and the rewriting, retransmission and reporting of RTP packets.
Objects the program updates in place are classes whose methods are proved against functions
on values; what the program promises is then proved about those functions, over whole runs.

Check everything with `dafny verify dfyconfig.toml`.

## The parts

**Words** holds the unsigned words, the bit operations and the big-endian byte order. Wrapping
arithmetic is written out everywhere.

**Feedback builder** (`TwccFormat`, `TwccPacker`, `TwccDeltas`, `TwccBatch`, `TwccFeedback`,
`TwccRecord`, `TwccResponder`, `TwccCapacity`, `TwccSchedule`). The specification is a decoder for
section 3.1 of draft-holmer-rmcat-transport-wide-cc-extensions-01; the builder is proved to be
inverted by it. Where the code is not inverted (its last flush drops half of a mixed leftover, and
its saturation tests the sign too late) the exact condition is proved. `Responder` is the object
with its two fixed arrays; an index past the end of one is a panic, modelled as the result `ok`
being false, and happens exactly when a batch does not meet `Fits`. `TwccCapacity` says on the
arrivals when that is, and gives runs from a new responder that overflow either array.

**Cache and loss queue** (`NackPairs`, `NackMinimal`, `NackWrap`, `LossQueue`, `LossQueueRuns`,
`LossRequests`, `LossTiming`, `LossCycles`, `PacketRing`, `Bucket`, `GapLedger`, `GapTiming`). The
byte array of `Bucket` refines a ring of slots, which refines a map from true numbers to packets.
The queue is a bounded sorted set; its requests (section 6.2.1 of RFC 4585) are exact, except at a
wrap, and, away from the top of the number space, minimal. `GapLedger` runs both together: within
a cycle what is asked for is what is missing.

**Mesh and renegotiation** (`Mesh`, `MeshSafety`, `MeshProgress`, `MeshObjects`, `Negotiation`).
Joins and publishes are threads whose lock-protected sections are single steps; a router's lock is
held over several. Safety, freedom from deadlock, termination and the complete mesh are proved for
every interleaving. `MeshObjects` holds the same operations as objects updated in place, run one
at a time, with the errors of the media library as inputs. The offer/answer exchange is a machine
of two flags and a debounce timer.

**Rewrite, retransmit, report** (`Sequencer`, `SequencerRuns`, `DownTrack`, `DownTrackRuns`,
`DownTrackSources`, `Retransmission`, `RetransmissionRuns`, `NackAnswers`, `ReceptionReport`,
`ReceptionRuns`). Unwrapped numbers are the specification: outgoing numbers, the record of what
was sent, and the loss report of section 6.4.1 and appendices A.1 and A.3 of RFC 3550 are tied to
them. `RetransmissionRuns` joins cache, rewriter and record into one system and proves that what
is sent again is what was sent first.

## What is a parameter

Time, random identifiers, the verdict of library calls (an offer that fails, an answer that is
rejected, a packet that does not parse), the key-frame flag, and the RTP parser itself are
inputs. In retransmission the parser is an arbitrary function, required only to read a packet's
number where the cache reads it.

## Where the code and its intent differ

The code is modelled as written. Each deviation has a lemma with a concrete input or an exact
condition, named in the table: the final flush (`FlushedIntact`), the saturation
(`SaturateClamps`), the two fixed arrays (`FitsExactly`, `ReverseOrderOverflows`,
`LostNumbersOverflow`), packets overtaken at a wrap (`RunRecordsTrue`, `RecordedTooHigh`), a zero
low half (`PairsExact`), requests across a wrap (`PairsAcrossWrap`), losses and recoveries across
a wrap (`EnteredAs`, `RecoveredTooLate`), a gap of 256 numbers (`LongBurstUnasked`), key-frame
requests with nothing else to ask for (`KeyFrameHeard`), the top of the number space
(`MinimalUnlessTop`), late packets at the limit (`LateAtTheLimit`), repeats of the newest packet
(`RepeatedHeadLoses`), late packets in the record of sent packets (`LatePacketShifts`), zero as
"nothing sent yet" (`SimpleContinues`), clocks that go back (`SwitchContinues`), time steps of 90
a second where the video clock runs 90000 (`SourceFollows`), the layer a packet is recorded under
(`WrongLayerResent`), offers that fail or cannot be sent (`CoverageStep`, `MutedForever`), a wrap
or a packet of the cycle before while the base is probed (`ReportsAreTrue`, `WrapReadsAsLoss`,
`LateFirstHidesLoss`), and loss fractions with nothing or too much received (`FractionIsShare`,
`SurplusShare`).

## Model

| member | source | states |
|---|---|---|
| `TwccFormat.SetNextSymbol` | internal/buffer/twcc.go:334-341 | Shifting the i-th status into the chunk word under construction sets exactly that symbol's bits: the word stays the partial vector of the statuses so far. |
| `TwccFormat.FinishVector` | internal/buffer/twcc.go:343-350 | Setting the type and size bits makes the finished word the encoding of a status vector chunk of section 3.1.4 of the transport-wide congestion control draft, written from its decoder. |
| `TwccFormat.WordRoundTrip` | internal/buffer/twcc.go:324-350 | The decoder reads back the statuses of every run-length, one-bit and two-bit chunk from its sixteen-bit word. |
| `TwccFormat.ReadAllChunks` | internal/buffer/twcc.go:202-253 | Decoding a stream of nonempty chunks yields all their statuses and consumes exactly their bytes. |
| `TwccPacker.StepKeeps` | internal/buffer/twcc.go:201-252 | One turn of the greedy chunk loop keeps its invariant: decoded chunks followed by the queue are the statuses so far, `same` means a uniform queue, a one-bit chunk never holds a large delta. |
| `TwccPacker.PackInvariant` | internal/buffer/twcc.go:158-253 | The invariant holds after every list of statuses. |
| `TwccPacker.NothingEmitted` | internal/buffer/twcc.go:166-174 | No chunk is completed before the first received packet, so the header always precedes the first chunk. |
| `TwccPacker.ChunksRoundTrip` | internal/buffer/twcc.go:202-272 | Decoding the chunk bytes yields the reported statuses whatever follows, and these are the packed ones if and only if the final flush keeps the leftover intact, as it does when that is empty, uniform or a single status. |
| `TwccPacker.FlushedIntact` | internal/buffer/twcc.go:256-272 | The final flush, whose loop bound shrinks as it pops, keeps every status if and only if the leftover is uniform or its second half, rounded down, says not received throughout. |
| `TwccPacker.FlushLosesStatuses` | internal/buffer/twcc.go:265-271 | Concrete loss: received, missing, received is reported as received, missing, missing. |
| `TwccPacker.ChunkCountBound` | internal/buffer/twcc.go:202-272 | Every chunk but the last covers at least seven statuses, so n statuses use at most n/7 chunks rounded up. |
| `TwccPacker.RunsWithin` | internal/buffer/twcc.go:204-205 | No run is longer than the batch, so a batch below 8192 never overflows a run length. |
| `TwccDeltas.DeltasRoundTrip` | internal/buffer/twcc.go:175-198 | Decoding the delta bytes under the statuses yields every delta as written and uses up the bytes, for all inputs. |
| `TwccDeltas.WrittenExact` | internal/buffer/twcc.go:177-196 | The written deltas are the true ones if and only if all fit sixteen bits. |
| `TwccDeltas.SaturateClamps` | internal/buffer/twcc.go:181-188 | The saturation, which tests the sign after truncation, clamps correctly if and only if the delta fits or truncation keeps its sign. |
| `TwccDeltas.SaturateFlipsSign` | internal/buffer/twcc.go:183-188 | Deltas from 0x8000 to 0x10000 are reported as the largest step back. |
| `TwccDeltas.ArrivalTimeBound` | internal/buffer/twcc.go:162-199 | With deltas in range, the arrival a reader rebuilds for any received packet is within 249 microseconds per received packet of the recorded one. |
| `TwccDeltas.DriftAttained` | internal/buffer/twcc.go:177-198 | The bound is tight: packets 249 microseconds apart all decode as simultaneous. |
| `TwccDeltas.FirstDeltaSmall` | internal/buffer/twcc.go:166-178 | The first received packet always takes a one-byte delta. |
| `TwccDeltas.DeltaBytesBound` | internal/buffer/twcc.go:352-360 | n received packets take at most 2n - 1 delta bytes. |
| `TwccDeltas.DeltaBytesAttained` | internal/buffer/twcc.go:352-360 | The bound is attained for every n: packets 64 milliseconds apart take two bytes each after the first. |
| `TwccBatch.SortPermutes` | internal/buffer/twcc.go:98-100 | Sorting keeps every record, counted. |
| `TwccBatch.SortSorts` | internal/buffer/twcc.go:98-100 | Sorting orders by extended number, strictly when numbers are distinct. |
| `TwccBatch.SortUnique` | internal/buffer/twcc.go:98-100 | With distinct numbers the sorted list is unique, so the instability of the library sort is immaterial. |
| `TwccBatch.FillGapsTiles` | internal/buffer/twcc.go:104-118 | A sorted batch tiles the numbers after the last reported one if and only if it repeats none of them. |
| `TwccBatch.FillGapsContent` | internal/buffer/twcc.go:104-118 | Every recorded number above the last reported one is kept with its arrival; every number filled in says not received. |
| `TwccBatch.BatchTiles` | internal/buffer/twcc.go:97-121 | One batch yields a contiguous nonempty list that starts right after the last reported number and ends at the new one. |
| `TwccBatch.FeedbacksTile` | internal/buffer/twcc.go:97-121 | Over a whole run of batches each feedback is contiguous and its base is the previous base plus the previous count. |
| `TwccBatch.UnwrapStep` | internal/buffer/twcc.go:61-69 | Whatever the cycle counted, it goes up exactly when a nearby number is of the next cycle; so a right count stays right if and only if the packet was not overtaken at a wrap. |
| `TwccBatch.WrapSeen` | internal/buffer/twcc.go:61-64 | A wrap is seen if and only if the number before was one of the last 4095 of a cycle and this one is one of the first 4095. |
| `TwccRecord.AtMostHundred` | internal/buffer/twcc.go:76-78 | In every run at most a hundred packets wait, so no feedback has more than 101 arrivals. |
| `TwccRecord.RunRecordsTrue` | internal/buffer/twcc.go:57-70 | Over any run every packet is recorded under its true number if and only if none arrives right after a packet of the next cycle. |
| `TwccRecord.RecordedTooHigh` | internal/buffer/twcc.go:61-69 | Over any run each packet is recorded under its true number plus 65536 for every packet, itself included, overtaken at a wrap so far, modulo 2^32. |
| `TwccRecord.OvertakenLasts` | internal/buffer/twcc.go:61-69 | So once a packet has been overtaken, it and every later packet are recorded under a false number, until 65536 have been overtaken. |
| `TwccRecord.ListsAreFeedbacks` | internal/buffer/twcc.go:76-118 | What the feedbacks of a run report is the chain of batches, each from the last number of the one before. |
| `TwccRecord.BatchesPartition` | internal/buffer/twcc.go:66-121 | Every packet of a run is in exactly one feedback's batch or still waits, in order. |
| `TwccRecord.RunTiles` | internal/buffer/twcc.go:57-121 | Over a whole run with no packet overtaken at a wrap, the feedbacks are contiguous, each starts right after the one before, and their records are the packets that arrived under their true numbers. |
| `TwccSchedule.NextFeedback` | internal/buffer/twcc.go:70-85 | Over any run, after a feedback the next is made at the first packet with more than 20 since, a media source and 100 ms gone by, or more than 100 since, or marked with 500 ms gone by: if and only if. |
| `TwccSchedule.FirstFeedback` | internal/buffer/twcc.go:46-85 | The first feedback counts from the first packet and from 100 ms after the responder was made. |
| `TwccSchedule.FeedbackCovers` | internal/buffer/twcc.go:66-121 | A feedback is built from exactly the packets recorded since the one before. |
| `TwccSchedule.RunReadsBack` | internal/buffer/twcc.go:57-302 | Over a whole run the i-th packet given out reads back as the i-th list with feedback count i modulo 256, if and only if its final flush lost nothing. |
| `TwccFeedback.FrameRoundTrip` | internal/buffer/twcc.go:274-300 | The length field counts the packet's words, the padding count its padding, and unframing gives back the body. |
| `TwccFeedback.FeedbackRoundTrip` | internal/buffer/twcc.go:92-302 | Decoding the built packet yields the base number, status count, reference time, packet counter, every status and every delta as written, if and only if the final flush lost nothing. |
| `TwccCapacity.DeltaBytesSize` | internal/buffer/twcc.go:175-198 | The deltas take one byte per arrival and one more for each gap between neighbours that is not in (-250, 64000) microseconds. |
| `TwccCapacity.DeltasOverflow` | internal/buffer/twcc.go:42 | With at most 101 arrivals the deltas overflow their array if and only if there are 101 and every gap is such a far one. |
| `TwccCapacity.FitsExactly` | internal/buffer/twcc.go:39-43 | A list of up to 294 numbers and 101 arrivals fits both arrays unless all 101 arrived with nothing but far gaps. |
| `TwccCapacity.FeedbackFits` | internal/buffer/twcc.go:57-85 | The same for every feedback of every run from a new responder that reports up to 294 numbers. |
| `TwccCapacity.SmallBatchFits` | internal/buffer/twcc.go:39-43 | Up to 294 numbers with up to 100 arrivals always fit. |
| `TwccCapacity.ReverseOrderOverflows` | internal/buffer/twcc.go:76-78 | A run from a new responder, whatever its media source, whose first feedback panics: 101 packets in reverse order of their numbers, 300 microseconds apart, take 201 delta bytes. |
| `TwccCapacity.LostNumbersOverflow` | internal/buffer/twcc.go:76-78 | A run from a new responder with a media source whose first feedback panics: 22 packets with 21 lost numbers between each two take 102 payload bytes. |
| `TwccCapacity.ShortRunsFit` | internal/buffer/twcc.go:324-332 | Batches below 8192 numbers meet the round trip's condition on run lengths. |
| `TwccResponder.Responder.Push` | internal/buffer/twcc.go:57-85 | Records one packet under its unwrapped number; when due, it panics if and only if the sorted, gap-filled batch does not fit the arrays, and else the feedback is exactly that batch's encoding. |
| `TwccResponder.Responder.BuildTransportCCPacket` | internal/buffer/twcc.go:92-302 | The bytes built in the two fixed arrays are exactly the specified packet; an index past an array's end happens exactly for batches that do not fit. |
| `TwccResponder.Responder.CollectPackets` | internal/buffer/twcc.go:97-121 | The in-place collection with gap filling equals the batch specification and empties the record. |
| `TwccResponder.Responder.WriteStatuses` | internal/buffer/twcc.go:123-272 | The main loop and flush run to their end if and only if the list fits the arrays, and then leave header, chunk bytes and delta bytes as the specification says. |
| `TwccResponder.Responder.PackStatus` | internal/buffer/twcc.go:201-252 | One turn over the queue and flags equals the packer's step, and the payload holds exactly the chunks emitted. |
| `TwccResponder.Responder.FlushChunk` | internal/buffer/twcc.go:259-271 | The as-written flush loop writes the first half, rounded up, of the leftover. |
| `TwccResponder.Responder.WriteHeader` | internal/buffer/twcc.go:304-322 | Writes the sixteen header bytes in place. |
| `TwccResponder.Responder.WriteRunLengthChunk` | internal/buffer/twcc.go:324-332 | Appends the word of a run-length chunk. |
| `TwccResponder.Responder.WriteStatusSymbolChunk` | internal/buffer/twcc.go:343-350 | Appends the word of a status vector chunk and clears the word under construction. |
| `TwccResponder.Responder.WriteDelta` | internal/buffer/twcc.go:352-360 | Appends one or two delta bytes, or panics exactly when the array has no room for them. |
| `TwccResponder.Responder.AssemblePacket` | internal/buffer/twcc.go:274-302 | Frames the two arrays into one packet and empties them. |
| `NackPairs.PairsExact` | internal/buffer/nack.go:98-130 | For strictly increasing entries of one cycle the pairs name exactly the entries, each once and in order, if and only if the first low half is not zero. |
| `NackWrap.PairsAcrossWrap` | internal/buffer/nack.go:115-130 | For entries less than a cycle apart the pairs name exactly the entries if and only if the first low half is not zero and either no wrap lies between them or the last greedy window before it starts above 65519; otherwise every entry after the wrap is lost and exactly those before it are named. |
| `NackWrap.LostAcrossWrap` | internal/buffer/nack.go:126 | Two entries either side of a wrap: after 65519 the next one is lost, after 65520 it is not. |
| `NackMinimal.PairsMinimal` | internal/buffer/nack.go:115-130 | With low halves up to 65519, no set of pairs that covers the entries is smaller. |
| `NackMinimal.MinimalUnlessTop` | internal/buffer/nack.go:115-130 | With low halves from 16 on, the packing is minimal if and only if the last window of seventeen numbers, laid greedily over the entries, starts at or below 65519 or at the last entry. |
| `NackMinimal.NotMinimalAtTheTop` | internal/buffer/nack.go:117 | The smallest failing case: two neighbours above 65519 take two pairs where one names both. |
| `LossQueue.NackQueue.Search` | internal/buffer/nack.go:48-50 | Bisection finds the first position whose number is at least the one sought. |
| `LossQueue.NackQueue.PushSN` | internal/buffer/nack.go:35-66 | Tracking, bisection, in-place shift and eviction equal the specified insertion. |
| `LossQueue.NackQueue.RemoveSN` | internal/buffer/nack.go:68-81 | In-place deletion equals the specified one. |
| `LossQueue.NackQueue.Compact` | internal/buffer/nack.go:93-132 | One pass compacts the list to its survivors, packs exactly them, and raises kfSN to the highest number given up. |
| `LossQueue.NackQueue.PairsSN` | internal/buffer/nack.go:83-134 | A call counts or is effective as specified; its pairs are those of the numbers reported. |
| `LossQueue.LiveSurvives` | internal/buffer/nack.go:98-132 | Compaction loses no entry asked for fewer than three times. |
| `LossQueueRuns.QueueInvariant` | internal/buffer/nack.go:27-134 | Over every run a queue that began empty stays strictly sorted with at most 100 entries, one from newNACKQueue sorted with at most 101. |
| `LossQueueRuns.PushMeaning` | internal/buffer/nack.go:46-65 | Insertion is set insertion bounded by eviction of the smallest, stated for every number, both ways. |
| `LossQueueRuns.RemoveMeaning` | internal/buffer/nack.go:68-81 | Deletion takes out exactly the one number. |
| `LossQueueRuns.SurvivorsMeaning` | internal/buffer/nack.go:98-132 | A number survives compaction if and only if it has been asked for fewer than three times. |
| `LossRequests.RunSpread` | internal/buffer/nack.go:27-134 | Over any run no number is queued twice but the zeros newNACKQueue makes, and the order is kept. |
| `LossRequests.RequestExact` | internal/buffer/nack.go:93-133 | An effective request asks for the nonzero entries asked for fewer than three times, and for exactly those, each once and in order, if and only if the packing loses none of them. |
| `LossRequests.RunRequestExact` | internal/buffer/nack.go:27-133 | Over any run from newNACKQueue within the first cycle, an effective request decodes to exactly the nonzero numbers queued and asked for fewer than three times, each once and in ascending order. |
| `LossRequests.SomethingNamed` | internal/buffer/nack.go:115-130 | A request writes a pair if and only if an entry still to be asked for has a nonzero low half. |
| `LossTiming.NextEffective` | internal/buffer/nack.go:65-92 | Over any run from newNACKQueue, after an effective call a call is effective if and only if the insertions and calls since, modulo 256, are at least two. |
| `LossTiming.FirstEffective` | internal/buffer/nack.go:27-92 | The first effective call counts from the start. |
| `LossTiming.CallMeaning` | internal/buffer/nack.go:88-133 | An ineffective call changes no entry and asks for nothing; an effective one compacts the queue and asks for what survives. |
| `LossCycles.EnteredAs` | internal/buffer/nack.go:35-81 | Over any trackable run a loss is entered, and a recovery looked for, in the cycle of the highest number lost: under its own number if and only if it belongs to that cycle, else 65536 too high. |
| `LossCycles.TrackedExactly` | internal/buffer/nack.go:37-45 | A loss near the highest so far keeps the tracking if and only if it is higher or the highest has a nonzero low half, since zero is read as nothing lost yet. |
| `LossCycles.RecoveredTooLate` | internal/buffer/nack.go:68-77 | A number queued in one cycle and recovered after losses have reached the next is not found, and stays queued. |
| `LossCycles.LateAfterWrap` | internal/buffer/nack.go:68-77 | A concrete run: 65534 and 65537 lost, 65534 recovered, and still queued. |
| `LossQueueRuns.RequestsBounded` | internal/buffer/nack.go:99-114 | In any run without re-insertion a number is asked for at most as often as its remaining patience. |
| `LossQueueRuns.AtMostThreeRequests` | internal/buffer/nack.go:10-113 | A number just inserted is asked for at most three times, whatever happens until it is inserted again. |
| `LossQueueRuns.TwelveCallsDrain` | internal/buffer/nack.go:83-134 | From any state twelve calls to pairs without a push empty the queue. |
| `LossQueueRuns.ElevenCallsMayNot` | internal/buffer/nack.go:88-114 | Eleven calls need not. |
| `LossQueueRuns.KeyFrameMeaning` | internal/buffer/nack.go:99-109 | kfSN rises if and only if a number above every one given up before is given up, and then to the highest number given up. |
| `PacketRing.RunAgrees` | internal/buffer/bucket.go:39-115 | After every proper run the ring of slots agrees with the map from true numbers to packets. |
| `PacketRing.RingRefinesMap` | internal/buffer/bucket.go:39-152 | Any of the last maxSteps numbers is found exactly as last added, across wraps and jumps longer than the ring; a skipped number is not found while its slot's last write is under 65536 numbers old. |
| `PacketRing.LateAtTheLimit` | internal/buffer/bucket.go:79-103 | A late packet leaves the newest one readable if and only if it is not exactly maxSteps behind with the write position past the start. |
| `PacketRing.LateRefused` | internal/buffer/bucket.go:79-96 | A late packet is refused if and only if it is more than maxSteps behind, or just maxSteps with the write position at zero; then nothing changes. |
| `PacketRing.RepeatedHeadShifts` | internal/buffer/bucket.go:55-76 | A repeat of the newest packet makes every older number be looked up one slot too far. |
| `PacketRing.RepeatedHeadLoses` | internal/buffer/bucket.go:55-152 | After it an older packet that was found before is missed, unless the next slot's number has the same low bits. |
| `Bucket.Bucket.AddOne` | internal/buffer/bucket.go:39-77 | Writing the byte array in place is the ring's step on values; the loss queue gets exactly the skipped numbers or loses the late one; the callback gets the pairs of an effective request. |
| `Bucket.Bucket.AddNewest` | internal/buffer/bucket.go:55-76 | The in-order branch, with its loop over skipped numbers. |
| `Bucket.Bucket.Set` | internal/buffer/bucket.go:79-103 | The late branch: which slot is written, and when none is. |
| `Bucket.Bucket.PushPacket` | internal/buffer/bucket.go:106-115 | Length and bytes are stored at the write position, all other slots unchanged. |
| `Bucket.Bucket.Lookup` | internal/buffer/bucket.go:135-152 | Reading the byte array finds exactly what the ring of slots holds. |
| `Bucket.Bucket.GetPacket` | internal/buffer/bucket.go:117-133 | Copies out the packet found; not-found and too-small results leave the caller's buffer alone. |
| `Bucket.KeyFrameHeard` | internal/buffer/bucket.go:68-75 | A rise of kfSN reaches the loss callback if and only if, in that effective request, another entry with a nonzero low half is still to be asked for. |
| `Bucket.KeyFrameUnheard` | internal/buffer/bucket.go:71 | A queue of one entry asked for three times: kfSN rises, the entry is dropped, the callback is not called. |
| `GapLedger.GapsAccounted` | internal/buffer/bucket.go:47-75 | Within a cycle, a number the head has passed is queued if and only if it was neither added, nor evicted, nor abandoned after three reports. |
| `GapLedger.MissingAreAskedFor` | internal/buffer/bucket.go:55-75 | After any run within a cycle, what an effective request gives the loss callback names exactly the numbers passed and still neither added, evicted nor abandoned, each once and in order; the callback is not called otherwise. |
| `GapTiming.RequestSchedule` | internal/buffer/bucket.go:55-75 | Within a cycle a newest packet asks if and only if the numbers skipped and the newest packets since the last request, counted on the arrivals modulo 256, are at least two. |
| `GapTiming.SkippedAreNamed` | internal/buffer/bucket.go:55-75 | When the request is due, the callback is called at once and names the hundred skipped numbers nearest to the newest packet. |
| `GapTiming.BurstAskedAtOnce` | internal/buffer/bucket.go:55-75 | So a gap of two to 253 numbers is asked for by the very packet that opens it. |
| `GapTiming.LongBurstUnasked` | internal/buffer/nack.go:65 | A gap of 256 numbers right after a request is counted as none: the callback is not called. |
| `MeshSafety.InvNext` | internal/sfu/session.go:61-116 | Every atomic step of every join and publish keeps the mesh invariant. |
| `MeshSafety.MeshComplete` | internal/sfu/router.go:143-240 | Under every interleaving, once all joins and publishes have finished, each peer holds exactly one down track per other peer's track and none of its own, and each receiver serves exactly those peers once. |
| `MeshSafety.NoDeadlock` | internal/sfu/router.go:143-166 | No interleaving blocks: until all have finished some thread can step. |
| `MeshProgress.StepsShrink` | internal/sfu/router.go:143-240 | Every step but the start of a join or publish lowers a count of the steps left. |
| `MeshProgress.RunsEnd` | internal/sfu/session.go:61-116 | From every reachable state, every run that starts nothing new ends within a bound computed from that state. |
| `MeshProgress.QuietReached` | internal/sfu/session.go:61-116 | Every such run, however far it has come, can be carried on to the quiet state of MeshComplete. |
| `MeshObjects.Subscriber.GetDownTracks` | internal/sfu/subscriber.go:180-184 | Returns the tracks of one stream in the order added. |
| `MeshObjects.Subscriber.AddDownTrack` | internal/sfu/subscriber.go:187-197 | Adds one track to its stream's list and no other. |
| `MeshObjects.Router.AddReceiver` | internal/sfu/router.go:111-133 | A track name is published once; another layer joins the same receiver. |
| `MeshObjects.Router.AddDownTrack` | internal/sfu/router.go:173-240 | The look through one stream decides duplicates as a look through all tracks would; both lists grow by one or neither does; a track that cannot be made is an error that changes nothing. |
| `MeshObjects.Router.AddOneDownTrack` | internal/sfu/router.go:147-154 | Delivering one track: renegotiation is asked for even if it was there, and not on an error. |
| `MeshObjects.Router.AddAllDownTracks` | internal/sfu/router.go:156-165 | In whatever order the map is walked, the subscriber gains exactly the tracks it lacked, each once, and exactly their receivers gain it; it fails if and only if a track it lacks is refused, and then keeps what came before without a renegotiation. |
| `MeshObjects.Session.Peers` | internal/sfu/session.go:31-39 | The snapshot holds every peer of the map exactly once. |
| `MeshObjects.Session.Publish` | internal/sfu/session.go:61-78 | On its own snapshot of the session, every other peer that is not refused has the track afterwards, the publisher's own tracks are unchanged, and the receiver gains exactly the peers that lacked it, once each. |
| `MeshObjects.Session.Subscribe` | internal/sfu/session.go:81-116 | On its own snapshot, the joining peer has all tracks of every other router without a refusal afterwards, gains none of its own, and exactly the receivers of what it gained gain it. |
| `Negotiation.NoLostRenegotiation` | internal/sfu/peer.go:83-190 | In every reachable state at most one offer is outstanding, the pending flag says so unless an offer could not be sent, and while offers succeed and are sent a change newer than the last offer has something that will announce it. |
| `Negotiation.CoverageStep` | internal/sfu/peer.go:89-106 | A step loses the cover of a change if and only if the last timer goroutine fails to make its offer, cannot send it, or waits for an answer that will not come. |
| `Negotiation.MutedForever` | internal/sfu/peer.go:100-105 | An offer made with nobody to send it leaves the pending flag set for good: no later change is ever offered. |
| `Negotiation.FailedOfferLosesChange` | internal/sfu/peer.go:94-98 | A concrete run in which a failed offer leaves a change unannounced with nothing pending. |
| `Negotiation.WorkShrinks` | internal/sfu/subscriber.go:130-135 | Without new changes every step is progress, so the exchange comes to rest. |
| `Negotiation.RestIsAgreement` | internal/sfu/peer.go:183-189 | Where it rests both sides agree on every change. |
| `Negotiation.TwoOffersAgree` | internal/sfu/peer.go:83-190 | Once changes stop, two answered offers suffice for agreement. |
| `Negotiation.Peer.NegotiationNeeded` | internal/sfu/peer.go:83-106 | The callback on the two flags: defer, fail, send one offer, or, for a closed peer or without a handler, set the flag and send nothing. |
| `Negotiation.Peer.SetRemoteDescription` | internal/sfu/peer.go:169-192 | The answer clears the flags and re-arms the timer if a change was deferred; a rejected answer changes nothing. |
| `Sequencer.Recorder.PushPacket` | internal/sfu/sequencer.go:47-94 | The array, write position and head are updated as specified, late packets included. |
| `Sequencer.Recorder.GetSeqNoPairs` | internal/sfu/sequencer.go:97-122 | A request stamps and returns records one number after the other. |
| `SequencerRuns.RequestIsRun` | internal/sfu/sequencer.go:102-119 | A request for several numbers is a run of single requests at one instant. |
| `SequencerRuns.ReturnedWasSent` | internal/sfu/sequencer.go:102-118 | After any run, a record returned for a nonzero number carries the source, timestamp and layer of a packet sent under that number. |
| `SequencerRuns.Throttled` | internal/sfu/sequencer.go:112-117 | Two returns of one stored record are more than 100 ms apart, inside one request or across requests, on a clock that is nonzero and does not go back. |
| `SequencerRuns.ReturnedAgain` | internal/sfu/sequencer.go:112-117 | A record returned once and read again is returned if and only if more than 100 ms went by, on any clock by the wrapped difference. |
| `SequencerRuns.ReturnedFirst` | internal/sfu/sequencer.go:112-117 | A record never returned is returned at the first request that reads it. |
| `SequencerRuns.AskedKeeps` | internal/sfu/sequencer.go:103-118 | A request for a number up to a cycle back is answered as an unbounded log would: its own record, if still held, reached and not throttled, else nothing. |
| `SequencerRuns.SentKeeps` | internal/sfu/sequencer.go:57-69 | An in-order packet, with any jump below a cycle, keeps the ring in step with the log. |
| `SequencerRuns.WindowFound` | internal/sfu/sequencer.go:97-122 | After in-order packets any number sent among the last 499 is returned unless throttled. |
| `SequencerRuns.RunAnswersLikeLog` | internal/sfu/sequencer.go:47-122 | Over whole in-order runs of packets and requests every answer is the log's. |
| `SequencerRuns.FirstSend` | internal/sfu/sequencer.go:51-89 | The first packet sent, newest or not, puts ring and log in step. |
| `SequencerRuns.LatePacketShifts` | internal/sfu/sequencer.go:70-92 | A packet behind the head is stored where a request for it does not look, and shifts every older lookup by one. |
| `SequencerRuns.LateRefused` | internal/sfu/sequencer.go:70-79 | A packet behind the head leaves the record as it was if and only if it is 500 or more entries behind the write position. |
| `SequencerRuns.NewestFound` | internal/sfu/sequencer.go:55-118 | The newest packet just recorded is found at once, whatever the record held. |
| `DownTrack.Forwarder.WriteSimpleRTP` | internal/sfu/downtrack.go:255-306 | The simple rewrite on the fields, the packet sent and the record left, against the value specification. |
| `DownTrack.Forwarder.WriteSimulcastRTP` | internal/sfu/downtrack.go:308-390 | The simulcast rewrite likewise, with dropped strays, key-frame requests and the layer left. |
| `DownTrack.Forwarder.HandleNack` | internal/sfu/downtrack.go:446-458 | A negative acknowledgement collects the records of all its pairs in order. |
| `DownTrackRuns.StepTied` | internal/sfu/downtrack.go:257-291 | Every step keeps the wrapped fields tied to an unwrapped numbering, and the number on the wire is its low half. |
| `DownTrackRuns.HeadsIncrease` | internal/sfu/downtrack.go:257-376 | Over any run with any number of source changes, newest packets go out under strictly increasing true numbers. |
| `DownTrackRuns.SourceCarriesOn` | internal/sfu/downtrack.go:268-354 | The first packet of a new source goes out right after the last number. |
| `DownTrackRuns.SpacingKept` | internal/sfu/downtrack.go:282-361 | Within one source, in any run, numbers and timestamps keep their distances and the payload is untouched. |
| `DownTrackRuns.SimpleContinues` | internal/sfu/downtrack.go:268-274 | Taking up a plain source continues the numbers if and only if the last number is not zero or the old offset gives one. |
| `DownTrackRuns.ZeroReadAsUnset` | internal/sfu/downtrack.go:268 | A run in which the last number wraps to zero and the next source does not continue it. |
| `DownTrackRuns.SwitchContinues` | internal/sfu/downtrack.go:323-354 | A new simulcast source, taken up at a layer change or after a new binding, continues the numbers, and its timestamp is later if and only if the time counted is between -12 ms and half the timestamp range. |
| `DownTrackSources.SyncIs` | internal/sfu/downtrack.go:257-276 | Over any run the re-sync flag says whether nothing was sent since the last binding, and the source remembered is that of the last packet sent or, on a plain track, last taken up. |
| `DownTrackSources.SimpleTakesUp` | internal/sfu/downtrack.go:257-266 | Over any run a plain track sends every packet, but for video after a binding: there it waits for a key frame, and exactly the packets held back ask for one. |
| `DownTrackSources.SimulcastTakesUp` | internal/sfu/downtrack.go:311-342 | Over any run a simulcast track sends packets of its source, takes up another only at a key frame, asks for one with every other packet held back, drops strays silently, and leaves exactly the layer in use if another is wanted. |
| `DownTrackSources.LastIsSent` | internal/sfu/downtrack.go:287-291 | Over any run the last number and timestamp are those of the last newest packet sent or, on a simulcast track without one, of the first. |
| `DownTrackSources.SourceFollows` | internal/sfu/downtrack.go:323-376 | Over any run under a clock that never goes back, the first packet of another simulcast source has the number after that of the packet sent it follows and a later timestamp, by at least one and else by 90 a second since the last packet sent. |
| `DownTrackSources.BindingFollows` | internal/sfu/downtrack.go:268-289 | Over any run the first packet of a plain track after a binding has number and timestamp right after those of the last newest packet sent, if that number is not zero. |
| `DownTrackSources.CountsAreSent` | internal/sfu/downtrack.go:279-280 | The counters are the packets sent and their payload octets, modulo 2^32. |
| `Retransmission.Receiver.RetransmitPackets` | internal/sfu/receiver.go:237-284 | The loop over records sends exactly the rebuilt packets, skips misses, and stops at a layer without a cache. |
| `Retransmission.SentPositions` | internal/sfu/receiver.go:248-282 | A request sends, in order and each once, exactly the packets that are cached and parse, up to the first record of a layer without a cache. |
| `Retransmission.Receiver.Fetch` | internal/sfu/receiver.go:249-277 | One record: bytes from the cache into a buffer, parsed, header rewritten. |
| `RetransmissionRuns.NackIsRun` | internal/sfu/downtrack.go:446-452 | Handling a negative acknowledgement is asking for every number it lists in turn. |
| `RetransmissionRuns.RecordIsHistory` | internal/sfu/sequencer.go:47-122 | In the joined system the record is what its own events since the last binding make of it. |
| `RetransmissionRuns.CacheReturns` | internal/sfu/receiver.go:255 | A published packet still in the window is found byte for byte under its source number. |
| `RetransmissionRuns.ResentIsFirstSent` | internal/sfu/receiver.go:248-278 | In any run, what is re-sent for a nonzero number stems from a packet sent under it and, if that was published on the layer recorded and is still cached, equals it: number, timestamp, payload, identity. |
| `RetransmissionRuns.WrongLayerResent` | internal/sfu/downtrack.go:341-366 | A key frame of one layer that ends the wait for another is recorded under the other, and is answered with the packet of that layer that has its number. |
| `NackAnswers.AsksForThePairs` | internal/sfu/downtrack.go:446-450 | The requests of an acknowledgement are for the numbers its pairs name, in order. |
| `NackAnswers.AnsweredInFull` | internal/sfu/downtrack.go:446-458 | Every nonzero number listed whose record is found stems from a packet sent under it and, if that was published on the layer recorded and is still cached, is among the packets sent again, equal to the first. |
| `NackAnswers.SimpleLayerZero` | internal/sfu/downtrack.go:285 | The records of a plain track name layer 0, and are fetched from there. |
| `NackAnswers.VideoIsRecorded` | internal/sfu/downtrack.go:119-121 | A plain video or simulcast track finds what it sent last at once. |
| `NackAnswers.AudioIsNotRecorded` | internal/sfu/downtrack.go:119-121 | A plain audio track keeps no record. |
| `ReceptionReport.Buffer.CalcPacket` | internal/buffer/buffer.go:278-415 | Sequence tracking, probing and the report trigger on the fields. |
| `ReceptionReport.Buffer.BuildReceptionReport` | internal/buffer/buffer.go:439-464 | The report and the totals it leaves, in 32-bit arithmetic. |
| `ReceptionReport.ReceivedTied` | internal/buffer/buffer.go:279-327 | Every regular arrival, across wraps and late packets, keeps highest number, cycle and count those of the set of true numbers. |
| `ReceptionReport.NewestIsHighest` | internal/buffer/buffer.go:301-307 | A regular arrival counts as newest if and only if its true number is above all others. |
| `ReceptionReport.ExtMaxIsTrue` | internal/buffer/buffer.go:440 | The extended highest number is the true highest one modulo 2^32. |
| `ReceptionReport.TotalLostIsMissing` | internal/buffer/buffer.go:441-446 | The total lost is the number of values in [lowest, highest] that never arrived if and only if the base is the lowest number, or nothing is missing and the base is higher; in any case it is the number missing plus the distance from base to lowest number, or zero if that is negative. |
| `ReceptionRuns.BaseIsLowest` | internal/buffer/buffer.go:281-327 | Over a regular run the base is the lowest number if and only if that is the first packet's or a probed packet's low half and no probed packet has a lower one. |
| `ReceptionRuns.ReportsAreTrue` | internal/buffer/buffer.go:407-464 | Every report of a regular run gives the true highest number; its total is the number of missing values if and only if no probed packet has a low half below the lowest number and, unless nothing is missing, the lowest number was offered as base; the interval losses so far add up to the shortfall the total states. |
| `ReceptionRuns.WrapReadsAsLoss` | internal/buffer/buffer.go:325-328 | Packet 65535 and a second later the next one: 65535 reported lost with nothing missing. |
| `ReceptionRuns.LateFirstHidesLoss` | internal/buffer/buffer.go:325-328 | Packet 2 and a second later 65535 of the cycle before: none reported lost with two missing. |
| `ReceptionRuns.Telescopes` | internal/buffer/buffer.go:448-456 | In any run the interval losses add up to the difference of the last totals. |
| `ReceptionReport.FractionIsShare` | internal/buffer/buffer.go:459-464 | The fraction is the exact share in 1/256 if and only if anything was received; with nothing received it reads zero. |
| `ReceptionRuns.ReportedFraction` | internal/buffer/buffer.go:407-464 | Every report made by calc has received at least one packet in its interval, so its fraction is exact under the stated bounds. |
| `ReceptionReport.SurplusShare` | internal/buffer/buffer.go:456-464 | When more arrived than was expected, by less than 2^24, the fraction is the share that 2^24 less the surplus leaves over the expected number, and reads zero exactly when 256 times that remainder is below it. |
| `ReceptionRuns.SurplusReadsAsLoss` | internal/buffer/buffer.go:407-464 | A regular run of five packets whose second report states the highest number and the one missing value truly, and half of the interval as lost although three arrived where two were expected. |
| `ReceptionRuns.NextReport` | internal/buffer/buffer.go:405-456 | After a report the next is made at the first parsed arrival a second or more later, if and only if, and its interval is exactly what was received and expected since. |
| `ReceptionRuns.FirstReport` | internal/buffer/buffer.go:285-412 | The first report is made at the first parsed arrival a second or more after the very first arrival. |

## Left out

- TwccFeedback.FeedbackRoundTrip: the decoded deltas are those written; they equal the true deltas exactly under WrittenExact.
- TwccResponder.Responder.Push: of the fields after a panic nothing is said.
- TwccCapacity.FitsExactly: for up to 294 numbers; beyond, whether the chunks fit depends on every status, and LostNumbersOverflow shows a list that does not.
- TwccBatch.FeedbacksTile: requires numbers that are distinct, nonzero and below 0xFFFFFFFF, and a new number in every batch, since zero means "nothing reported yet" and the counter is 32 bits wide.
- TwccSchedule.RunReadsBack: for lists below 8192 numbers that have an arrival and fit the arrays; what a run does after a panic is not modelled.
- TwccRecord.RunTiles: for neighbours less than 4095 numbers apart and numbers below 0xFFFF0000; each batch must have a number above those reported, as for FeedbacksTile.
- TwccBatch.SortSorts: the library sort is modelled as a stable insertion sort; SortUnique shows the choice cannot be seen when numbers are distinct.
- NackMinimal.MinimalUnlessTop: for requests without low halves below 16; requests with entries at both ends of the number space, which one wrapping pair could join, are only covered up to 65519, by PairsMinimal.
- NackWrap.PairsAcrossWrap: for entries less than a cycle apart; beyond, two entries can share a low half and no pair tells them apart.
- LossRequests.RunRequestExact: within the first cycle; later ones are covered by RequestExact under its condition, and the identity of queued numbers after a wrap is what the code computes.
- GapLedger.GapsAccounted: within one sixteen-bit cycle, from a nonzero first number, as are MissingAreAskedFor and the schedule of GapTiming.
- LossCycles.EnteredAs: for runs whose every loss is near the highest so far, or after it in its cycle when that has a zero low half; TrackedExactly says what becomes of the others.
- PacketRing.RingRefinesMap: for a buffer that starts zeroed and packets of 4 to 1458 bytes that carry their own number; the reuse of pooled buffers is not modelled.
- Bucket.Bucket.AddOne: for packets of 4 to 1458 bytes, as are AddNewest, Set and PushPacket (internal/buffer/buffer.go:279 reads a number from bytes two and three before, and a longer packet runs over the slot after its own); the packet returned is a value, so that the source's slice aliases the cache and may be overwritten before it is sent is not modelled.
- MeshSafety.MeshComplete: for joins and publishes without errors, with unique stream and track names, and peers that publish only after joining (as signal/signal.go:75-86 orders them); leaving, closing and session creation are not single atomic steps and are not modelled.  AddPeer is assumed to be atomic: internal/sfu/session.go:42-44 writes the map under the read lock, which excludes neither a second join nor a snapshot.
- MeshObjects.Session.Publish: runs alone; what concurrent steps do between its lock sections is the business of Mesh.
- MeshObjects.Session.Subscribe: the data channels opened for a joining peer are not part of this model.
- Negotiation.TwoOffersAgree: assumes that offers and answers succeed, that offers are sent, and that no tracks change meanwhile.
- SequencerRuns.RunAnswersLikeLog: for in-order packets only; a packet behind the head breaks it, as LatePacketShifts states.
- DownTrackSources.SourceFollows: for arrivals that are not zero, do not go back and span less than 276 days.
- NackAnswers.AnsweredInFull: for nonzero numbers, and acknowledgements whose records all name layers with a cache; SentPositions says where another one is cut off.
- SequencerRuns.ReturnedWasSent: for nonzero numbers, since an unused entry reads as number zero.
- DownTrackRuns.HeadsIncrease: the wanted layer that a simulcast switch clears at internal/sfu/downtrack.go:341 is kept as written; how layers are chosen (internal/sfu/downtrack.go:476-528) is an input.
- RetransmissionRuns.ResentIsFirstSent: no later packet of the same layer may reuse the true number; the layer recorded must be the one the packet was published on.
- Retransmission.Receiver.RetransmitPackets: a cache that has been closed ends the loop like a missing one and is not told apart from it; the worker pool that runs the loop is not modelled.
- ReceptionRuns.ReportsAreTrue: for distinct arrivals within half a cycle of the highest, fewer than 2^32 - 1 packets, and an expected count below 2^32.
- Jitter, bitrate estimates, the delay since the last sender report and the float loss rate of buffer.go: one-branch or floating-point facts.
- Marshalling of standard RTP, RTCP and SDP, ICE, DTLS, the pacer and goroutine scheduling: library code.
- Configuration, signalling, data channels, logging and metrics: wiring without algorithms.
