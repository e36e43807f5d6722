# The in-memory protocol engines of the mediasoup worker

The mediasoup C++ worker forwards WebRTC media between endpoints. Around its sockets sit a dozen engines that keep
state in memory, count in 16 and 32 bits, and rewrite packets in place. This project models those engines in Dafny
and proves what they guarantee, over every input and every run.

Every engine is modelled twice, and the two are tied together. A value (a datatype, with functions for the operations)
carries the theory: invariants, round trips, statements over whole runs. A class with the source's own fields, arrays
and loops carries the code: each of its methods is proved to compute the function of the same name. So what is proved
of the value holds of the code's loops as well.

| files | engine |
|---|---|
| `Seq16`, `Bytes`, `Arithmetic`, `Delivery` | circular 16-bit numbers, bytes in network order, elementary facts, what the two framers share |
| `NackPacking`, `SendBuffer*`, `RtpStreamSend` | NACK items; the retransmission buffer: an index of 65536 slots over a small pool |
| `NackGenerator*` | the list of missing packets of a receiving stream |
| `SeqManager*`, `RtpStream`, `RtpStreamScore`, `SimpleConsumer*` | renumbering, RFC 3550 sequence bookkeeping, stream score, and the consumer that drives them |
| `Layers`, `Simulcast*`, `Svc*` | what a consumer may spend and which layer it takes; switching between simulcast layers |
| `BitrateDistribution`, `BitrateOutcome`, `WebRtcTransport` | sharing the available bitrate among the consumers |
| `TcpConnection`, `Netstring`, `UnixStreamSocket` | RFC 4571 frames and netstrings taken out of byte streams over a bounded buffer |
| `RateCalculator*` | bytes per second over a sliding window |
| `IceServer` | the ICE tuple state machine |
| `Router*` | who produces and who consumes, and what a close takes with it |
| `Stun*` | STUN messages: parsing, serializing, integrity |
| `RtpPacket*`, `RtpExtensions` | RTP packets on the wire: header extensions, RTX, payload shifting, cloning |

`dafny verify dfyconfig.toml` checks all of it.

Time is an input. Clocks, random numbers, HMAC, CRC-32, payload descriptors (`IsKeyFrame`, `ProcessPayload`), the
per-layer bitrates of producer streams and the decisions of listeners are parameters; the theorems hold for all of
them. Floating-point factors are exact rationals.

## What turned out to depend on a condition

The model follows the code where code and comments, or code and expectation, part. In each case the exact condition is
proved, or a concrete run is given.

* `SeqManager::Input` counts earlier drops with plain `<`, and erases drops without folding them into the base
  (src/RTC/SeqManager.cpp:77-78, 91-92). Over any stream of less than 65536 numbers the output is gapless if and only if
  every drop is at most 32767 before each packet sent after it, and not on the other side of the wrap (`GaplessIff`).
  A dropped number is refused again if and only if no input since made the manager forget it, which an input does when
  it is more than 32767 after the drop or at least two before it (`RefusedIff`, `SingleDropRefusedIff`). Both hold where
  the comparator orders the set; `DistantDropSortsFirst` and `InputBetweenDrops` show where it does not.
* A late packet makes a SeqManager forget the drops ahead of it, so a later late packet can get a number that was given
  out before (`LateInputsCollide`), and right before a drop numbered 0 even one from before the synchronization
  (`LateBeforeTheWrapRepeats`). Packets in order never do (`SimulcastContinuity.RunIsContinuous`).
* The retransmission buffer needs at least two pool items, and two suffice (`PoolNeedsTwoItems`). Consumers ask for 600.
* The age test of a retransmission multiplies in 32 bits (src/RTC/RtpStreamSend.cpp:481): the age is exact if and only if
  `diffTs * 1000` is below 2^32, and too small otherwise (`AgeIsExactIff`). At 90 kHz a packet 47.7 seconds old is resent
  as new (`OldPacketIsResent`).
* `totalPriorities` is a `uint16_t`: the shares of the first round fit into the available bitrate if and only if the
  priorities add up to less than 65536 (`SharesFitIff`). A distribution conserves the bitrate if and only if the clamp of
  the first round never fires, which it does not below that bound (`DistributionConserves`). Each single share is the
  intended proportion if and only if its 32-bit product does not overflow (`ShareIsExactIff`).
* `IncreaseLayer` never reaches the preferred pair of layers, because its loop leaves with `requiredBitrate` still 0
  (src/RTC/SimulcastConsumer.cpp:556-565; `IncreaseClimbs`). `maxProducerScore` in `UseAvailableBitrate` is never
  updated (src/RTC/SimulcastConsumer.cpp:401, 419), so that check never skips a layer.
* The two Sender Report assertions rely on reports with an NTP time: a report with time 0 is enough to make them fail
  (`ReportTimeDecides`).
* The timestamps that a simulcast consumer sends are compared plainly at a synchronization and for extra offsets
  (src/RTC/SimulcastConsumer.cpp:769, 824), and circularly by its sending stream. The first packet of a frame does not go
  back if and only if its shifted timestamp is circularly not behind the highest one, or is plainly lower and is lifted,
  as it is at a synchronization and while extra offsets are in use (`SimulcastTimestamps.RunIsInPlace`). It goes back when
  only the highest one has wrapped (`SyncAcrossTheWrapGoesBack`), and may once the extra offsets are reset
  (`ResetEndsTheLift`). The second limit of that reset, 500, is never met (`RetimeCounts`).
* A `RateCalculator` made before its clock shows `windowSize` never counts anything (`CountsIff`), since
  `now - windowSize` wraps (include/RTC/RateCalculator.hpp:79).
* A STUN error code survives serializing and parsing if and only if it is below 25600 (`ErrorCodeRoundTripIff`).
* A first RTP packet with sequence number 0 counts as a cycle (`FirstPacket`), and a restart keeps the cycles
  (`RestartAfterJump`), as `InitSeq` resets `baseSeq`, `maxSeq` and `badSeq` only (src/RTC/RtpStream.cpp:285-293).
* The weighted score is truncated, not rounded: the quotient is taken between integers before `std::round` sees it
  (src/RTC/RtpStream.cpp:220-246). It is the rounded mean if and only if the fraction is below a half
  (`ScoreIsRoundedIff`, `HalfIsCut`). The example in the comment is no such case; its mean is 3, not 2.8
  (`CommentExampleIsExact`).
* An RFC 4571 packet of 65535 bytes does not fit the buffer and closes the connection (`BiggestPacketCloses`).
* An SVC consumer whose stream is dead has priority 0 (src/RTC/SvcConsumer.cpp:310-348), so it takes no part in a
  distribution and keeps its old target: an active one gets what the distribution chose if and only if its stream is
  alive and the total is not 0 (`SvcOutcome`). A simulcast consumer without live streams lets go (`DeadSimulcastLetsGo`).
* A simulcast consumer ignores the refusal of its SeqManager. A packet then leaves with an uninitialized number, if and
  only if its number was dropped since the last synchronization, is still remembered, and comes again
  (`UndefinedIff`, `UndefinedIsReachable`).
* A transport finds every consumer by its SSRCs as long as no consumer takes over an SSRC of another one, and only so
  long (`AnswerIsCompleteIff`).

## Model

| member | source | states |
|---|---|---|
| Seq16.LowerIsAhead | src/RTC/SeqManager.cpp:10-39 | lower means 1 to 32767 behind on the circle, and of two antipodal numbers the larger one is lower; the two comparators are each other's mirror image |
| Seq16.LowerIsOrderInWindow | src/RTC/SeqManager.cpp:10-14 | inside any half circle the comparator of the ordered containers is the order of the distances from its origin, so a strict total order |
| Seq16.LowerIsCyclicOnTheWholeCircle | src/RTC/SeqManager.cpp:10-14 | on the whole circle it is not an order: three numbers form a cycle |
| Seq16.LowerOfUnwrapped | src/RTC/SeqManager.cpp:10-39 | less than half a circle apart, residues compare like the unwrapped numbers |
| Seq16.LowerBound | src/RTC/SeqManager.cpp:55-59 | lower_bound of the ordered containers: all before it are lower, the one there is not |
| NackPacking.Pack | src/RTC/RtpStreamRecv.cpp:762-790 | for every list, what the sender looks up for the packed items is exactly the set of numbers in the list, and the same sequence when the list ascends; at most one item per number; the count is that of the numbers requested |
| NackPacking.RequestedIsSmallAndDistinct | src/RTC/RtpStreamSend.cpp:434-596 | the walk over any item asks for 1 to 17 numbers, all different, as many as the item counts |
| NackPacking.NumbersBound | src/RTC/RtpStreamSend.cpp:557-559 | the numbers of a bitmask lie within its width and come in ascending distance |
| NackPacking.NumbersAreBits | src/RTC/RtpStreamSend.cpp:557-559 | a number is visited exactly when its bit is set |
| SendBuffers.UpdateStartIsFirst | src/RTC/RtpStreamSend.cpp:412-427 | when any slot is occupied the circular scan lands on an occupied one, the first after the old start |
| SendBuffers.StoreKeepsValid | src/RTC/RtpStreamSend.cpp:284-362 | storing keeps index and pool each other's inverse and the start index occupied, for two pool items or more |
| SendBuffers.EncodeSlotKeepsValid | src/RTC/RtpStreamSend.cpp:240-255 | encoding a stored packet in place keeps the invariant, with its original number moved into the payload |
| SendBuffers.ResendKeepsValid | src/RTC/RtpStreamSend.cpp:521-554 | so does a retransmission |
| SendBuffers.Empty | src/RTC/RtpStreamSend.cpp:23-29 | a new buffer satisfies the invariant |
| SendBuffers.AgeIsExactIff | src/RTC/RtpStreamSend.cpp:479-481 | the age of a packet is exact if and only if the product fits 32 bits, and too small otherwise, so that no packet that is young enough is refused |
| SendBuffers.OldPacketIsResent | src/RTC/RtpStreamSend.cpp:479-490 | a failing input: at a clock rate of 90000 a packet 47.7 seconds old gets the age 0 and is resent |
| SendBuffers.Fill | src/RTC/RtpStreamSend.cpp:434-596 | the container gets only requested numbers, no more than were requested, each held by the buffer |
| SendBufferLemmas.SpacedIsInOrder | src/RTC/RtpStreamSend.cpp:284-362 | packets with increasing unwrapped numbers, any capacity + 1 of them within one cycle, are circularly in order |
| SendBufferLemmas.NewSlotIsFree | src/RTC/RtpStreamSend.cpp:300-340 | under that spacing a new packet never falls on an occupied slot |
| SendBufferLemmas.NextOldest | src/RTC/RtpStreamSend.cpp:412-427 | with the oldest slot freed the scan lands on the next oldest packet |
| SendBufferLemmas.WindowGrows | src/RTC/RtpStreamSend.cpp:332-340 | below capacity a store adds the packet to the window and forgets none |
| SendBufferLemmas.WindowSlides | src/RTC/RtpStreamSend.cpp:342-358 | at capacity a store forgets exactly the oldest packet |
| SendBufferLemmas.FillResends | src/RTC/RtpStreamSend.cpp:434-596 | the container gets exactly the selected numbers, in order, and no other slot is touched |
| SendBufferLemmas.FillNumbersRtx | src/RTC/RtpStreamSend.cpp:523-539 | resent packets leave under consecutive RTX sequence numbers |
| SendBufferLemmas.FillKeepsPacket | src/RTC/RtpStreamSend.cpp:521-554 | a held packet stays held, and what goes out for it is an encoding of it |
| SendBufferRuns.SlidingWindow | src/RTC/RtpStreamSend.cpp:57-110 | after any run of packets, NACKs, probations and pauses the buffer holds exactly the last min(n, capacity) packets sent since the last pause, as stored or RTX encoded, and starts at the oldest |
| SendBufferRuns.NackAnswer | src/RTC/RtpStreamSend.cpp:75-110 | a NACK item is answered with exactly the requested packets that are held, young enough and not just resent, in order, each carrying the packet sent under that number |
| SendBufferRuns.AnswerIs | src/RTC/RtpStreamSend.cpp:75-110 | what leaves for a NACK item is, one by one, the packet sent under the number: unchanged without RTX, and with RTX its number in front of its payload under the SSRC, payload type and consecutive numbers of the RTX stream |
| SendBufferRuns.ProbeIs | src/RTC/RtpStreamSend.cpp:225-260 | so it is for a probation packet |
| SendBufferRuns.StoreReplaces | src/RTC/RtpStreamSend.cpp:314-331 | a packet whose number is taken is ignored if it has the timestamp of the held one and otherwise replaces it; if that was the oldest the start moves on to the next occupied slot |
| SendBufferRuns.PoolNeedsTwoItems | src/RTC/RtpStreamSend.cpp:342-358 | stores never meet the failing assertion, whatever is stored, if and only if the pool has at least two items |
| SendBufferRuns.NackKeepsWindow | src/RTC/RtpStreamSend.cpp:75-110 | answering NACKs leaves the window as it is |
| SendBufferRuns.ProbeKeepsWindow | src/RTC/RtpStreamSend.cpp:225-260 | so does a probation packet |
| SendBufferHistory.ResendsAreApart | src/RTC/RtpStreamSend.cpp:505-550 | over any run, each time a NACK makes a stored packet leave again is more than an RTT after the time before, and the counter and time in the item agree with all of them, for clocks that do not go back or show 0 |
| SendBufferHistory.NackAnswerIff | src/RTC/RtpStreamSend.cpp:75-110 | after any run, the requested numbers that leave are exactly those among the last capacity packets sent since the last pause, whose timestamp is at most 2000 ms behind the highest one, and that were not resent in the last RTT |
| SendBufferHistory.ResentIff | src/RTC/RtpStreamSend.cpp:465-556 | the same for one buffer and the history of its resends, with unwrapped timestamps |
| SendBufferHistory.AgeOfUnwrapped | src/RTC/RtpStreamSend.cpp:479-481 | for unwrapped timestamps less than 2^32 / 1000 apart the age is their distance in milliseconds |
| RtpStreamSends.RtpStreamSend.StorePacket | src/RTC/RtpStreamSend.cpp:284-362 | the new index, pool, start and size are those of the specification, for packets of any size |
| RtpStreamSends.RtpStreamSend.UpdateBufferStartIdx | src/RTC/RtpStreamSend.cpp:412-427 | the loop finds the slot that the specification names |
| RtpStreamSends.RtpStreamSend.ClearBuffer | src/RTC/RtpStreamSend.cpp:364-392 | the buffer becomes the empty one, and the RTX number goes on |
| RtpStreamSends.RtpStreamSend.EncodeStored | src/RTC/RtpStreamSend.cpp:240-255 | the stored packet is encoded at most once, then only renumbered |
| RtpStreamSends.RtpStreamSend.SendProbationRtpPacket | src/RTC/RtpStreamSend.cpp:225-260 | the packet handed on is the stored one, encoded |
| RtpStreamSends.RtpStreamSend.Request | src/RTC/RtpStreamSend.cpp:467-555 | one requested number is looked up, aged and encoded as specified |
| RtpStreamSends.RtpStreamSend.FillRetransmissionContainer | src/RTC/RtpStreamSend.cpp:434-596 | the walk over a bitmask fills the container as specified, within its 18 entries, ended by the null entry |
| RtpStreamSends.RtpStreamSend.ReceiveNack | src/RTC/RtpStreamSend.cpp:75-110 | the packets handed on and the new buffer are those of the specification |
| RtpStreamSends.RtpStreamSend.constructor | src/RTC/RtpStreamSend.cpp:23-29 | an empty buffer of the given capacity |
| NackListLemmas.ComparatorIsOrder | src/RTC/NackGenerator.cpp:206-272 | on the keys held between calls the container's comparator is a strict total order |
| NackListLemmas.CleanKeepsYoung | src/RTC/NackGenerator.cpp:131-142 | cleaning keeps exactly the entries at most 5000 behind |
| NackListLemmas.AddPacketsAppends | src/RTC/NackGenerator.cpp:165-175 | the gap is appended in order, and no number of it was listed before |
| NackListLemmas.BatchKeepsOrder | src/RTC/NackGenerator.cpp:206-272 | a batch keeps the list in order |
| NackListLemmas.ReceivePacketKeepsValid | src/RTC/NackGenerator.cpp:38-129 | receiving keeps at most 1000 entries, each 1 to 5000 behind, at most one key frame; the listener may reset on the way |
| NackListLemmas.OnTimerKeepsValid | src/RTC/NackGenerator.cpp:280-290 | so does the timer |
| NackListRuns.StepBalances | src/RTC/NackGenerator.cpp:38-204 | in every step, listed before + inserted = listed after + left, as multisets |
| NackListRuns.ExitsAreJustified | src/RTC/NackGenerator.cpp:38-272 | every number leaves for its true reason: received, too old, before the previous key frame, last retry, overflow or reset |
| NackListRuns.FoundIffReceived | src/RTC/NackGenerator.cpp:62-88 | ReceivePacket returns true exactly when the number was listed, which then leaves |
| NackListRuns.BySeqDropsNothing | src/RTC/NackGenerator.cpp:206-272 | a batch by sequence number drops no entry |
| NackListRuns.RunIsValid | src/RTC/NackGenerator.cpp:38-272 | the invariant holds after every run, so the assertion against listing a packet twice never fails |
| NackListRuns.RunBalances | src/RTC/NackGenerator.cpp:38-272 | over any run, inserted = listed + left, with multiplicity: no number leaves twice, none is lost |
| NackListHistory.RunIsRecorded | src/RTC/NackGenerator.cpp:206-272 | over any run the retry counters and times are those of the batches the listener saw |
| NackListHistory.AtMostSevenBatches | src/RTC/NackGenerator.cpp:206-272 | a listed number was asked for at most seven times since its insertion, at times more than an RTT apart |
| NackListRequests.GapIsAskedFor | src/RTC/NackGenerator.cpp:113-124 | in every reachable state a packet makes the generator ask for exactly the numbers that it inserts, at once |
| NackListRequests.GapIsBetween | src/RTC/NackGenerator.cpp:90-124 | unless the list overflows these are the numbers between the highest one so far and the packet, in order |
| NackListRequests.ListedIsAskedFor | src/RTC/NackGenerator.cpp:113-124 | every number that is listed was asked for |
| NackListRequests.TimerAsksIff | src/RTC/NackGenerator.cpp:245-288 | the timer asks for a listed number if and only if it was last asked for more than an RTT ago and less than seven times in all |
| NackListRequests.OverflowIsReal | src/RTC/NackGenerator.cpp:144-163 | a key frame is asked for instead only when what stays listed and the gap come to more than 1000 numbers, which then all leave |
| NackListRequests.StaysListedIff | src/RTC/NackGenerator.cpp:38-204 | after a newer packet that does not overflow the list a listed number stays if and only if it is at most 5000 behind and, for a key frame, not before the last key frame remembered; a key frame is remembered instead of the one before, and any other packet keeps that for 5000 numbers |
| NackListRequests.FirstPacketIsRemembered | src/RTC/NackGenerator.cpp:46-58 | the first packet is remembered if it is a key frame, and nothing is missing yet |
| NackListRequests.RttIs | src/RTC/NackGenerator.cpp:21 | the RTT is 100 until a reset and 0 from then on |
| NackGenerators.NackGenerator.CleanOldNackItems | src/RTC/NackGenerator.cpp:131-142 | the list and the key frames are those of the specification |
| NackGenerators.NackGenerator.RemoveNackItemsUntilKeyFrame | src/RTC/NackGenerator.cpp:178-204 | the list and the key frames are those of the specification |
| NackGenerators.NackGenerator.AddPacketsToNackList | src/RTC/NackGenerator.cpp:144-176 | the loop appends the gap, its assertion holds, and on overflow the list is pruned or cleared and a key frame is required |
| NackGenerators.NackGenerator.GetBatch | src/RTC/NackGenerator.cpp:206-272 | the loop, which erases while it iterates, yields the specified batch and list |
| NackGenerators.NackGenerator.Receive | src/RTC/NackGenerator.cpp:38-129 | the new state, the answer and the batch are the specified ones |
| NackGenerators.NackGenerator.Fire | src/RTC/NackGenerator.cpp:280-290 | the batch and the list of the timer |
| SeqManagerForgetting.LowerIsForgotten | src/RTC/SeqManager.cpp:76-78 | what lower_bound puts before the bound: drops more than 32767 behind the input, drops 2 to 32768 ahead of it, and one ahead exactly when its number is larger than the bound |
| SeqManagerForgetting.InputForgets | src/RTC/SeqManager.cpp:69-88 | one Input, in order or late, refuses exactly a remembered number and forgets exactly those drops |
| SeqManagerForgetting.RefusedIff | src/RTC/SeqManager.cpp:55-88 | after any inputs in any order, a dropped number is refused if and only if none of them made the manager forget it |
| SeqManagerForgetting.SingleDropRefusedIff | src/RTC/SeqManager.cpp:55-88 | the same for a single drop and arbitrary inputs near it |
| SeqManagerForgetting.InputBetweenDrops | src/RTC/SeqManager.cpp:76-78 | an input between two remembered drops finds no order in the set: the earlier drop is lower than the later one, that is lower than the bound, the earlier one is not |
| SeqManagerForgetting.DistantDropSortsFirst | src/RTC/SeqManager.cpp:55-60 | a drop half a circle after a remembered one is put before it |
| SeqManagerForgetting.DisorderedSetForgetsNothing | src/RTC/SeqManager.cpp:55-95 | an input after which the listed set is out of order and an old drop is not forgotten |
| SeqManagerOutputs.PassMakesRoom | src/RTC/SeqManager.cpp:69-113 | as long as inputs ascend so do the outputs, whatever is dropped, forgotten or misjudged in between |
| SeqManagerOutputs.LateMakesRoom | src/RTC/SeqManager.cpp:69-113 | a late output lies above what was sent before the synchronization and below the outputs to come, unless the drop right after it has number 0 |
| SeqManagerOutputs.OffsetShiftsOutputs | src/RTC/SeqManager.cpp:62-66 | until the next Sync every output after Offset is what it would have been, shifted by the offset, with the same drops and refusals |
| SeqManagerOutputs.TopsFollow | src/RTC/SeqManager.cpp:96-112 | maxInput and maxOutput follow what is up to 32766 ahead and stay for what is up to 32769 behind |
| SeqManagerLemmas.InputIsCompacted | src/RTC/SeqManager.cpp:69-113 | in ascending calls over less than a circle Input refuses exactly the drops it remembers, forgets exactly those more than 32767 behind, and gives any other number its distance minus the remembered drops before it, except those across the wrap |
| SeqManagerLemmas.LateIsCompacted | src/RTC/SeqManager.cpp:69-113 | a late input that finds the set partitioned gets its distance minus the drops still remembered before it, and forgets those it is late for |
| SeqManagerLemmas.DropFollows | src/RTC/SeqManager.cpp:55-60 | Drop remembers a number up to 32767 ahead of the highest input (at 32768 the plain order of the numbers decides), and refuses any further one |
| SeqManagerLemmas.HigherIsAccepted | src/RTC/SeqManager.cpp:55-60 | the condition of Drop, in positions |
| SeqManagerLemmas.FeedOutputs | src/RTC/SeqManager.cpp:42-113 | in a stream without losses of less than a circle, the n-th number leaves compacted by the drops still remembered |
| SeqManagerLemmas.GaplessIff | src/RTC/SeqManager.cpp:42-113 | over any length below 65536, what is sent has no gap if and only if every drop is at most 32767 before each packet sent after it, and not across the wrap from it |
| SeqManagerLemmas.CountedIff | src/RTC/SeqManager.cpp:73-95 | the drops that are counted for a number are all the drops before it exactly under that condition |
| SeqManagerLemmas.DropAtTheWrapLeavesAGap | src/RTC/SeqManager.cpp:91-92 | the concrete gap: 65535 dropped, 0 sent |
| SeqManagerLemmas.ErasedDropComesBack | src/RTC/SeqManager.cpp:77-78 | a failing input: an erased drop is no longer subtracted |
| SeqManagerLemmas.LateInputForgetsDrop | src/RTC/SeqManager.cpp:73-78 | a failing input: a late packet makes the manager forget a drop ahead of it |
| SeqManagerLemmas.LateInputsCollide | src/RTC/SeqManager.cpp:73-92 | a failing input: with 3 dropped, the inputs 5, 1, 4 leave as 4, 1 and again 4 |
| SeqManagerLemmas.LateBeforeTheWrapRepeats | src/RTC/SeqManager.cpp:91-92 | a failing input: a late packet right before a drop numbered 0 leaves with a number sent before the synchronization |
| SeqManagers.SeqManager.DoSync | src/RTC/SeqManager.cpp:42-53 | the new base, and no drops |
| SeqManagers.SeqManager.DoDrop | src/RTC/SeqManager.cpp:55-61 | the drop is remembered when it is ahead |
| SeqManagers.SeqManager.DoOffset | src/RTC/SeqManager.cpp:62-66 | the base moves by the offset |
| SeqManagers.SeqManager.DoInput | src/RTC/SeqManager.cpp:69-113 | the new state, the refusal and the output are the specified ones |
| RtpStreams.AcceptsInRange | src/RTC/RtpStream.cpp:135-201 | less than 3000 ahead or less than 1500 behind a packet is accepted, and cycles and maxSeq follow the highest unwrapped position |
| RtpStreams.ExtendedNumber | src/RTC/RtpStream.cpp:147-156 | cycles + maxSeq is that position modulo 2^32 |
| RtpStreams.FirstPacket | src/RTC/RtpStream.cpp:80-95 | a first packet starts the count at its own number, except that number 0 counts a cycle |
| RtpStreams.RestartAfterJump | src/RTC/RtpStream.cpp:160-193 | a far jump is refused once; the packet after it restarts the stream without resetting the cycles |
| RtpStreams.FreshJumpIsRefused | src/RTC/RtpStream.cpp:135-201 | a stream that was just started or restarted refuses any far jump |
| RtpStreams.HigherOfUnwrapped32 | src/RTC/RtpStream.cpp:103-108 | less than half a circle apart, timestamps compare like the unwrapped ones |
| RtpStreams.HigherOfAntipode32 | src/RTC/RtpStream.cpp:103-108 | at exactly half a circle the smaller timestamp counts as the higher one |
| RtpStreams.RtpStream.DoUpdateSeq | src/RTC/RtpStream.cpp:135-201 | the fields become those of the specification, with the same answer |
| RtpStreams.RtpStream.Receive | src/RTC/RtpStream.cpp:74-111 | the fields become those of the specification, with the same answer |
| RtpStreamScores.ScoreBetween | src/RTC/RtpStream.cpp:231-246 | the weighted mean lies between the lowest and the highest score of the histogram |
| RtpStreamScores.ScoreConverges | src/RTC/RtpStream.cpp:203-246 | after 24 equal scores the effective score is that score, whatever was there before |
| RtpStreamScores.ScoreIsMonotone | src/RTC/RtpStream.cpp:214-246 | a higher latest score never lowers the mean |
| RtpStreamScores.ScoreIsRoundedIff | src/RTC/RtpStream.cpp:220-246 | the score is the rounded mean if and only if the fraction of the mean is below a half; otherwise it is one less |
| RtpStreamScores.HalfIsCut | src/RTC/RtpStream.cpp:220-246 | a failing input: 0, 3, 3, 5 scores 3 and rounds to 4 |
| RtpStreamScores.CommentExampleIsExact | src/RTC/RtpStream.cpp:214-226 | the example of the comment has the mean 3 and scores 3, not 2.8 |
| RtpStreamScores.RtpStreamScore.UpdateScore | src/RTC/RtpStream.cpp:203-260 | the histogram, the truncated mean and the notification |
| SimpleConsumerLemmas.RunIsContinuous | src/RTC/SimpleConsumer.cpp:139-222 | over any run of packets, pauses, resumptions and reconnections whose segments advance by less than 3000, every packet is accepted by the sending stream, outputs keep the distances of the inputs within a segment and only grow across segments |
| SimpleConsumerLemmas.SegmentsJoin | src/RTC/SimpleConsumer.cpp:162-187 | the first output is 1, and a later segment opens with the number after the highest one sent |
| SimpleConsumerLemmas.ActivationSynchronizes | src/RTC/SimpleConsumer.cpp:309-341 | whenever the consumer becomes active it waits to synchronize |
| SimpleConsumerLemmas.ExtendedOutput | src/RTC/SimpleConsumer.cpp:176-205 | cycles + maxSeq of the sending stream is the highest output position modulo 2^32 |
| SimpleConsumerLemmas.SendFollows | src/RTC/SimpleConsumer.cpp:139-222 | each packet that passes is accepted under its output position |
| SimpleConsumerForwarding.ForwardedIff | src/RTC/SimpleConsumer.cpp:139-222 | after any run a packet is forwarded and accepted if and only if, by the events alone, the consumer is connected, has a stream and is paused on neither side, the packet is supported, and it is a key frame, or there are none, or one was forwarded since the last interruption |
| SimpleConsumers.SimpleConsumer.Send | src/RTC/SimpleConsumer.cpp:139-222 | forwarded or not, the new number, and the new state as specified |
| Layers.ClimbEnds | src/RTC/SimulcastConsumer.cpp:404-468 | the climb ends on the last rung of the longest affordable prefix of the ladder |
| Layers.LadderIsGood | src/RTC/SimulcastConsumer.cpp:404-468 | the rungs are usable layers at their true positive cost and go strictly up |
| Layers.UseIsFair | src/RTC/SimulcastConsumer.cpp:375-492 | UseAvailableBitrate never uses more than offered, and ends on the highest rung below which everything is affordable |
| Layers.IncreaseClimbs | src/RTC/SimulcastConsumer.cpp:494-621 | IncreaseLayer never uses more than offered, uses something exactly when it moves, then moves strictly up to a layer it can afford, and never to the preferred pair |
| Layers.UseInNumbers | src/RTC/SimulcastConsumer.cpp:389-468 | every rung up to the chosen one is affordable and the next is not: 25 times its cost is at most 27 times the bitrate below 2 percent loss, 512 times its cost at most (512 - fractionLost) times the bitrate above 10 percent, and its cost at most the bitrate in between |
| Layers.UseIsMonotone | src/RTC/SimulcastConsumer.cpp:389-468 | with less loss or more bitrate the chosen rung is never a lower one |
| Layers.IncreaseInNumbers | src/RTC/SimulcastConsumer.cpp:516-600 | an increase moves to the next layer pair if and only if that is affordable in these numbers and the current pair is not the preferred one |
| Layers.LadderHolds | src/RTC/SimulcastConsumer.cpp:404-468 | the layer pairs that are tried are exactly the usable ones with a cost at and below them, up to the preferred pair and the first good layer from the preferred one on |
| Layers.NextRungIff | src/RTC/SimulcastConsumer.cpp:532-591 | the pair that an increase considers is the first one with a cost in the first climbable spatial layer that has one, up to the preferred pair |
| Layers.PriorityLayerIsWish | src/RTC/SimulcastConsumer.cpp:336-373 | the priority stands for the highest live layer up to the preferred one, else the lowest live one above it |
| Layers.Charge | src/RTC/SimulcastConsumer.cpp:484-491 | an affordable layer is never charged more than was offered |
| SimulcastLemmas.UseIsChoice | src/RTC/SimulcastConsumer.cpp:375-492 | the provisional layer is live and can be switched to |
| SimulcastLemmas.IncreasesAreChoices | src/RTC/SimulcastConsumer.cpp:494-621 | it stays so over any number of increases |
| SimulcastLemmas.ChooseSpatialIsChoice | src/RTC/SimulcastConsumer.cpp:1205-1260 | the recalculated target is live and can be switched to |
| SimulcastLemmas.DistributeIsSafe | src/RTC/SimulcastConsumer.cpp:623-648 | a distribution leaves a consumer safe even when its target layer has just died |
| SimulcastLemmas.ChangeIsSafe | src/RTC/SimulcastConsumer.cpp:1179-1203 | so does a change of layers of its own |
| SimulcastChoices.ChangeIsChosen | src/RTC/SimulcastConsumer.cpp:1179-1260 | the recalculated spatial layer is the lowest good candidate from the preferred one on, else the highest good one, else the highest of the best score; its temporal layer is the preferred one, the highest below it or 0 above it; who is asked when is exact |
| SimulcastChoices.ApplyIs | src/RTC/SimulcastConsumer.cpp:623-648 | an active consumer ends with its provisional layers as target, every consumer without provisional ones, and without a target there is no current layer |
| SimulcastChoices.PriorityIs | src/RTC/SimulcastConsumer.cpp:336-373 | the priority is one more than the wished layer, 1 without any, and 0 when inactive |
| SimulcastChoices.UseIs | src/RTC/SimulcastConsumer.cpp:375-492 | on the streams of the consumer: the provisional layers are the last reachable ones up to which all is affordable, and what is used is their cost up to the offer |
| SimulcastChoices.IncreaseIs | src/RTC/SimulcastConsumer.cpp:494-621 | on the streams of the consumer: the provisional layers move to the next ones exactly when these are affordable |
| SimulcastChoices.NothingToIncrease | src/RTC/SimulcastConsumer.cpp:532-603 | without next layers the consumer stays and uses nothing |
| SimulcastChoices.NewHasNoLayers | src/RTC/SimulcastConsumer.cpp:15-104 | a new consumer has no layers of any kind, no loss and no streams |
| SimulcastChoices.PreferredAre | src/RTC/SimulcastConsumer.cpp:190-245 | the preferred layers are those asked for or the highest there are; an inactive consumer, or one whose preferred layers stay the same, does nothing else |
| SimulcastChoices.ScoreMakesChoose | src/RTC/SimulcastConsumer.cpp:283-306 | a score makes an active consumer choose again, unless its bitrate is managed by the transport and the stream was alive and still is |
| SimulcastChoices.ReportMakesChoose | src/RTC/SimulcastConsumer.cpp:308-327 | the first Sender Report of a stream makes an active consumer choose again, if its current layer has one by then |
| SimulcastRuns.SendIsSafe | src/RTC/SimulcastConsumer.cpp:650-907 | a forwarded packet belongs to the current layer, and neither Sender Report assertion fails |
| SimulcastRuns.EventIsSafe | src/RTC/SimulcastConsumer.cpp:254-333 | new streams, scores, reports, pauses, connections and preferred layers keep the invariant; target -1 implies current -1 |
| SimulcastRuns.StepIsSafe | src/RTC/SimulcastConsumer.cpp:254-907 | every event keeps it, and the reference layer once set stays |
| SimulcastRuns.RunIsGood | src/RTC/SimulcastConsumer.cpp:650-907 | over whole runs no assertion fails, and every forwarded packet that is no key frame follows directly on one of the same layer: the first after a switch, resume or connection is a key frame |
| SimulcastForwarding.ForwardedIff | src/RTC/SimulcastConsumer.cpp:650-709 | an active consumer with a temporal target forwards a supported packet if and only if it is of the current layer, and a key frame where a synchronization is pending, or a key frame of the target layer |
| SimulcastForwarding.LayerGoesOn | src/RTC/SimulcastConsumer.cpp:675-709 | over runs a consumer forwards every supported packet of its layer while it has a target, up to the next restart or key frame of another target |
| SimulcastForwarding.ForwardingGoesOn | src/RTC/SimulcastConsumer.cpp:675-709 | so it is from every forwarded packet on |
| SimulcastRuns.ResumeEventIsSafe | src/RTC/SimulcastConsumer.cpp:1027-1035 | resuming leaves no current layer |
| SimulcastRuns.InitialIsSafe | src/RTC/SimulcastConsumer.cpp:15-104 | a new consumer is safe and must start with a key frame |
| SimulcastTiming.SyncPacketContinues | src/RTC/SimulcastConsumer.cpp:714-852 | the packet of a synchronization has the next number, and a timestamp above the highest one sent |
| SimulcastTiming.NewFramesDoNotGoBack | src/RTC/SimulcastConsumer.cpp:808-852 | while extra offsets are in use a new frame keeps its shifted timestamp if that is not plainly lower than the highest one sent, and otherwise gets the one above it |
| SimulcastTiming.NtpOffsetAligns | src/RTC/SimulcastConsumer.cpp:742-759 | the offset from two Sender Reports aligns the streams at every time |
| SimulcastTiming.ReportTimeDecides | src/RTC/SimulcastConsumer.cpp:733-740 | a further Sender Report makes the next key frame fail the assertions if and only if its NTP time is 0 |
| SimulcastNumbers.UndefinedIff | src/RTC/SimulcastConsumer.cpp:804-864 | a packet handed on carries an uninitialized number if and only if the consumer is not synchronizing and the manager still remembers having dropped that number |
| SimulcastNumbers.UndefinedIffDropped | src/RTC/SimulcastConsumer.cpp:793-864 | the same in positions |
| SimulcastNumbers.AgainIsUndefined | src/RTC/SimulcastConsumer.cpp:793-864 | it happens whenever a new packet is dropped by its descriptor and then passes |
| SimulcastNumbers.UndefinedIsReachable | src/RTC/SimulcastConsumer.cpp:793-864 | a run from a new consumer in which it happens |
| SimulcastContinuity.RunIsContinuous | src/RTC/SimulcastConsumer.cpp:650-907 | over whole runs of switches, pauses, losses, late packets and drops every packet handed on has a defined number and is accepted; one in order gets an output above all before it, a late one above all earlier segments; within a segment outputs are as far apart as the inputs, less the drops |
| SimulcastContinuity.SegmentsJoin | src/RTC/SimulcastConsumer.cpp:714-720 | the packet of a synchronization has the number after the highest one sent |
| SimulcastContinuity.EventKeepsNumbers | src/RTC/SimulcastConsumer.cpp:254-333 | no other event touches the numbers |
| SimulcastContinuity.NewIsOk | src/RTC/SimulcastConsumer.cpp:15-104 | a new consumer starts such a run |
| SimulcastTimestamps.RunIsInPlace | src/RTC/SimulcastConsumer.cpp:714-907 | over whole runs a packet that synchronizes or opens a frame has a timestamp not below any sent before if and only if its shifted timestamp is not behind, or is plainly lower and lifted; a synchronization packet is then above them all |
| SimulcastTimestamps.TimestampGoesOnIff | src/RTC/SimulcastConsumer.cpp:769-852 | the same for one packet and the highest timestamp of the stream |
| SimulcastTimestamps.SyncAcrossTheWrapGoesBack | src/RTC/SimulcastConsumer.cpp:769-775 | a failing input: the highest timestamp has wrapped and the new stream has not, so its timestamp is taken for higher |
| SimulcastTimestamps.ResetEndsTheLift | src/RTC/SimulcastConsumer.cpp:837-851 | the packet that makes the counter pass 200 is lifted, and the next frame leaves with its shifted timestamp, however low |
| SimulcastTimestamps.RetimeCounts | src/RTC/SimulcastConsumer.cpp:808-852 | each lifted packet counts one, and the 201st one clears the extra offsets and the counter; no other packet touches the counter, and the second limit, 500, is never met |
| SimulcastTimestamps.SendCounts | src/RTC/SimulcastConsumer.cpp:762-852 | so the counter is never above 200, and 0 while no extra offsets are in use, after every packet |
| SimulcastTimestamps.RetimeRemembers | src/RTC/SimulcastConsumer.cpp:808-837 | a lifted frame is remembered, and until the reset its further packets leave with the same timestamp, whatever was sent in between |
| SimulcastTimestamps.SyncShifts | src/RTC/SimulcastConsumer.cpp:722-760 | at a synchronization timestamps of the reference layer stay, and those of another layer become what the reference layer has at the same time by the last Sender Reports |
| SimulcastConsumers.SimulcastConsumer.GetBitratePriority | src/RTC/SimulcastConsumer.cpp:336-373 | the loop computes the specified priority |
| SimulcastConsumers.SimulcastConsumer.UseBitrate | src/RTC/SimulcastConsumer.cpp:375-492 | used bitrate and provisional layers as specified |
| SimulcastConsumers.SimulcastConsumer.ClimbLayers | src/RTC/SimulcastConsumer.cpp:404-468 | the nested loops with their jump climb the ladder of the specification |
| SimulcastConsumers.SimulcastConsumer.IncreaseOneLayer | src/RTC/SimulcastConsumer.cpp:494-621 | used bitrate and provisional layers as specified |
| SimulcastConsumers.SimulcastConsumer.FindNextLayer | src/RTC/SimulcastConsumer.cpp:532-591 | the nested loops find the next rung |
| SimulcastConsumers.SimulcastConsumer.DoApplyLayers | src/RTC/SimulcastConsumer.cpp:623-648 | the provisional layers become the target |
| SimulcastConsumers.SimulcastConsumer.DoUpdateTargetLayers | src/RTC/SimulcastConsumer.cpp:1262-1312 | target, current and the key frame wait |
| SimulcastConsumers.SimulcastConsumer.RecalculateTargetLayers | src/RTC/SimulcastConsumer.cpp:1205-1260 | the loop finds the specified target |
| SimulcastConsumers.SimulcastConsumer.DoMayChangeLayers | src/RTC/SimulcastConsumer.cpp:1179-1203 | changes its layers, or asks the transport |
| SimulcastConsumers.SimulcastConsumer.ComputeTsOffset | src/RTC/SimulcastConsumer.cpp:722-760 | the offset, or the failing assertion |
| SimulcastConsumers.SimulcastConsumer.DoSynchronize | src/RTC/SimulcastConsumer.cpp:714-789 | the synchronized state, or the failing assertion |
| SimulcastConsumers.SimulcastConsumer.DoRetime | src/RTC/SimulcastConsumer.cpp:806-852 | the outgoing timestamp |
| SimulcastConsumers.SimulcastConsumer.DoHand | src/RTC/SimulcastConsumer.cpp:791-907 | the packet as handed to the sending stream |
| SimulcastConsumers.SimulcastConsumer.Send | src/RTC/SimulcastConsumer.cpp:650-907 | the whole step: forwarded packet and new state |
| SvcConsumers.ChooseSpatialIsChoice | src/RTC/SvcConsumer.cpp:972-1022 | the recalculated layer is the preferred one or the first live one above it, else the highest live one |
| SvcConsumers.WishIsAtMostChoice | src/RTC/SvcConsumer.cpp:310-348 | the layer that sets the priority is never above the one that would be chosen |
| SvcChoices.TargetIs | src/RTC/SvcConsumer.cpp:972-1022 | the target of a live stream is the chosen spatial layer with the preferred temporal layer, the highest below it or 0 above it; a dead one has none |
| SvcChoices.ApplyIs | src/RTC/SvcConsumer.cpp:579-604 | an active consumer ends with its provisional layers as target, every consumer without provisional ones |
| SvcChoices.PriorityIs | src/RTC/SvcConsumer.cpp:310-348 | the priority is one more than the wished layer, 1 without any, and 0 when inactive or dead |
| SvcChoices.UseIs | src/RTC/SvcConsumer.cpp:350-455 | on the costs of the stream: the provisional layers are the last reachable ones up to which all is affordable, and what is used is their cost up to the offer |
| SvcChoices.IncreaseIs | src/RTC/SvcConsumer.cpp:457-577 | on the costs of the stream: the provisional layers move to the next ones exactly when these are affordable |
| SvcChoices.NothingToIncrease | src/RTC/SvcConsumer.cpp:490-560 | without next layers the consumer stays and uses nothing |
| SvcConsumers.SvcConsumer.GetBitratePriority | src/RTC/SvcConsumer.cpp:310-348 | the specified priority; 0 for a dead stream |
| SvcConsumers.SvcConsumer.UseBitrate | src/RTC/SvcConsumer.cpp:350-455 | used bitrate and provisional layers as specified |
| SvcConsumers.SvcConsumer.ClimbLayers | src/RTC/SvcConsumer.cpp:385-431 | the nested loops climb the ladder |
| SvcConsumers.SvcConsumer.IncreaseOneLayer | src/RTC/SvcConsumer.cpp:457-577 | used bitrate and provisional layers as specified |
| SvcConsumers.SvcConsumer.FindNextLayer | src/RTC/SvcConsumer.cpp:501-547 | the nested loops find the next rung |
| SvcConsumers.SvcConsumer.DoApplyLayers | src/RTC/SvcConsumer.cpp:579-604 | the provisional layers become the target |
| SvcConsumers.SvcConsumer.DoUpdateTargetLayers | src/RTC/SvcConsumer.cpp:1024-1073 | target and current layers |
| SvcConsumers.SvcConsumer.RecalculateTargetLayers | src/RTC/SvcConsumer.cpp:972-1022 | the loop finds the specified layers |
| BitrateDistribution.UseIsBounded | src/RTC/WebRtcTransport.cpp:931-954 | no consumer of either kind uses more than its share |
| BitrateDistribution.IncreaseIsBounded | src/RTC/WebRtcTransport.cpp:960-988 | no increase uses more than remains; a positive one strictly raises the layers |
| BitrateDistribution.MultimapIsSorted | src/RTC/WebRtcTransport.cpp:899-913 | the multimap is sorted by priority |
| BitrateDistribution.MultimapHolds | src/RTC/WebRtcTransport.cpp:899-913 | it holds every consumer with a positive priority exactly once |
| BitrateDistribution.TotalIsWrappedSum | src/RTC/WebRtcTransport.cpp:900-913 | totalPriorities is the sum of the priorities modulo 65536 |
| BitrateDistribution.SharesFitIff | src/RTC/WebRtcTransport.cpp:931-940 | the shares fit into every available bitrate if and only if the priorities add up to less than 65536 |
| BitrateDistribution.ShareIsExactIff | src/RTC/WebRtcTransport.cpp:939-939 | a share is the intended proportion if and only if the product is below 2^32, and smaller otherwise |
| BitrateDistribution.MainRoundConservesIff | src/RTC/WebRtcTransport.cpp:931-954 | used + remaining = available if and only if the clamp never fires; otherwise more is used than there was |
| BitrateDistribution.MainRoundConserves | src/RTC/WebRtcTransport.cpp:931-954 | with shares that fit nothing is clamped |
| BitrateDistribution.LayerRoundConserves | src/RTC/WebRtcTransport.cpp:960-988 | the second round conserves the sum, and nobody goes down |
| BitrateDistribution.LayerRoundEnds | src/RTC/WebRtcTransport.cpp:960-988 | it ends, with less than 2000 bits per second or with nobody able to climb |
| BitrateDistribution.DistributionConserves | src/RTC/WebRtcTransport.cpp:891-1000 | a whole distribution hands out exactly the available bitrate if and only if the clamp never fires, and it never fires for priorities below 65536 in total; in any case it ends with less than 2000 bits per second or nobody able to climb |
| BitrateOutcome.OutcomeAt | src/RTC/WebRtcTransport.cpp:891-1000 | a consumer has its provisional layers applied if and only if it has a priority and the total is not 0; otherwise it stays as it is |
| BitrateOutcome.SvcOutcome | src/RTC/SvcConsumer.cpp:310-604 | an active SVC consumer gets as target what the rounds chose if and only if its stream is alive and the total is not 0; a dead one keeps its old target |
| BitrateOutcome.DeadSimulcastLetsGo | src/RTC/SimulcastConsumer.cpp:336-648 | an active simulcast consumer without live streams lets go of its target and current layer |
| BitrateOutcome.NamedIffWanted | src/RTC/WebRtcTransport.cpp:899-913 | a consumer takes part, and then once, exactly when its priority is positive |
| BitrateOutcome.WhoTakesPart | src/RTC/WebRtcTransport.cpp:899-913 | that is, a simulcast consumer that is connected and not paused, an SVC consumer whose stream is alive besides, and no other |
| WebRtcTransports.WebRtcTransport.DistributeAvailableOutgoingBitrate | src/RTC/WebRtcTransport.cpp:891-1000 | the consumer objects end as the specified distribution of their values says |
| WebRtcTransports.WebRtcTransport.CollectPriorities | src/RTC/WebRtcTransport.cpp:899-913 | the multimap and the total |
| WebRtcTransports.WebRtcTransport.DoMainRound | src/RTC/WebRtcTransport.cpp:931-954 | its assertion holds, and the account is the specified one |
| WebRtcTransports.WebRtcTransport.DoLayerRound | src/RTC/WebRtcTransport.cpp:960-988 | the loop terminates on the specified account |
| WebRtcTransports.WebRtcTransport.DoLayerPass | src/RTC/WebRtcTransport.cpp:964-983 | one pass |
| WebRtcTransports.WebRtcTransport.DoApplyRound | src/RTC/WebRtcTransport.cpp:993-999 | everyone applies its layers |
| TcpConnections.DeliverInTwo | src/RTC/TcpConnection.cpp:57-154 | delivering a stream in two parts is delivering it at once |
| TcpConnections.FramesAreDelivered | src/RTC/TcpConnection.cpp:57-170 | frames of packets of up to 65534 bytes deliver exactly these packets in order, without the empty ones, and leave nothing behind |
| TcpConnections.RestFits | src/RTC/TcpConnection.cpp:119-145 | what is neither closed nor delivered is shorter than the buffer |
| TcpConnections.BiggestPacketCloses | src/RTC/TcpConnection.cpp:119-145 | a packet of 65535 bytes closes the connection |
| TcpConnections.TcpConnection.constructor | src/RTC/TcpConnection.cpp:18-22 | an open connection with an empty buffer |
| TcpConnections.TcpConnection.OnRead | src/RTC/TcpConnection.cpp:29-154 | however the bytes come in, what was delivered is what the whole stream delivers, and there is room to read more |
| TcpConnections.TcpConnection.ReadFrames | src/RTC/TcpConnection.cpp:29-154 | the loop over the buffer, with its compaction |
| TcpConnections.TcpConnection.FindFrame | src/RTC/TcpConnection.cpp:65-72 | whether a whole frame is there |
| TcpConnections.TcpConnection.TakeFrame | src/RTC/TcpConnection.cpp:74-102 | hands on one packet |
| TcpConnections.TcpConnection.Compact | src/RTC/TcpConnection.cpp:119-145 | the unfinished frame moves to the front |
| TcpConnections.TcpConnection.Append | src/handles/TcpConnection.cpp:366-411 | the bytes read follow those pending |
| Netstrings.ReadBuffer | devps/netstring/netstring-c/netstring.c:33-72 | netstring_read on a buffer: its loop, digit limits and every error |
| Netstrings.NumberLength | src/Channel/UnixStreamSocket.cpp:48-66 | the length computed with a logarithm is the number of digits |
| Netstrings.BufferSizeIsExact | devps/netstring/netstring-c/netstring.c:76-80 | netstring_buffer_size is the length of the netstring |
| Netstrings.Write | src/Channel/UnixStreamSocket.cpp:112-145 | what is put into the write buffer is the netstring |
| Netstrings.ReadOfEncode | devps/netstring/netstring-c/netstring.c:33-104 | a netstring is read back as its payload, whatever follows |
| Netstrings.StrictPrefixIsTooShort | devps/netstring/netstring-c/netstring.c:33-72 | every strict prefix of a netstring reads as too short |
| UnixStreamSockets.MessageFits | src/Channel/UnixStreamSocket.cpp:13-22 | the longest message fits the buffers |
| UnixStreamSockets.ConsumePrefix | src/Channel/UnixStreamSocket.cpp:147-308 | any first part of a stream delivers its whole messages, and the rest fits the buffer |
| UnixStreamSockets.LongMessageIsDropped | src/Channel/UnixStreamSocket.cpp:147-308 | a payload of more than 4194304 bytes fills the buffer and is thrown away |
| UnixStreamSockets.ClosingMessageIsLast | src/Channel/UnixStreamSocket.cpp:147-308 | a payload on which the listener closes the socket is the last one delivered |
| UnixStreamSockets.ChunksAreDelivered | src/Channel/UnixStreamSocket.cpp:147-308 | however a stream of netstrings is cut into reads, the payloads are delivered once, in order, unaltered, and nothing is left |
| UnixStreamSockets.UnixStreamSocket.constructor | src/Channel/UnixStreamSocket.cpp:25-29 | an open socket |
| UnixStreamSockets.UnixStreamSocket.OnRead | src/Channel/UnixStreamSocket.cpp:147-308 | what is delivered and kept is what the specification says of the pending bytes and the new ones; an open socket has room |
| UnixStreamSockets.UnixStreamSocket.ReadMessages | src/Channel/UnixStreamSocket.cpp:147-308 | the loop over the buffer |
| UnixStreamSockets.UnixStreamSocket.TakeMessage | src/Channel/UnixStreamSocket.cpp:240-297 | hands on one payload |
| UnixStreamSockets.UnixStreamSocket.Compact | src/Channel/UnixStreamSocket.cpp:168-195 | the unfinished message moves to the front |
| UnixStreamSockets.UnixStreamSocket.Append | src/handles/UnixStreamSocket.cpp:221-285 | the bytes read follow those pending |
| RateCalculatorLemmas.UpdateTracks | src/RTC/RateCalculator.cpp:10-37 | an update is counted once: the ring holds the log's sums per millisecond, totalCount is the sum of the window |
| RateCalculatorLemmas.GetRateTracks | src/RTC/RateCalculator.cpp:39-54 | the rate is that of (now - windowSize, now], cached or not |
| RateCalculatorLemmas.GetRateIs | src/RTC/RateCalculator.cpp:39-54 | the answer is what was counted in the window, times scale and per windowSize, to the nearest integer |
| RateCalculatorLemmas.RunIsLog | src/RTC/RateCalculator.cpp:10-99 | over any run of updates, questions and resets with times that do not decrease, every answer is computed from the log alone |
| RateCalculatorLemmas.InitialTracks | include/RTC/RateCalculator.hpp:58-84 | a calculator made at or after windowSize starts in agreement |
| RateCalculatorLemmas.ResetTracks | include/RTC/RateCalculator.hpp:69-84 | a reset at or after windowSize clears the log |
| RateCalculatorLemmas.EarlyNeverCounts | src/RTC/RateCalculator.cpp:10-37 | one made earlier never counts anything |
| RateCalculatorLemmas.CountsIff | include/RTC/RateCalculator.hpp:76-84 | an update counts if and only if the calculator was made at or after windowSize |
| RateCalculators.RateCalculator.DoRemoveOldData | src/RTC/RateCalculator.cpp:56-99 | the popping loop |
| RateCalculators.RateCalculator.DoUpdate | src/RTC/RateCalculator.cpp:10-37 | the new ring |
| RateCalculators.RateCalculator.DoGetRate | src/RTC/RateCalculator.cpp:39-54 | the rate, and the cache |
| IceServers.CompareIsEquivalence | include/RTC/TransportTuple.hpp:85-105 | Compare is an equivalence |
| IceServers.HandleIsValid | src/RTC/IceServer.cpp:305-462 | handling keeps the invariant, makes the tuple valid and no other |
| IceServers.RemoveIsValid | src/RTC/IceServer.cpp:238-285 | removing keeps it, makes exactly that tuple invalid, and disconnects with the last one |
| IceServers.HandleSelects | src/RTC/IceServer.cpp:305-462 | a tuple is selected exactly with USE-CANDIDATE or as the first one, as it is stored; it is stored in front if it is new; the new state is exact |
| IceServers.RemoveSelects | src/RTC/IceServer.cpp:238-285 | all other tuples stay in their order; when the selected one goes, the first of these is selected |
| IceServers.ForceIsValid | src/RTC/IceServer.cpp:287-303 | forcing a valid tuple keeps it |
| IceServers.StepIsValid | src/RTC/IceServer.cpp:238-462 | every event keeps it, NEW is never entered again, and COMPLETED is left only for DISCONNECTED |
| IceServers.RunIsValid | src/RTC/IceServer.cpp:231-520 | after every run: NEW or DISCONNECTED iff no tuples iff none selected, tuples pairwise different, the selected one a member; a tuple is valid iff it was handled after it was last removed |
| IceServers.RunIsNotified | src/RTC/IceServer.cpp:238-520 | after every run the listener knows the state and the selected tuple |
| IceServers.IceServer.FindTuple | src/RTC/IceServer.cpp:482-505 | the search, first the selected tuple |
| IceServers.IceServer.GetTuple | src/RTC/IceServer.cpp:482-505 | the stored object |
| IceServers.IceServer.DoAddTuple | src/RTC/IceServer.cpp:464-480 | the tuple is stored in front |
| IceServers.IceServer.DoSetSelectedTuple | src/RTC/IceServer.cpp:507-519 | the selection, compared by address |
| IceServers.IceServer.DoHandleTuple | src/RTC/IceServer.cpp:305-462 | the new state as specified, with every assertion of the source |
| IceServers.IceServer.DoRemoveTuple | src/RTC/IceServer.cpp:238-285 | the new state as specified |
| IceServers.IceServer.DoForceSelectedTuple | src/RTC/IceServer.cpp:287-303 | the new state as specified |
| RouterLemmas.CloseProducerIsValid | src/RTC/Router.cpp:491-534 | closing a producer removes it and exactly its consumers from every map, each deleted for the first time |
| RouterLemmas.CloseConsumerIsValid | src/RTC/Router.cpp:708-737 | closing a consumer removes exactly it |
| RouterLemmas.CloseTransportIsValid | src/RTC/Transport.cpp:81-139 | closing a transport removes its producers, all their consumers, and its own consumers, and nothing else; exactly these are deleted, and none of them was deleted before |
| RouterLemmas.ProduceIsValid | src/RTC/Transport.cpp:265-337 | a new producer keeps the relations |
| RouterLemmas.ConsumeIsValid | src/RTC/Transport.cpp:339-446 | a new consumer is in the set of its producer and in its transport |
| RouterLemmas.CloseObserverIsValid | src/RTC/Router.cpp:290-314 | a closed observer leaves every producer's set |
| RouterLemmas.ObserveIsValid | src/RTC/Router.cpp:340-372 | adding and removing observed producers keeps the relations |
| RouterLemmas.ObserveIs | src/RTC/Router.cpp:340-372 | it is granted if and only if both are known, and then the observer sees the producer or does not, as asked, and nothing else changes |
| RouterLemmas.AnswerIsValid | src/RTC/Router.cpp:162-383 | every request keeps the invariant, and its presence assertions hold |
| RouterLemmas.RunIsValid | src/RTC/Router.cpp:162-383 | in every reachable state c is in mapProducerConsumers[p] iff mapConsumerProducer[c] = p, the producer maps share one domain, and the transports agree |
| RouterSsrcs.AnswerIsCompleteIff | src/RTC/Transport.cpp:418-424 | as long as every consumer is found by all its SSRCs, a granted request leaves it so if and only if no SSRC is taken over from another consumer |
| RouterSsrcs.HoldIsCompleteIff | src/RTC/Transport.cpp:418-424 | the same for one transport and a new consumer |
| RouterSsrcs.RunIsComplete | src/RTC/Transport.cpp:1190-1202 | after a run without shared SSRCs every transport finds all its consumers by them |
| RouterLemmas.EmptyIsValid | src/RTC/Router.cpp:17-20 | a new router satisfies it |
| RouterClass.Router.EraseSsrcs | src/RTC/Transport.cpp:1432-1449 | the loop over a consumer's SSRCs |
| RouterClass.Router.ConsumerProducerClosed | src/RTC/Transport.cpp:1432-1449 | one consumer leaves its transport and the router |
| RouterClass.Router.CloseConsumersOf | src/RTC/Router.cpp:508-520 | the loop over the consumers, in any order, deletes each once |
| RouterClass.Router.ProducerClosed | src/RTC/Router.cpp:491-534 | the specified close, with its assertions |
| RouterClass.Router.ConsumerClosed | src/RTC/Router.cpp:708-737 | the specified close, with its assertions |
| RouterClass.Router.DoCloseProducer | src/RTC/Transport.cpp:562-584 | PRODUCER_CLOSE |
| RouterClass.Router.DoCloseConsumer | src/RTC/Transport.cpp:586-610 | CONSUMER_CLOSE |
| RouterClass.Router.CloseAllProducers | src/RTC/Transport.cpp:91-101 | the first loop of a transport's close |
| RouterClass.Router.CloseAllConsumers | src/RTC/Transport.cpp:103-114 | the second loop |
| RouterClass.Router.DoCloseTransport | src/RTC/Router.cpp:268-288 | TRANSPORT_CLOSE |
| RouterClass.Router.DoProduce | src/RTC/Transport.cpp:265-337 | TRANSPORT_PRODUCE |
| RouterClass.Router.DoConsume | src/RTC/Transport.cpp:339-446 | TRANSPORT_CONSUME |
| RouterClass.Router.InsertSsrcs | src/RTC/Transport.cpp:418-424 | the loop over the new consumer's SSRCs |
| Stun.TypeRoundTrip | src/RTC/StunPacket.cpp:61-65 | class and method are recovered from the type field |
| Stun.TakeAttributes | src/RTC/StunPacket.cpp:98-274 | the attribute loop only moves forward and ends |
| StunParsing.ParseIff | src/RTC/StunPacket.cpp:18-308 | bytes parse as a packet if and only if they are a header of the right length and attributes of the right lengths, nothing after FINGERPRINT and only it after MESSAGE-INTEGRITY, of each type the last one counting, with a fingerprint that fits the bytes before it |
| StunParsing.FoldIs | src/RTC/StunPacket.cpp:96-230 | the attribute loop accepts exactly such lists |
| StunLemmas.ParseOfSerialize | src/RTC/StunPacket.cpp:18-306 | parsing a serialized message recovers class, method, transaction id and every attribute the parser reads |
| StunLemmas.ErrorCodeRoundTripIff | src/RTC/StunPacket.cpp:726-739 | an error code survives if and only if it is below 25600; in general its remainder does |
| StunLemmas.SerializedSays | src/RTC/StunPacket.cpp:505-700 | what a receiver reads, in full: only error responses carry their error code, and all other messages with a password a MESSAGE-INTEGRITY, right before the FINGERPRINT |
| StunLemmas.XorMappedIff | src/RTC/StunPacket.cpp:505-700 | a serialized message holds the XOR-MAPPED-ADDRESS it was given if and only if it is a success response of BINDING, and never another one |
| StunLemmas.SerializedIsAuthentic | src/RTC/StunPacket.cpp:403-463 | a serialized message with a matching username and a password is authentic |
| StunLemmas.ParsedHasRoom | src/RTC/StunPacket.cpp:98-306 | the attributes that CheckAuthentication touches lie in the bytes of every parsed message |
| StunLemmas.AuthenticIff | src/RTC/StunPacket.cpp:403-463 | under another password if and only if it has the same digest |
| StunLemmas.AuthenticatedIff | src/RTC/StunPacket.cpp:403-463 | a parsed message is answered OK if and only if it is a request or indication, its username is the local one followed by a colon and anything, and its MESSAGE-INTEGRITY is the HMAC of the text before it, with the length less 8 when there is a FINGERPRINT; BAD_REQUEST exactly for a response or without username or MESSAGE-INTEGRITY |
| StunLemmas.XorAddressDecodes | src/RTC/StunPacket.cpp:646-724 | port and address are recovered from XOR-MAPPED-ADDRESS |
| StunLemmas.SerializedBytes | src/RTC/StunPacket.cpp:505-791 | the bytes are the header and the attributes in order |
| StunSerialize.LoopIsFold | src/RTC/StunPacket.cpp:98-274 | the parser takes concatenated attributes one after the other |
| StunPackets.ParsePacket | src/RTC/StunPacket.cpp:18-306 | the parser's loop on a buffer of at most 65535 bytes ends with the specified result |
| StunPackets.DoCheckAuthentication | src/RTC/StunPacket.cpp:403-463 | the specified verdict, and the bytes are as before |
| StunPackets.CompareDigest | src/RTC/StunPacket.cpp:446-456 | the byte comparison of the digests |
| StunPackets.PutNext | src/RTC/StunPacket.cpp:602-739 | one attribute is written behind the others |
| StunPackets.SerializePacket | src/RTC/StunPacket.cpp:505-791 | the buffer holds exactly the specified bytes |
| RtpPackets.RtxRoundTrip | src/RTC/RtpPacket.cpp:525-595 | decoding restores the packet without its padding, however often it was renumbered; encoding adds two bytes |
| RtpPacketBytes.ParseOfEncode | src/RTC/RtpPacket.cpp:14-124 | parsing written bytes gives the packet back |
| RtpPacketBytes.ParseIff | src/RTC/RtpPacket.cpp:14-124 | bytes parse as a packet if and only if they are its header, CSRCs, extension, payload and padding |
| RtpPacketBytes.HoldsIsEncoded | src/RTC/RtpPacket.cpp:14-124 | the accepted bytes are the packet written out, with its own padding bytes |
| RtpExtensions.FindElements | src/RTC/RtpPacket.cpp:664-763 | the loops of ParseExtensions, with their inner loop over zeros, find the specified elements |
| RtpExtensions.ParseFits | src/RTC/RtpPacket.cpp:664-763 | on any bytes, no element found reaches outside the header extension |
| RtpExtensions.TotalSize | src/RTC/RtpPacket.cpp:326-351 | the size computed first is the size of the block |
| RtpExtensions.OffsetsAreLast | src/RTC/RtpPacket.cpp:405-436 | the map points at the last written entry of every id |
| RtpExtensions.ParseOfBlock | src/RTC/RtpPacket.cpp:664-763 | parsing a written block finds exactly the map made while writing |
| RtpExtensions.GetOfBlock | include/RTC/RtpPacket.hpp:512-554 | each id reads the value of its last valid entry; an empty value reads as none |
| RtpExtensions.LastEntryIsRead | src/RTC/RtpPacket.cpp:287-445 | an entry added last is read back under its id: with One-Byte ids from 1 to 14 and values of 1 to 16 bytes, with Two-Bytes any id but 0, an empty value reading as none; any other entry changes nothing |
| RtpPacketEdits.IsStoredIff | src/RTC/RtpPacket.cpp:14-124 | the first bytes of a store are a packet if and only if they parse as it |
| RtpPacketEdits.LookupOfWithExtensions | src/RTC/RtpPacket.cpp:287-445 | what was set is what is read, only the extension changed, and the size is 12 + CSRCs + 4 + block + payload + padding |
| RtpPacketEdits.CollapseOfExpanded | src/RTC/RtpPacket.cpp:629-662 | closing a gap undoes opening it |
| RtpPacketClass.Int16IsExactIff | src/RTC/RtpPacket.cpp:353-364 | the int16_t shift is exact if and only if it fits |
| RtpPacketClass.RtpPacket.ValidIsParsed | src/RTC/RtpPacket.cpp:14-124 | a valid object means: its bytes parse as its packet |
| RtpPacketClass.RtpPacket.Parse | src/RTC/RtpPacket.cpp:14-124 | an object for exactly the bytes that parse, with the parsed packet |
| RtpPacketClass.RtpPacket.constructor | src/RTC/RtpPacket.cpp:128-145 | the object, its extensions parsed |
| RtpPacketClass.RtpPacket.ParseExtensions | src/RTC/RtpPacket.cpp:664-763 | the maps agree with the bytes |
| RtpPacketClass.RtpPacket.GetExtension | include/RTC/RtpPacket.hpp:512-554 | the value read is the specified one |
| RtpPacketClass.RtpPacket.SetPayloadType | include/RTC/RtpPacket.hpp:239-242 | only the payload type changes |
| RtpPacketClass.RtpPacket.SetSequenceNumber | include/RTC/RtpPacket.hpp:264-267 | only the sequence number changes |
| RtpPacketClass.RtpPacket.SetSsrc | include/RTC/RtpPacket.hpp:284-287 | only the SSRC changes |
| RtpPacketClass.RtpPacket.RemovePadding | src/RTC/RtpPacket.cpp:544-552 | only the padding goes |
| RtpPacketClass.RtpPacket.RtxEncode | src/RTC/RtpPacket.cpp:525-556 | the packet becomes its RTX encoding, in place |
| RtpPacketClass.RtpPacket.RtxDecode | src/RTC/RtpPacket.cpp:558-595 | the packet is decoded in place, or refused and unchanged |
| RtpPacketClass.RtpPacket.SetExtensions | src/RTC/RtpPacket.cpp:287-445 | the elements become those given, everything else stays, in place; the size changes by the shift |
| RtpPacketClass.RtpPacket.MakeRoom | src/RTC/RtpPacket.cpp:353-401 | payload and padding are moved behind the new header extension, whose id and length are set |
| RtpPacketClass.RtpPacket.WriteElements | src/RTC/RtpPacket.cpp:403-444 | the elements and zeros fill exactly the room, and the maps are those of the specification |
| RtpPacketClass.RtpPacket.ShiftPayload | src/RTC/RtpPacket.cpp:629-662 | a gap is opened or closed; before and behind it nothing changes |
| RtpPacketClass.RtpPacket.Clone | src/RTC/RtpPacket.cpp:447-521 | the same packet in another store |
| Bytes.Move | src/RTC/RtpPacket.cpp:366-387 | memmove, overlapping either way |
| Bytes.PadTo4 | include/Utils.hpp:185-192 | padding to four bytes, in 16 bits |

## Left out

- Sockets, timers, signals and event loops; DTLS, SRTP and SCTP; JSON, requests' parsing, settings and logging.
- Codec payload descriptors, RTCP packet classes, RTP dictionaries and the bandwidth estimators: their results are inputs.
- Counters that nothing reads back (bytes, packets sent, NACK counts), layer and score notifications of consumers.
- Forwarding by SvcConsumer and PipeConsumer, which repeats that of the consumers modelled; receiving streams other than their NACK generator and NACK packing; the STUN request handling of IceServer up to HandleTuple.
- Reading the typed extensions (MID, RID, audio level, ..) on top of GetExtension, and the payload descriptors' use of ShiftPayload.
- Score formulas from reports, jitter and round trip times: floating point throughout.
- Transport of DataProducers and DataConsumers, key frame requests, port management, audio levels: they would only add easy members.
- HMAC-SHA1 and CRC-32 are uninterpreted functions; nothing is said about forging them.
- The behaviour of `std::set` and `std::map` on keys further than half a circle apart, where their comparator is no order (`LowerIsCyclicOnTheWholeCircle`).
- 32-bit overflow of virtual bitrates above 2^32, and the rounding of their floating-point factors.
- The transports held by a router are values kept by address, not objects of their own; aliasing between them is by that address.
- The producer streams that a consumer looks at are values that events replace, not shared objects.
- Temporal layers of the encoding context: which packets it drops is an input.
- The content of padding bytes other than the last.
- SeqManagerLemmas.GaplessIff: for orderly streams, in which nothing is dropped while a drop more than 32767 earlier is still remembered (all streams up to 32768 numbers are); beyond, the comparator is no order on the keys and std::set promises nothing (`DistantDropSortsFirst`).
- SeqManagerForgetting.RefusedIff: for inputs that find the set partitioned by their bound, as lower_bound asks for; `InputBetweenDrops` shows the others.
- SimpleConsumerLemmas.RunIsContinuous: segments advance by less than 3000 and are late by less than 1500, the range that the sequence check accepts.
- SimulcastRuns.RunIsGood: producer streams are not replaced, no Sender Report has NTP time 0, and the payload descriptor does not drop the key frame of a synchronization; without the second the assertions do fail.
- SimulcastForwarding.LayerGoesOn: as long as the consumer has a target; a pause, a disconnection or the death of all its streams takes it away, and then a key frame must come.
- SimpleConsumerForwarding.ForwardedIff: for the runs of `SimpleConsumerLemmas.RunIsContinuous`.
- NackListRequests.TimerAsksIff: for clocks that do not show 0, as are the statements beside it.
- StunParsing.ParseIff: for up to 65535 bytes, as is ParsePacket.
- StunLemmas.ParseOfSerialize: for methods below 128, since larger ones are not recognized as STUN by the first byte, and for messages below 65536 bytes.
- StunPackets.ParsePacket: for buffers below 65536 bytes; above that the 16-bit padding of the position wraps and the loop need not end.
- SendBufferRuns.SlidingWindow: for packets whose unwrapped numbers increase, any capacity + 1 of them within one cycle; `StoreKeepsValid` needs no such order.
- SendBufferHistory.NackAnswerIff: for such packets and clocks, and timestamps less than 2^32 / 1000 behind the highest one; `AgeIsExactIff` covers the others.
- NackListHistory.AtMostSevenBatches: for clocks that do not show 0, the time that marks an entry as not sent.
- RateCalculatorLemmas.RunIsLog: for times that do not decrease, from a calculator made at or after `windowSize`; `EarlyNeverCounts` covers the others.
- SimulcastContinuity.RunIsContinuous: segments extend over less than a circle, drops come in order and stay within half a circle of those remembered, late packets find the remembered drops partitioned by their bound and are not right before one numbered 0, and outputs stay less than 3000 above and 1500 below the highest, the range that the sequence check accepts.
- SimulcastTimestamps.RunIsInPlace: for the same runs; a further packet of a frame with an extra offset keeps that offset, and nothing is said about its place.
- SendBufferHistory.ResendsAreApart: for clocks that do not go back and do not show 0, the time that marks an item as not resent; probation packets are not retransmissions and leave the time alone.
- RtpStreamSends.RtpStreamSend.constructor: with NACK the pool is not empty, as `FillRetransmissionContainer` would index an empty vector.
- RateCalculators.RateCalculator.DoGetRate: the rounding of the float is that of the exact rational.
- RtpPacketClass.RtpPacket.SetExtensions: for header extensions whose size and shift fit in 16 bits and a store with room, as its callers provide; values do not lie inside the packet's own store.
- RtpPacketClass.RtpPacket.ShiftPayload: the bytes of an opened gap are not specified.
