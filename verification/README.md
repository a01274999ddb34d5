# Verified model of the multi-process broadcast ring

The repository is a single-producer, many-consumer ring over shared memory (`disruptor-mp`), a framed
message transport on top of it (`myelon`), and the fault-injection runner and benchmark configuration
beside them. This project models its hardest parts and proves what they promise.

**The ring.** `RingProtocol` is a step machine: the producer asks for slots, folds the minimum over the
consumer cursors one load at a time, writes each slot in two steps (so a half-written event is
observable as `Torn`), and stores its cursor; a consumer snapshots the producer cursor, reads slots,
commits, may crash at any step and may rejoin under its ID. `RingSafety` proves the invariant,
`RingTheorems` what every reachable state has, `RingGating` the guarantees for gating consumers (those the
barrier tracks before the producer's clearance first moves, among them everybody found by the first scan
that finds anybody), `RingExact` exactly when any consumer at all gets the right events, `RingProgress` that
the ring is never stuck, and `RingLimits` what it does not promise. A consumer is *lapped* once a grant has
left its cursor more than a ring behind; `LappingStep` says which decision does that, and to whom.

**The code on top of it.** `SharedRing.SharedMemory` holds the real slots and cursors together with the
protocol's state. Before every access all other processes may take any number of their own steps
(`Yield`), and every access is exactly one step of the protocol. `SharedConsumerBarrier`,
`SharedProducer`, `SharedConsumer`, the lease and the framed producer and consumer are classes written
against that memory, so their contracts hold under any interleaving. `ManagedSharedProducer` adds the
required-consumer checks of the managed publish calls.

**Framing.** `Framing` has the fragmenter, the resumable decoder and the blocking receivers as
functions, `Receiving` what repeated blocking receives make of any stream, `Transport` the buffers,
`EndToEnd` and `FramedConsumer` join the batch receiver to the ring, and `FramedReceiver` the blocking ones.

**Liveness.** `LivenessModel` is the timed automaton as a function of the call history, `Liveness` the
class, `LivenessTheorems`, `LivenessAlerts` and `LivenessDetection` what holds over every history whose clock
does not run backwards.

**The rest.** `Bits`, `Checksum`, `Layout` and `LayoutChecks` are the segment header; `Oracle` and
`Restart` the message oracle and the rebuilding of reports after a restart; `Expander` the
configuration expander.

Time is a natural number, clock readings are parameters. A loop that the program runs until something
happens takes its clock readings (and registration counts) as a finite list and may end undecided.

Results that are not what one might expect, each proved:

- Discovering several consumers piecemeal is unsafe: `RingLimits.UntrackedConsumerIsOverwritten` is a
  run in which a consumer attached before the first event is handed the second event as sequence 0.
  `RingExact.ExactIffShown` and `ExactIffInTime` say exactly when a consumer gets the stream: each sequence
  must be read before the producer begins the write one ring later. Nothing but being tracked makes
  the producer wait for that (`LappingStep`). Gating consumers, and a single expected consumer however late,
  are safe.
- Two validations of one segment can disagree about where the payload is: a caller with a larger
  alignment passes validation and looks elsewhere. `LayoutChecks.OffsetsAgree` says exactly when. It takes
  slack behind the writer's contract, as rounding up to pages leaves it: on a region of exactly the required
  size, which is what the callers in the repository allocate, every accepted validation agrees
  (`TightRegionAgrees`).
- A message cut off half way makes the blocking receivers wait for its end, and what they return is no longer
  the complete messages once another one follows; the batch receiver passes over it.
  `Receiving.BlockingReceivesComplete` says exactly when the blocking receivers return them all.
- A check that ends with an error leaves the consumers behind the failing one unchecked; a stall of theirs that
  would have been found gets no alert (`LivenessAlerts.UnreachedGetsNoAlert`, exactly so by
  `AlertOpenIffStalled`).
- A liveness error is final for every later check, but a managed publish still succeeds after it when
  there is room; while no tracked consumer moves it returns that error exactly when there is none
  (`PublishManaged`).
- The decoder relies on message IDs other than 0: `Framing.TailIsSilentIffForeign`.
- The oracle does not notice a consumer that has no report at all (`VerifyComplete`).

## Model

| member | source | states |
|---|---|---|
| Bits.PowOf2Trick | crates/disruptor-mp/src/backend/shared_memory/ringbuffer.rs:39-41 | the size check accepts exactly the powers of two |
| Bits.BitOfAnd | crates/disruptor-mp/src/backend/shared_memory/ringbuffer.rs:326-338 | the mask's conjunction, bit by bit |
| SharedRing.MaskIsSlot | crates/disruptor-mp/src/backend/shared_memory/ringbuffer.rs:326-338 | masking a sequence gives its slot modulo the size, for every accepted size |
| RingSafety.SlotsDiffer | crates/disruptor-mp/src/backend/shared_memory/ringbuffer.rs:304-318 | sequences less than a ring apart never share a slot |
| RingSafety.StepKeepsInv | crates/disruptor-mp/src/producer.rs:255-287 | every step of producer, consumer and rejoin keeps the ring invariant: clearance bounded by cursors plus size, retained slots hold what was published, windows and logs consistent |
| RingSafety.RearBoundsCursors | crates/disruptor-mp/src/lock_free/consumer_barrier.rs:532-568 | the minimum folded one load at a time never exceeds any tracked cursor, however stale the loads; the fallback is -1 while nobody is tracked |
| RingGating.GatingIsSafe | crates/disruptor-mp/src/producer.rs:255-287 | a gating consumer, tracked before the clearance first moves, is tracked and never left behind in any later state |
| RingGating.FirstScanGates | crates/disruptor-mp/src/lock_free/consumer_barrier.rs:331-384 | whoever is tracked when the first scan that finds anybody ends is gating ever after |
| RingGating.FirstGrantGates | crates/disruptor-mp/src/producer.rs:255-287 | until the clearance moves, and right after the first grant that moves it, everybody tracked is gating |
| RingGating.GatingLasts | crates/disruptor-mp/src/producer.rs:255-287 | once gating, always gating |
| RingGating.GatingNoOverwrite | crates/disruptor-mp/src/producer.rs:255-287 | over every run the slot about to be written aliases no sequence a gating consumer has yet to commit, and lies at most a ring above its cursor |
| RingGating.GatingWindowIsStable | crates/disruptor-mp/src/consumer.rs:92-113 | every slot of a gating consumer's held snapshot or lease reads back the published event |
| RingGating.GatingBroadcast | crates/disruptor-mp/src/consumer.rs:257-368 | without crashes a gating consumer's log is the published events from 0 to its position, in order, once each, whole |
| RingGating.GatingRejoin | crates/disruptor-mp/src/consumer.rs:137-147 | over any crashes of a gating consumer nothing committed was skipped, all deliveries were right, a crash costs at most a ring, a rejoin resumes at cursor + 1 |
| RingExact.SlotShows | crates/disruptor-mp/src/backend/shared_memory/ringbuffer.rs:326-338 | the slot of any published sequence shows the newest event on it, or is torn exactly while the next one is being written |
| RingExact.DeliveryShows | crates/disruptor-mp/src/consumer.rs:341-368 | what any consumer is handed next: the event while it is retained, otherwise a later event from the slot or a torn one |
| RingExact.ExactIffShown | crates/disruptor-mp/src/consumer.rs:257-368 | over every run, for any consumer, tracked or not and over any crashes: all deliveries were right exactly when each came while the slot still showed the event |
| RingExact.InOrderIffShown | crates/disruptor-mp/src/consumer.rs:257-368 | without crashes the log is the exact stream exactly then |
| RingExact.ExactIffInTime | crates/disruptor-mp/src/producer.rs:291-362 | with distinct events exact broadcast holds exactly when each sequence q was delivered before the producer began to write q + size |
| RingTheorems.HeldWindowIsStable | crates/disruptor-mp/src/consumer.rs:92-113 | every slot of a held snapshot or lease reads back the published event, for any consumer no grant has left behind |
| RingTheorems.ExactBroadcast | crates/disruptor-mp/src/consumer.rs:257-368 | the exact log of any uncrashed consumer no grant has left behind |
| RingTheorems.RejoinNeverSkips | crates/disruptor-mp/src/consumer.rs:137-147 | crashes and rejoins of any consumer no grant has left behind, with the bound for one crash and for all of them |
| RingTheorems.CursorsNeverRegress | crates/disruptor-mp/src/lock_free/cursor.rs:219-232 | attaching keeps an existing cursor, so committed cursors never move back in any run |
| RingTheorems.LappingStep | crates/disruptor-mp/src/producer.rs:268-286 | exactly which step leaves a consumer more than a ring behind, before the step: a decision that grants on a report above the consumer's cursor, and then the consumer is untracked |
| RingTheorems.ProtectedForever | crates/disruptor-mp/src/producer.rs:255-287 | a tracked consumer that was not lapped never is |
| RingTheorems.FirstScanProtects | crates/disruptor-mp/src/lock_free/consumer_barrier.rs:331-384 | everything found by the first scan that finds anything stays protected, and at most a ring of events came before it |
| RingTheorems.LateSingleConsumer | crates/disruptor-mp/src/lock_free/consumer_barrier.rs:499-568 | a single expected consumer, however late it attaches and is found, gets every event from 0 |
| RingLimits.UntrackedConsumerIsOverwritten | crates/disruptor-mp/src/lock_free/consumer_barrier.rs:532-550 | a concrete run: with two consumers attached and one found, the other reads an overwritten slot |
| RingLimits.LappedMayStillBeInTime | crates/disruptor-mp/src/lock_free/consumer_barrier.rs:532-550 | the same consumer, reading before the granted write begins, still gets the right event |
| RingProgress.NeverStuck | crates/disruptor-mp/src/producer.rs:236-287 | from every reachable state with any consumer attached a crash-free continuation publishes any given further events and brings every tracked consumer, crashed or running, to the end; with nobody tracked the producer first attaches one by its ID, which a scan does only for the names it expects and a direct discovery request for any |
| RingProgress.StepShrinksWork | crates/disruptor-mp/src/consumer.rs:341-368 | remaining publishes plus remaining deliveries is a measure: a finished write and a delivery take exactly one off, no other crash-free step changes it |
| RingProgress.RunShrinksWork | crates/disruptor-mp/src/consumer.rs:341-368 | the number of productive steps of a crash-free run is exactly the work it takes off, and at most the work there was |
| RingProducer.BlockedMeansWork | crates/disruptor-mp/src/producer.rs:268-283 | when there is no room because of tracked consumers, one of them is behind the producer |
| ConsumerBarrier.DecimalInjective | crates/disruptor-mp/src/lock_free/consumer_barrier.rs:95-97 | different slot numbers print differently |
| ConsumerBarrier.DecimalReadsBack | crates/disruptor-mp/src/lock_free/consumer_barrier.rs:95-97 | a slot number is printed in decimal digits without a leading zero, and they read back as the number |
| ConsumerBarrier.AutoIdsDistinct | crates/disruptor-mp/src/builder.rs:53-62 | consumers that drew different registration slots have different IDs |
| ConsumerBarrier.SharedConsumerBarrier.DiscoverConsumerId | crates/disruptor-mp/src/lock_free/consumer_barrier.rs:200-214 | an existing cursor is tracked afterwards, an absent one is not; nothing else changes |
| ConsumerBarrier.SharedConsumerBarrier.DiscoverConsumers | crates/disruptor-mp/src/lock_free/consumer_barrier.rs:331-457 | a due scan tracks every existing cursor named by the prefix and a counter below the expected number, or, without a prefix, by `ad_` and a slot that is registered and below it; names of nearby processes come in exactly while too few slots are tracked; it records its time and completes exactly at the limit; until something is found every call scans, then scans are an interval apart, and after completion nothing changes |
| ConsumerBarrier.SharedConsumerBarrier.DiscoveredMinSequence | crates/disruptor-mp/src/lock_free/consumer_barrier.rs:532-550 | the result lies between the least cursor at the start and the least cursor at the end |
| ConsumerBarrier.SharedConsumerBarrier.GetMinConsumerSequence | crates/disruptor-mp/src/lock_free/consumer_barrier.rs:499-517 | a due scan is made first, with all it finds; the result lies between the least cursor before and after, with the fallback when nothing is tracked |
| RingProducer.CacheIsSound | crates/disruptor-mp/src/producer.rs:260-262 | the cached clearance never promises room there is not |
| RingProducer.SharedProducer.constructor | crates/disruptor-mp/src/producer.rs:124-175 | a new producer starts at sequence 0, cursor -1, clearance size - 1 |
| RingProducer.SharedProducer.UpdateMinConsumerClearanceWindow | crates/disruptor-mp/src/producer.rs:255-287 | a grant leaves room for the request and moves the clearance as far as some moment of the call allowed; a refusal changes nothing and its count is right for some moment of the call |
| RingProducer.SharedProducer.NextSequences | crates/disruptor-mp/src/producer.rs:236-287 | under any interference room before the call suffices, a grant implies room after it, a refusal's count lies between the two; when no tracked consumer moves during the call it succeeds exactly if there is room, and a refusal names exactly the missing slots; a request beyond 64 bits is refused with the maximal count; as long as the clearance was still where the constructor put it, everybody tracked afterwards is gating and safe; it scans for consumers exactly if the cached clearance does not suffice and a scan is due |
| RingProducer.SharedProducer.WriteSlot | crates/disruptor-mp/src/producer.rs:291-327 | one event is written into its own slot and nothing else of the producer's changes |
| RingProducer.SharedProducer.ApplyUpdate | crates/disruptor-mp/src/producer.rs:291-327 | exactly one event is appended and published at the old sequence |
| RingProducer.SharedProducer.ApplyBatchUpdates | crates/disruptor-mp/src/producer.rs:329-362 | the batch is appended in index order and published by its last sequence |
| RingProducer.SharedProducer.TryBatchPublish | crates/disruptor-mp/src/producer.rs:415-429 | all or nothing; a batch never exceeds the ring; zero is a no-op; room suffices; a refusal counts the missing slots |
| RingProducer.SharedProducer.TryPublish | crates/disruptor-mp/src/producer.rs:367-383 | one event or none; room suffices |
| RingConsumer.SharedConsumer.constructor | crates/disruptor-mp/src/consumer.rs:121-155 | attaching resumes at the committed cursor, or before sequence 0 |
| RingConsumer.SharedConsumer.AvailableBatchBounds | crates/disruptor-mp/src/consumer.rs:309-323 | the bounds are from the next sequence to the producer cursor, none exactly when caught up |
| RingConsumer.SharedConsumer.PublishConsumedSequence | crates/disruptor-mp/src/consumer.rs:326-333 | shared cursor and local progress move together |
| RingConsumer.SharedConsumer.ProcessSnapshotBatch | crates/disruptor-mp/src/consumer.rs:341-368 | every sequence of the snapshot is handed over once, in order, with the published event unless lapped, then committed once |
| RingConsumer.SharedConsumer.TryConsumeNext | crates/disruptor-mp/src/consumer.rs:257-283 | the next event, as published unless lapped, then committed; none exactly when caught up |
| RingConsumer.SharedConsumer.TryConsumeNextLeased | crates/disruptor-mp/src/consumer.rs:286-306 | a lease on the next sequence with progress held back |
| RingConsumer.SharedConsumer.ConsumeNext | crates/disruptor-mp/src/consumer.rs:403-417 | polling hands over exactly one event, the next one; it gives up only when its last try saw an empty ring |
| RingConsumer.SharedConsumer.ConsumeNextLeased | crates/disruptor-mp/src/consumer.rs:419-431 | polling leases exactly the next sequence and commits nothing; it gives up only when its last try saw an empty ring |
| RingConsumer.SharedConsumer.ProcessAvailable | crates/disruptor-mp/src/consumer.rs:531-555 | several snapshots in a row hand over one consecutive stretch and leave the consumer caught up when drained |
| RingConsumer.SharedConsumerLease.Deref | crates/disruptor-mp/src/consumer.rs:92-104 | every read of a lease sees the published event, whatever the producer does |
| RingConsumer.SharedConsumerLease.Drop | crates/disruptor-mp/src/consumer.rs:106-117 | dropping the lease commits exactly its sequence |
| Framing.FragmentShape | crates/myelon/src/transport.rs:1809-1840 | a payload is cut into its chunks in order, an empty one into one frame; only the first frame is flagged first, only the last one last |
| Framing.DecodeItem | crates/myelon/src/transport.rs:814-862 | from any decoder state the frames of one publish call yield its message exactly if all were sent |
| Framing.DecodeStream | crates/myelon/src/transport.rs:814-862 | a stream mixing complete and cut-off messages decodes to exactly the complete ones |
| Framing.SinglePassesThrough | crates/myelon/src/transport.rs:826-831 | a one-frame message is delivered wherever it comes and leaves a longer one under way as it is |
| Framing.Resynchronises | crates/myelon/src/transport.rs:814-862 | an empty decoder started at any frame delivers exactly the complete messages whose first frame it sees |
| Framing.TailIsSilentIffForeign | crates/myelon/src/transport.rs:836-857 | a tail without its first frame is silent exactly when its ID is not the decoder's |
| Framing.BatchingIsInvisible | crates/myelon/src/transport.rs:814-862 | splitting the frames into batches changes nothing |
| Framing.ReceiveMessage | crates/myelon/src/transport.rs:1566-1608 | a blocking receive returns the message at the head and takes exactly its frames |
| Framing.AllPathsAgree | crates/myelon/src/transport.rs:1730-1758 | blocking receives and batch receives under any split return exactly the published messages |
| Receiving.ReceivingGoesOn | crates/myelon/src/transport.rs:1566-1608 | receiving call after call gives the same messages however the frames arrive in between |
| Receiving.BlockingReceivesComplete | crates/myelon/src/transport.rs:1566-1608 | repeated blocking receives return exactly the complete messages of a stream if and only if none of them comes behind one that was cut off |
| Transport.FixedFrame.WriteFrame | crates/myelon/src/transport.rs:433-453 | a written frame reads back, whatever longer payload the slot held |
| Transport.ReassemblyBuffer.EnsureCapacity | crates/myelon/src/transport.rs:1016-1026 | growth keeps the contents, zero-fills and never shrinks |
| Transport.ReassemblyBuffer.Start | crates/myelon/src/transport.rs:966-982 | afterwards the buffer holds exactly the first chunk |
| Transport.ReassemblyBuffer.Append | crates/myelon/src/transport.rs:984-991 | afterwards exactly the old bytes and the new ones |
| Transport.RunHistory | crates/myelon/src/transport.rs:945-1026 | over every history of calls the buffer shows the bytes since the last start |
| Transport.ProcessAvailableMessages | crates/myelon/src/transport.rs:814-862 | the loop over the word-granular buffer computes the decoder, state and messages |
| FramedReceiver.BlockingTransportConsumer.RecvMessageBlockingOwned | crates/myelon/src/transport.rs:1566-1608 | over the live ring the loop returns the message of exactly the frames it took; it gives up only after the given number of frames, or where its last look saw an empty ring |
| FramedReceiver.BlockingTransportConsumer.RecvMessageBlockingLeased | crates/myelon/src/transport.rs:749-801 | the leased loop, looking at each frame in its slot and gathering in the caller's buffer, returns the same and gives up in the same cases only |
| FramedReceiver.BlockingReceivesPrefix | crates/myelon/src/transport.rs:701-801 | through ring and consumer: in any state of the calls an unlapped consumer has received a prefix of what repeated receives make of the stream, all of it at the end |
| FramedReceiver.BlockingReceivesMessages | crates/myelon/src/transport.rs:701-801 | hence a prefix of the complete messages, in order, and all of them at the end, unless one comes behind a cut-off one |
| FramedRing.FramedTransportProducer.PublishFramedPayload | crates/myelon/src/transport.rs:1809-1840 | the frames in the ring are always a beginning of the message's, all of them exactly on success; it fails only where, with exactly the frames before in, the consumers tracked at the end left no room |
| FramedConsumer.FramedTransportConsumer.ProcessAvailableMessages | crates/myelon/src/transport.rs:814-862 | each frame is decoded in the handler, before its batch is committed; while every delivery was whole, what the handler was given is the decoding of all frames handed over since attaching |
| FramedConsumer.ReceivedIsPrefix | crates/myelon/src/transport.rs:599-610 | through ring, consumer and buffer: the received messages are a prefix of the complete ones, and all of them at the end of the stream |
| FramedConsumer.GatingReceivesPrefix | crates/myelon/src/transport.rs:599-610 | the messages a gating consumer's handler received are a prefix of the complete ones, and all of them at the end of the stream |
| FramedConsumer.EnrolledReceivesPrefix | crates/myelon/src/transport.rs:599-610 | the same for a consumer known at any earlier moment to be gating, through the objects alone |
| EndToEnd.DeliveredMessagesArePrefix | crates/myelon/src/transport.rs:814-862 | in every reachable state the decoded messages of a consumer no grant has left behind are a prefix of the complete ones, also for messages with more frames than the ring has slots |
| EndToEnd.GatingMessagesArePrefix | crates/myelon/src/transport.rs:814-862 | over every run the decoded messages of a gating consumer are a prefix of the complete ones |
| EndToEnd.GatingRejoinResynchronises | crates/myelon/src/transport.rs:814-862 | after crashes and rejoins a gating consumer's incarnation delivers only complete messages whose first frame it was handed, in order |
| EndToEnd.RejoinedDecoderResynchronises | crates/myelon/src/transport.rs:814-862 | an incarnation of any consumer no grant has left behind delivers only complete messages whose first frame it was handed, in order |
| Liveness.RequiredConsumerLivenessState.constructor | crates/disruptor-mp/src/required_consumer.rs:165-190 | every required consumer starts at sequence -1, unstalled |
| Liveness.RequiredConsumerLivenessState.SeedProgress | crates/disruptor-mp/src/required_consumer.rs:311-327 | the loop restarts every record from what was observed |
| Liveness.RequiredConsumerLivenessState.EvaluateBlocked | crates/disruptor-mp/src/required_consumer.rs:230-309 | the imperative check is the automaton's transition, alerts and terminal error included |
| LivenessTheorems.HistoryInv | crates/disruptor-mp/src/required_consumer.rs:230-327 | after any history the records are what the history of effective checks says |
| LivenessTheorems.EntriesAreEffective | crates/disruptor-mp/src/required_consumer.rs:230-327 | the checks that count are exactly the calls at least an interval after the last one, and the seedings, with what they observed, up to the one that raises an error |
| LivenessTheorems.NoEarlyShutdown | crates/disruptor-mp/src/required_consumer.rs:275-303 | an error reports a stall of at least both periods, timed from the last move, with no move in that span |
| LivenessTheorems.ErrorIsFinal | crates/disruptor-mp/src/required_consumer.rs:236-238 | once raised, the same error is returned by every later check |
| LivenessTheorems.AlertIffStalled | crates/disruptor-mp/src/required_consumer.rs:251-288 | in every reachable state, also after an error, the alert flag is up exactly while a stall is recorded |
| LivenessTheorems.OneAlertPerStall | crates/disruptor-mp/src/required_consumer.rs:251-288 | between two alerts for one consumer it moved; until an error the recorded stall is the one the history of checks shows |
| LivenessAlerts.AlertOpenIffStalled | crates/disruptor-mp/src/required_consumer.rs:251-288 | over every history exactly one alert of a required consumer has no move behind it exactly while the history shows a stall that a check got to |
| LivenessAlerts.AlertsTellTruth | crates/disruptor-mp/src/required_consumer.rs:274-288 | every alert was raised by the check that first showed the stall, with the highest sequence seen and the time since the last move |
| LivenessAlerts.UnreachedGetsNoAlert | crates/disruptor-mp/src/required_consumer.rs:251-303 | a concrete history: a check that fails for the first consumer leaves the second one's stall without an alert |
| LivenessDetection.BoundedDetection | crates/disruptor-mp/src/required_consumer.rs:226-309 | with calls at most d apart from some moment on, whatever happened before, a consumer that stops moving at p has raised some error before p + timeout + grace + 2 (interval + d) |
| LivenessDetection.StandingIsDetected | crates/disruptor-mp/src/required_consumer.rs:226-309 | checks that see a required consumer stand still behind the producer do not go on without an error for timeout + grace + 3 interval + 2 d |
| ManagedProducer.ManagedSharedProducer.EnsureRequiredConsumersReady | crates/disruptor-mp/src/producer.rs:488-520 | readiness means every required cursor is tracked and seeded with a true reading; a startup error comes with the first look after the timeout and names only consumers absent when the call began; waiting on means one was absent and the timeout is not over |
| ManagedProducer.ManagedSharedProducer.CheckRequiredConsumerLiveness | crates/disruptor-mp/src/producer.rs:524-541 | it makes exactly one check, with the producer's published sequence and a true reading of every required cursor; a new error names a consumer whose committed cursor was at most the sequence named, and behind the producer |
| ManagedProducer.ManagedSharedProducer.PublishManaged | crates/disruptor-mp/src/producer.rs:579-600 | the event is published exactly on success and an error leaves the ring alone; after an earlier error the call ends at once, with the event published or with exactly that error; in an undisturbed call it succeeds exactly if there is room; every attempt without room is followed by one true check, so a required consumer that stands still behind the producer ends the call by the limit of `StandingIsDetected` |
| Checksum.Checksum32 | crates/disruptor-mp/src/shared_memory_layout.rs:73-80 | the loop computes the hash |
| Checksum.KnownHashes | crates/disruptor-mp/src/shared_memory_layout.rs:73-80 | the hash of the empty text is the offset basis, and a zero byte multiplies any hash by the prime, modulo two to the power 32 |
| Bits.BitOfXor | crates/disruptor-mp/src/shared_memory_layout.rs:76 | the exclusive or, bit by bit |
| Checksum.MulInjective | crates/disruptor-mp/src/shared_memory_layout.rs:77 | the wrapping multiplication by the odd prime loses nothing |
| Checksum.MixInjective | crates/disruptor-mp/src/shared_memory_layout.rs:75-78 | one hash step is injective in the hash and in the byte |
| Checksum.OneByteChangesHash | crates/disruptor-mp/src/shared_memory_layout.rs:73-80 | replacing one byte keeps the checksum exactly if it is the same byte |
| Layout.HeaderBytes | crates/disruptor-mp/src/shared_memory_layout.rs:16-30 | the place of every field and the weight of each of its bytes |
| Layout.DecodeEncode | crates/disruptor-mp/src/shared_memory_layout.rs:16-30 | a written header reads back field by field |
| Layout.EncodeDecode | crates/disruptor-mp/src/shared_memory_layout.rs:86-94 | every 56 bytes are the encoding of the header they decode to |
| LayoutChecks.AlignUpIsLeast | crates/disruptor-mp/src/shared_memory_layout.rs:64-71 | fails exactly off the powers of two, else the least multiple not below, or 0 on wrap-around |
| LayoutChecks.OffsetIsLeast | crates/disruptor-mp/src/shared_memory_layout.rs:162-167 | the payload starts at the first aligned place behind the header |
| LayoutChecks.WriteLayoutBytes | crates/disruptor-mp/src/shared_memory_layout.rs:248-277 | the region's first 56 bytes become the header and nothing else changes; on error nothing does |
| LayoutChecks.WrittenBytes | crates/disruptor-mp/src/shared_memory_layout.rs:169-277 | every byte of a written header, the checksum included, from the caller's parameters |
| LayoutChecks.PlanSucceeds | crates/disruptor-mp/src/shared_memory_layout.rs:169-220 | exactly when a write succeeds |
| LayoutChecks.PlanFails | crates/disruptor-mp/src/shared_memory_layout.rs:169-277 | which error a failing write returns |
| LayoutChecks.ValidateWritten | crates/disruptor-mp/src/shared_memory_layout.rs:298-358 | exactly when a written segment validates for another caller: same kind and sizes, and room under the larger alignment |
| LayoutChecks.ValidationFails | crates/disruptor-mp/src/shared_memory_layout.rs:298-358 | which error another caller's validation of a written segment returns |
| LayoutChecks.WriteThenValidate | crates/disruptor-mp/src/shared_memory_layout.rs:248-358 | validating with the same parameters succeeds with the same aligned, in-bounds offset |
| LayoutChecks.OffsetsAgree | crates/disruptor-mp/src/shared_memory_layout.rs:346-350 | whenever another caller's validation is accepted, writer and reader agree on the offset exactly when it is aligned for both |
| LayoutChecks.TightRegionAgrees | crates/disruptor-mp/src/shared_memory_layout.rs:346-358 | on a region of the required size, or less than the writer's alignment longer, every accepted validation names the written offset |
| LayoutChecks.ReaderMissesPayload | crates/disruptor-mp/src/shared_memory_layout.rs:346-358 | on a region with slack a reader with a larger alignment accepts the segment and looks at its own first aligned place, not the written one |
| LayoutChecks.EightBytesTooFar | crates/disruptor-mp/src/shared_memory_layout.rs:346-358 | such a disagreement: an 8-byte writer put the payload at 56, a 64-byte reader looks at 64 |
| LayoutChecks.TamperedHeaderFails | crates/disruptor-mp/src/shared_memory_layout.rs:102-148 | changing any single header byte makes reading fail, with the check its place decides |
| Oracle.OracleExact | crates/myelon-dst/src/runner_oracle.rs:85-156 | no violation exactly when the report agrees message by message and strictly increases |
| Oracle.ViolationsAreTrue | crates/myelon-dst/src/runner_oracle.rs:95-149 | every reported violation states a true fact |
| Oracle.ViolationsAreAll | crates/myelon-dst/src/runner_oracle.rs:95-149 | the list holds exactly the true violations up to the first extra message |
| Oracle.MessageOracle.RecordPublish | crates/myelon-dst/src/runner_oracle.rs:60-65 | every consumer is expected to see the message |
| Oracle.MessageOracle.VerifyConsumerMessages | crates/myelon-dst/src/runner_oracle.rs:85-156 | the loop passes exactly the correct reports and otherwise returns the violations |
| Oracle.MessageOracle.VerifyComplete | crates/myelon-dst/src/runner_oracle.rs:158-174 | passes exactly when every given report is correct, and otherwise returns the violations of all of them in order |
| Restart.MergeChildReports | crates/myelon-dst/src/runner.rs:1318-1371 | the merged messages, and totals recomputed from them |
| Restart.TotalIsSum | crates/myelon-dst/src/runner.rs:1362-1365 | a report's checksum total is the sum of its payload hashes modulo two to the power 64 |
| Restart.MergeRebuilds | crates/myelon-dst/src/runner.rs:1318-1371 | any prefix merged with any suffix, overlapping, adjacent, gapped or empty, rebuilds the stream |
| Restart.ConcatContiguousIff | crates/myelon-dst/src/runner.rs:1425-1452 | concatenation continues the stream exactly when there is no gap |
| Restart.BackfillReportFromConsumers | crates/myelon-dst/src/runner.rs:1396-1419 | collect, filter, sort and deduplicate, then totals recomputed |
| Restart.SortedOnce | crates/myelon-dst/src/runner.rs:1412-1413 | sorting and deduplicating keeps each key once, in order, with no message made up |
| Restart.FirstStays | crates/myelon-dst/src/runner.rs:1412-1413 | of several messages with one key the one collected first is kept |
| Restart.BackfillYieldsStream | crates/myelon-dst/src/runner.rs:1396-1419 | backfilling from the consumers' reports yields exactly the stream up to the given length |
| Restart.RestartedRunPassesOracle | crates/myelon-dst/src/runner.rs:1318-1423 | whatever reports are known at the restart: backfill, restart and concatenation make the producer's report the whole stream, and merged with it any earlier and later part of a consumer's report passes the oracle |
| Restart.MergedPassesOracle | crates/myelon-dst/src/runner.rs:662-667 | a whole producer report merged with any beginning and any end of a consumer's report yields one that passes the oracle |
| Restart.RunnerRestartPassesOracle | crates/myelon-dst/src/runner.rs:804-822 | the runner's own restart, before any consumer report is collected: it begins at the producer's next sequence, the report is the whole stream even if the producer left none, and the merged consumer report passes the oracle |
| Expander.FindRefIsFirst | crates/competitive-bench/src/infra/parity.rs:77-81 | which reference is found: first opening, first closing behind it |
| Expander.ShowParse | crates/competitive-bench/src/infra/parity.rs:76-90 | cutting a text at its references loses nothing |
| Expander.ConfigResolver.ResolveValue | crates/competitive-bench/src/infra/parity.rs:64-93 | expansion with a stack of keys computes the specification, terminates, and restores the stack |
| Expander.ConfigResolver.ReplaceReferences | crates/competitive-bench/src/infra/parity.rs:76-90 | the in-place replacement with a moving search position is the left-to-right expansion |
| Expander.PanicsIffCyclic | crates/competitive-bench/src/infra/parity.rs:69-71 | panics exactly when the key reaches a reference cycle |
| Expander.ExpansionEquation | crates/competitive-bench/src/infra/parity.rs:64-93 | off cycles a key means its value with known references replaced by their meaning, wherever it is met; a missing key means the reference itself |
| Expander.NothingKnown | crates/competitive-bench/src/infra/parity.rs:86-88 | unknown references stay verbatim |

## Left out

- RingConsumer.SharedConsumer.ProcessAvailable: drains at most a given number of snapshots, because the program's loop ends only when the ring looks empty and a fast producer can keep it busy.
- FramedRing.FramedTransportProducer.PublishFramedPayload: waits for room as long as a given list of surroundings lasts; the counter of message IDs belongs to the producer here and to the process there.
- ManagedProducer.ManagedSharedProducer.PublishManaged: likewise bounded by a list of surroundings; the batch variant differs only in the slot count.
- FramedConsumer.FramedTransportConsumer.ProcessAvailableMessages: bounded by a number of snapshots in the same way; nothing is promised once a delivery was torn.
- Framing.Resynchronises: assumes message IDs other than 0, which holds until the 32-bit counter wraps.
- Framing.AllPathsAgree: states the blocking receivers on complete streams; `Receiving.BlockingReceivesComplete` has the others.
- FramedReceiver.BlockingTransportConsumer.RecvMessageBlockingOwned: polls at most a given number of times for each frame and takes at most a given number of frames, where the program waits for ever; likewise the leased one and `ConsumeNext`. A consumer object uses either these or the batch receiver.
- LivenessDetection.BoundedDetection: a consumer ID listed twice needs a positive progress timeout, which the setters enforce; both checks of one ID see the same observed value.
- Restart.BackfillYieldsStream: sequence numbers are unbounded, so the overflow of `u64::MAX + 1` is not modelled.
- Two live incarnations of one consumer ID: cursors have one writer at a time.
- The hardware memory model: cursor loads and stores are atomic steps in one order.
- A restarted ring producer: it resets its cursor, and what consumers then see is not promised.
- Disabled discovery as a safety claim: nothing is tracked, so nothing holds the producer back.
- What a lapped consumer's handler makes of a half-written slot: the model shows `Torn`, the program arbitrary bytes.
- The end-of-batch flag of the batch handlers, and the receivers that commit before they process.
- Update closures: an event is the value the closure leaves in the slot.
- A consumer cursor at the program's sentinel for "none" is an `Option` here.
- Shared memory segments, files, processes, signals, PIDs of the scanning fallback, CPU pinning, wait strategies and readiness timeouts: foreign calls; names found by PID scanning are a parameter.
- The memory-mapped twins of producer, consumer and transport: the same logic over another segment type.
- Header bytes on big-endian machines, and error message texts.
- Counters, metrics, fault hooks, typed codecs, naming checks, demos and benchmark runners.
- Parsing of the configuration file into keys and values, and of values into numbers.
