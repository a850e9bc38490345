# Event path of the low-latency event engine: model and proofs

The engine moves events from a producer process to a consumer process on another machine: a
single-producer single-consumer ring in shared memory (ingress), a sender loop that turns each event
into one LLEP datagram and offers it to every destination, the network, a receiver loop that decodes,
checks for gaps and duplicates, and a second ring (egress). This project models that path in Dafny and
proves what it guarantees. `dafny verify dfyconfig.toml` checks everything.

The layers, bottom up:

- **Machine arithmetic and bytes.** `Bits` defines and/or bit by bit and proves what the masks and
  roundings compute; `ByteIO` is little-endian field access, each write specified by the splice it makes.
- **Codec.** `Codec` writes a packet in place and parses one into a view of the datagram. Encoder and
  decoder are shown to be inverse bijections between encodable events and accepted packets, and every error
  is tied to the bytes that cause it.
- **Ring, whole calls atomic.** `Queues` is the reference: a bounded queue with no caches that keeps its
  whole history. `Geometry` is the size and slot arithmetic. `Ring` has the mapped segment and the handle
  as classes over a byte array; every call is proved to answer, and to leave the shared memory, as the
  reference queue does, although the handle consults the peer's cursor only when its stale copy says full
  or empty. `RingRuns` lifts that to arbitrary call sequences from initialization, with either handle being
  replaced at will, answer by answer.
- **Ring, one memory access at a time.** `RingSteps` runs the two threads on release/acquire memory: one
  step per atomic access, per slot header field and per payload byte. Each atomic word is the list of all
  stores made to it; a load may return any store not older than what the thread knows, and an acquire load
  imports the view the store was released with (sections 6.9.2.2 and 33.5.4 of ISO/IEC 14882:2024). Plain
  words carry the stamps of their last write and read; an access that is not ordered after a conflicting
  one is a race, and a racy load returns an arbitrary value. `RingInvariant` is the inductive invariant,
  `RingTheorems` the safety guarantees, `RingProgress` says when each step is possible and what it does, and
  `RingRefinement` shows for either side that every run of the ring is a run of the reference queue in which
  that side's calls, in order, get the answers they got. `RingConverse` is the other direction: every run of
  the reference queue that keeps to the contract happens on the ring.
- **Gap detector.** `GapDetection`: the class, which packets get which verdict, and the exact bookkeeping of
  accepted and missing numbers.
- **Loops.** `Sending` and `Receiving` say what a call to `run` does, for an arbitrary script of what the
  surroundings do at each point of each iteration: what the other process does to the ring, whether each
  send succeeds, what the socket delivers, and when the stop flag is found set. `SenderLoop` and
  `ReceiverLoop` hold the objects with their fields, buffers, 64-bit counters and while loops, and prove
  that the object over a mapped ring computes exactly that. `SenderTheorems` and `ReceiverTheorems` state
  numbering, accounting and delivery over any number of runs; `SenderProgress` and `ReceiverProgress` state
  what the loops are bound to do: which turns end a run, and what every other turn achieves.
- **End to end.** `EndToEnd` composes sender, an arbitrary network and receiver; `Session` runs the two
  objects over two mapped rings and concludes the same for them.

Modelling choices that matter when reading the statements:

- Counters are unbounded in the specifications; the fields of the objects hold the counts modulo 2^64
  (`Statistics`), and `CountersOk` ties the two together. Cursor and gap arithmetic wraps at 64 bits.
- A script is finite; after its last turn the stop flag is found set. Every point at which the flag can be
  set corresponds to a script length. `SenderState` and `ReceiverState` also carry history that the code
  does not store (what was offered on the wire, ingress positions of numbered packets, datagrams heard).
- The network appears only as the relation between what was offered and what arrives. `NoForgery` says
  that well-formed datagrams of this session that arrive were offered by this sender; nothing is said about
  how often, when, in which order or whether.
- The stated contract of the ring is assumed: one producer and one live consumer, closure only after the
  producer has stopped (`StopProducer` before `ClosePublication`), no foreign writes to the mapping. A
  replaced handle starts after the old handle's last call.

Where the code and its documentation differ, the model follows the code: `docs/protocol.md` lets a DATA
packet carry several event frames, while the decoder accepts exactly one and the model's `Decode` answers
`UnsupportedBatch` for more (`Codec.BatchIsRefused`).

One property is false on some inputs and is stated with its exact condition. A gap detector that has pinned
no session accounts exactly for a packet if and only if the packet's session and sequence are nonzero:
sequence 0 makes the 64-bit gap wrap to 2^64 - 1, and session 0 leaves the detector unpinned behind a moved
mark. `GapDetection.StepExactIff` proves both directions; `Codec.Canonical` shows that the decoder lets no
such packet through, so the receiver never shows one to the detector. `ZeroSequenceWraps` and
`ZeroSessionUnpins` are the concrete inputs.

## Model

| member | source | states |
|---|---|---|
| Bits.AlignUpIsLeast | include/lle/detail/alignment.hpp:6-12 | rounding with the bit mask yields the least multiple of a power-of-two alignment that is not below the value |
| Bits.AndMask | include/lle/detail/alignment.hpp:7 | masking with 2^k - 1 is the remainder modulo 2^k, for every value |
| Bits.PowerOfTwoTest | src/shm/spsc_ring.cpp:69 | the test n & (n - 1) accepts exactly the powers of two |
| Bits.OrDisjoint | src/protocol/byte_io.hpp:30-40 | or-ing a value below 2^k with one shifted left by k is their sum |
| ByteIO.ReadsByShifts | src/protocol/byte_io.hpp:30-40 | the readers' sums are the shifts and ors of the code |
| ByteIO.HasBytes | src/protocol/byte_io.hpp:8-11 | the overflow-free range test holds exactly when offset plus count fits |
| ByteIO.Field16 | src/protocol/byte_io.hpp:13-32 | two bytes are the encoding of a value if and only if reading them gives that value |
| ByteIO.Field32 | src/protocol/byte_io.hpp:18-35 | the same for four bytes |
| ByteIO.Field64 | src/protocol/byte_io.hpp:23-40 | the same for eight bytes |
| ByteIO.WriteU16 | src/protocol/byte_io.hpp:13-16 | overwrites exactly two bytes with the little-endian encoding |
| ByteIO.WriteU32 | src/protocol/byte_io.hpp:18-21 | overwrites exactly four bytes with the little-endian encoding |
| ByteIO.WriteU64 | src/protocol/byte_io.hpp:23-26 | overwrites exactly eight bytes with the little-endian encoding |
| ByteIO.CopyBytes | src/protocol/encoder.cpp:52 | the destination range becomes the source bytes and nothing else changes, wherever a forward copy is defined, inside one array included |
| ByteIO.FillZero | src/protocol/encoder.cpp:53-57 | the range becomes zero and nothing else changes |
| Codec.FrameSize | src/protocol/encoder.cpp:33-34 | the frame is a multiple of four that holds header and payload with less than four bytes to spare |
| Codec.PacketSize | src/protocol/encoder.cpp:35 | payload limit and packet limit are the same limit, and no packet is below the minimum |
| Codec.EncodeCheck | src/protocol/encoder.cpp:16-39 | there is no error exactly when both identities are nonzero and the event is encodable under the output limit |
| Codec.EncodeData | src/protocol/encoder.cpp:10-59 | each error exactly for its own failing field, in order; success exactly otherwise, writing exactly the reported prefix; the buffer untouched on failure; the payload may lie in the buffer itself behind the header |
| Codec.Assemble | src/protocol/encoder.cpp:41-57 | the encoder's field writes, payload copy and padding leave one packet and the rest of the buffer as it was |
| Codec.HeaderFields | src/protocol/decoder.cpp:19-56 | the first 42 bytes are the header of an event if and only if every field read at its offset has that event's value |
| Codec.CheckFrame | src/protocol/decoder.cpp:46-77 | a frame that passes accounts for every byte of the datagram |
| Codec.ZeroBetween | src/protocol/decoder.cpp:67-73 | the padding scan passes exactly when the range is all zeros |
| Codec.DecodeData | src/protocol/decoder.cpp:11-89 | the decoded payload is a view inside the datagram given, and it reads as the decoded event |
| Codec.RoundTrip | src/protocol/decoder.cpp:11-89 | decoding an encoded event returns its identity, metadata and payload exactly |
| Codec.Canonical | src/protocol/decoder.cpp:11-89 | re-encoding what was decoded reproduces the datagram byte for byte, and the decoded value is encodable with nonzero identities |
| Codec.AcceptedIffEncoded | src/protocol/decoder.cpp:11-89 | the accepted byte strings are exactly the encodings of encodable events |
| Codec.PacketInjective | src/protocol/encoder.cpp:41-58 | two different identities or events never encode to the same bytes |
| Codec.LengthIsChecked | src/protocol/decoder.cpp:30-32 | an accepted datagram with bytes appended is refused |
| Codec.BatchIsRefused | src/protocol/decoder.cpp:75-77 | a well-formed first frame with more bytes behind it under a consistent length is refused as UnsupportedBatch |
| Codec.HeaderErrors | src/protocol/decoder.cpp:13-45 | which header bytes give which error, for every datagram |
| Codec.FrameErrors | src/protocol/decoder.cpp:46-77 | which frame bytes give which error, for every datagram with a good header |
| Codec.DecodeErrors | src/protocol/decoder.cpp:11-89 | each of the twelve errors if and only if the bytes have its defect and none looked for earlier, and acceptance if and only if they have none |
| Queues.Run | include/shm/spsc_ring.hpp:121-226 | over any sequence of operations the history only grows, at most slot_count events are queued, and nothing is published after closure |
| Queues.RunPublishAll | include/shm/spsc_ring.hpp:121-168 | publishing into an open queue with room appends exactly those events in order |
| Queues.RunTakeAll | include/shm/spsc_ring.hpp:170-226 | acquiring and releasing n times takes the n oldest events |
| Queues.AnswersTellAll | include/shm/spsc_ring.hpp:121-226 | over any run the history is exactly what was published with success, in order, and the read position counts the successful releases |
| Queues.FirstInFirstOut | include/shm/spsc_ring.hpp:170-214 | an acquired event is the one after those released, in the order of successful publishes |
| Queues.ClosureIsFinal | include/shm/spsc_ring.hpp:125-129 | after a closure every publish answers Closed, whatever comes between |
| Geometry.AcceptedIff | src/shm/spsc_ring.cpp:66-86 | InvalidConfig exactly for a slot count that is no power of two from 2 on, SizeOverflow exactly for a capacity whose stride does not fit 32 bits, and acceptance exactly otherwise |
| Geometry.AcceptedConfigs | src/shm/spsc_ring.cpp:66-86 | exactly which configurations are accepted, in closed form; the size is 192 plus slots times stride without overflow, division recovers the stride, and the stride is the least multiple of 64 holding header and payload |
| Geometry.RequiredBytes | src/shm/spsc_ring.cpp:66-86 | an accepted size is the header plus slot count times stride |
| Geometry.FitsByDivision | src/shm/spsc_ring.cpp:81-83 | the overflow test by division is equivalent to the product fitting |
| Geometry.PositionsApart | include/shm/spsc_ring.hpp:155-156 | the masked position is the remainder, and any two positions less than one lap apart get disjoint byte ranges inside the segment |
| Ring.HeldHeader | include/shm/spsc_ring.hpp:109-113 | a slot that holds an event reads as that event's metadata and passes the validity test exactly when the payload fits |
| Ring.FillSlot | include/shm/spsc_ring.hpp:102-107 | header fields and payload copy write one event into the slot and nothing else, reserved words included; the payload may lie elsewhere in the slot memory |
| Ring.FilledSlot | include/shm/spsc_ring.hpp:155-163 | a slot with zero reserved words holds the event after the writes |
| Ring.SlotPayload | include/shm/spsc_ring.hpp:207-213 | the payload of the event that a slot holds lies right behind the slot header |
| Ring.PublishHolds | include/shm/spsc_ring.hpp:155-167 | filling the slot of the next position keeps every queued event's bytes and all reserved words, and adds the new event |
| Ring.ParseSlot | include/shm/spsc_ring.hpp:198-213 | a slot is refused exactly by the header test, the view is made of the header fields, and a slot that holds an event reads as that event |
| Ring.SpscRing.TryPublish | include/shm/spsc_ring.hpp:121-168 | Closed without a segment, in any state but READY and at the last cursor value; PayloadTooLarge exactly for READY and too large; on a sound ring Full exactly when every slot is taken; on any attached segment a success fills exactly the slot of the write position and a refusal writes nothing; answers, memory and invariant are those of the uncached queue; the payload only has to stay clear of the slot that would be written |
| Ring.SpscRing.Put | include/shm/spsc_ring.hpp:135-168 | behind the guards, a sound ring answers Full exactly when every slot is taken and otherwise publishes |
| Ring.SpscRing.Reserve | include/shm/spsc_ring.hpp:142-153 | on any cursors, which reload answers Full, Closed or neither; with a stale copy that is a lower bound it refuses exactly when the ring is full by the real read cursor |
| Ring.SpscRing.WriteNext | include/shm/spsc_ring.hpp:155-167 | the cursor moves by one, the history gains the event, and a sound ring with room stays sound |
| Ring.SpscRing.TryAcquire | include/shm/spsc_ring.hpp:170-214 | answers as the uncached queue does; the view lies in the slot of the acquired position and reads as the oldest event; on any attached segment, which cursors lead to which answer |
| Ring.SpscRing.Take | include/shm/spsc_ring.hpp:178-213 | a queued event of a sound ring is always taken, an empty one answers Empty or Closed by the state, and cursors more than a lap apart answer InvalidSlot |
| Ring.SpscRing.Hold | include/shm/spsc_ring.hpp:198-214 | the held position and the place of the view are those of the read cursor, a refused slot is not held, and a queued event reads as itself |
| Ring.SpscRing.Locate | include/shm/spsc_ring.hpp:155-156 | the masked position is its slot index and the whole slot lies inside the segment |
| Ring.SpscRing.Settle | include/shm/spsc_ring.hpp:181-196 | on any cursors, which distance answers Empty, Closed, InvalidSlot or goes on; with a stale copy that is a lower bound it refuses exactly when nothing is queued |
| Ring.SpscRing.ViewSlot | include/shm/spsc_ring.hpp:198-213 | the slot is refused exactly by the header test, the view is made of the header fields, and for a position that holds an event it reads as that event |
| Ring.SpscRing.Release | include/shm/spsc_ring.hpp:216-226 | gives back the held slot as the uncached queue does, or answers false and changes nothing |
| Ring.SpscRing.ClosePublication | src/shm/spsc_ring.cpp:173-184 | only the initializing handle closes; closing keeps the invariant and every queued event |
| Ring.SpscRing.Moved | src/shm/spsc_ring.cpp:186-196 | every field moves, and the source is left closed, without authority, with zeroed geometry and cursors |
| Ring.FillPreamble | src/shm/spsc_ring.cpp:14-36 | the header names a sound geometry for exactly this mapping |
| Ring.ClearSlotHeaders | src/shm/spsc_ring.cpp:116-120 | after the loop all 32 header bytes of every slot are zero and every payload area is as it was |
| Ring.Initialize | src/shm/spsc_ring.cpp:88-128 | succeeds exactly for a nonzero instance, a usable mapping and the exact size; the result is an empty sound ring for both roles; a refusal writes nothing |
| Ring.Attach | src/shm/spsc_ring.cpp:130-171 | accepts exactly the sound layouts and says which error every other one gives; on a sound ring the new handle continues the same queue with only a held slot forgotten |
| RingRuns.Call | include/shm/spsc_ring.hpp:121-226 | any one call through any handle gets the answer the uncached queue gives and does what it does; replacing either handle changes nothing but a held slot |
| RingRuns.Replay | include/shm/spsc_ring.hpp:121-226 | any sequence of calls, with either handle replaced by a fresh attachment at any point, gets the answers of that run of the uncached queue and ends in its state |
| RingRuns.Open | src/shm/spsc_ring.cpp:88-171 | initialization and attachment together give a publishing and a consuming handle on an empty sound ring, exactly for a usable mapping |
| RingRuns.RunFromInitialize | src/shm/spsc_ring.cpp:88-128 | from initialization, every run of calls answers as the uncached queue does from empty and leaves the same cursors, history and closure |
| RingRuns.PublishView | include/shm/spsc_ring.hpp:121-168 | a publish answers as the consumer's queue says and leaves the consumer's held slot alone |
| RingRuns.PublishValue | include/shm/spsc_ring.hpp:121-168 | a publish answers as the consumer's queue says and leaves the consumer's held slot alone |
| RingRuns.AcquireValue | include/shm/spsc_ring.hpp:170-214 | a view read at once gives the oldest event or the queue's refusal |
| RingRuns.ReleaseHeld | include/shm/spsc_ring.hpp:216-226 | a release leaves the producer's view of the ring sound |
| RingRuns.CloseJoined | src/shm/spsc_ring.cpp:173-184 | closing through the initializing handle closes the queue for whoever publishes |
| RingRuns.Reattach | src/shm/spsc_ring.cpp:130-171 | a fresh attachment to a sound ring can take over either role |
| RingRuns.HeldViewMayPublish | include/shm/spsc_ring.hpp:155-163 | a held view can be published into its own ring, because the next publish never writes the held slot |
| RingRuns.HeldViewReads | include/shm/spsc_ring.hpp:205-213 | whatever the producer has done since, the held view still reads as the acquired event |
| RingInvariant.InitialInv | src/shm/spsc_ring.cpp:108-127 | a freshly initialized ring satisfies the invariant |
| RingInvariant.KeepProducerLoadRead | include/shm/spsc_ring.hpp:143-153 | reloading the read cursor, however stale the value, keeps the invariant |
| RingInvariant.KeepProducerStoreCell | include/shm/spsc_ring.hpp:155-163 | each single header or payload store keeps the invariant, in particular it races with no read |
| RingInvariant.KeepProducerStoreWrite | include/shm/spsc_ring.hpp:166 | the release store that publishes keeps the invariant |
| RingInvariant.KeepConsumerLoadWrite | include/shm/spsc_ring.hpp:181-192 | reloading state and write cursor keeps the invariant, in particular closed means the last write is known |
| RingInvariant.KeepConsumerLoadHeader | include/shm/spsc_ring.hpp:198-213 | each header load keeps the invariant, sees the published value and never rejects the slot |
| RingInvariant.KeepCallRelease | include/shm/spsc_ring.hpp:216-226 | the release store that gives the slot back keeps the invariant |
| RingInvariant.ReleaseKeepsMemory | include/shm/spsc_ring.hpp:216-226 | the slots of the positions that stay queued keep their events and stamps over a release |
| RingInvariant.KeepNext | include/shm/spsc_ring.hpp:121-226 | every step of either thread, of the closing thread and of a handle replacement keeps the invariant |
| RingInvariant.KeepExecute | include/shm/spsc_ring.hpp:121-226 | the invariant holds after every run from initialization |
| RingTheorems.DeliveredIsPrefixWithoutRace | include/shm/spsc_ring.hpp:121-226 | for every interleaving and every stale load there is no data race, and what was released is a prefix of what was published, metadata and every byte read equal |
| RingTheorems.SlotsAreExclusive | include/shm/spsc_ring.hpp:143-166 | the slot being filled is never the slot being read or held |
| RingTheorems.HeldViewIsStable | include/shm/spsc_ring.hpp:143-226 | while a view is held its words never change under any further steps, and the producer gets at most slot_count - 1 more publishes |
| RingTheorems.ClosedIsFinal | include/shm/spsc_ring.hpp:181-192 | a Closed answer means every published event was delivered and released, and no later call is answered otherwise, under stale loads |
| RingTheorems.NeverInvalid | include/shm/spsc_ring.hpp:194-203 | runs of ring operations never answer InvalidSlot, and a publish refused as closed before closure means the cursor is exhausted |
| RingTheorems.PublishNeverWaits | include/shm/spsc_ring.hpp:121-168 | inside try_publish a step of its own is always possible, bounded in number, whatever the consumer does |
| RingTheorems.AcquireNeverWaits | include/shm/spsc_ring.hpp:170-214 | the same for try_acquire |
| RingTheorems.AcquireAnswers | include/shm/spsc_ring.hpp:170-214 | on every run, every answer of try_acquire under stale loads is the answer of the uncached queue as the consumer knows it at that moment |
| RingTheorems.PublishAnswers | include/shm/spsc_ring.hpp:121-168 | on every run, every answer of try_publish under stale loads is the answer of the uncached queue as the producer knows it at that moment |
| RingProgress.Enabled | include/shm/spsc_ring.hpp:121-226 | on every reachable state each step is possible if and only if its own thread has got there: calls can always be made, every admissible stale store can be loaded, and nothing else blocks |
| RingProgress.ReleaseDelivers | include/shm/spsc_ring.hpp:216-226 | every release delivers one more event and stores the count of events delivered |
| RingProgress.StorePublishes | include/shm/spsc_ring.hpp:165-167 | every publishing store publishes one more event and stores the count of events published |
| RingProgress.PayloadReads | include/shm/spsc_ring.hpp:205-213 | a byte read through a held view is the published one |
| RingProgress.StoreIsOrdered | include/shm/spsc_ring.hpp:155-163 | each plain store goes into one word of the next position's slot and comes after every read ever made of that word |
| RingProgress.LoadIsOrdered | include/shm/spsc_ring.hpp:198-213 | each plain load looks at one word of the oldest position's slot and comes after the write it sees |
| RingProgress.ProducerLoadsTeach | include/shm/spsc_ring.hpp:125-145 | the producer's relaxed load learns only which store it returned, its acquire loads exactly what those stores were released with |
| RingProgress.ConsumerLoadsTeach | include/shm/spsc_ring.hpp:178-185 | the same for the consumer |
| RingProgress.StoresTell | include/shm/spsc_ring.hpp:165-166 | release stores carry exactly what their thread knows |
| RingRefinement.ConsumerRefinesQueue | include/shm/spsc_ring.hpp:170-226 | for every run there is a run of the uncached queue from empty that ends in the queue the consumer knows and in which the consumer's calls, in order, get the answers they got |
| RingRefinement.ProducerRefinesQueue | include/shm/spsc_ring.hpp:121-168 | for every run there is a run of the uncached queue from empty that ends in the queue the producer knows and in which the producer's publishes, in order, get the answers they got |
| RingRefinement.News | include/shm/spsc_ring.hpp:183-185 | a reload that learns of several publishes, and perhaps of the closure, is a sequence of queue operations by the other side only |
| RingRefinement.LearningStep | include/shm/spsc_ring.hpp:178-196 | a call that ends without a slot is a refused acquire on the queue after the news |
| RingRefinement.RefusingStep | include/shm/spsc_ring.hpp:125-153 | a call that ends without publishing is a refused publish on the queue after the news |
| RingConverse.QueueRunsHappen | include/shm/spsc_ring.hpp:121-226 | every run of the uncached queue that keeps to the contract happens on the ring, step by possible step, with the same calls and answers on both sides, every delivered byte read and equal to the published one |
| RingConverse.FinishPublish | include/shm/spsc_ring.hpp:121-168 | a publish under way can always be run to its end, and with fresh loads answers as the whole queue does |
| RingConverse.FinishAcquire | include/shm/spsc_ring.hpp:170-214 | an acquisition under way can always be run to its end, and with fresh loads answers as the whole queue does |
| RingConverse.Play | include/shm/spsc_ring.hpp:121-226 | from rest, whatever the queue does next the ring can do, with the queue's answer |
| GapDetection.GapDetector.Check | src/reliability/gap_detector.cpp:4-24 | the answer and the new fields are those of the specification functions |
| GapDetection.Verdicts | src/reliability/gap_detector.cpp:4-24 | over any run from a fresh detector, packet i is accepted if and only if it is of the first packet's session and exceeds every earlier sequence of it, a wrong session if and only if its session differs, and otherwise a duplicate or old |
| GapDetection.Verdict | src/reliability/gap_detector.cpp:4-24 | the same for the next packet after any run, with the gap counting exactly the numbers skipped since the greatest one of the session |
| GapDetection.RemembersHighMark | src/reliability/gap_detector.cpp:7-22 | a fresh detector remembers the first packet's session and the greatest sequence under it |
| GapDetection.CheckCovers | src/reliability/gap_detector.cpp:17-22 | an accepted packet's gap and range are exactly the numbers between the old and the new mark, with no underflow |
| GapDetection.Partition | src/reliability/gap_detector.cpp:4-24 | over any run, every number passed is accounted for exactly once, as accepted or in one missing range, and no other number is |
| GapDetection.AcceptedRise | src/reliability/gap_detector.cpp:4-24 | accepted numbers rise strictly, and gaps plus acceptances add up to the distance covered |
| GapDetection.RejectedIsIgnored | src/reliability/gap_detector.cpp:9-15 | a rejected packet changes nothing and reports no gap |
| GapDetection.StepExactIff | src/reliability/gap_detector.cpp:4-24 | one check accounts exactly if and only if a session is pinned or both inputs are nonzero |
| GapDetection.ZeroSequenceWraps | src/reliability/gap_detector.cpp:17 | sequence 0 on a fresh detector reports a gap of 2^64 - 1 |
| GapDetection.ZeroSessionUnpins | src/reliability/gap_detector.cpp:7-8 | session 0 on a fresh detector moves the mark without pinning, so that a replay is accepted |
| Statistics.Bump | include/lle/stats.hpp:7-32 | a 64-bit counter that adds keeps step with the unbounded count |
| Sending.FeedAll | include/shm/spsc_ring.hpp:121-168 | whatever the producer does meanwhile only adds events behind those queued, and nothing once closed |
| Sending.Offers | src/sender/sender.cpp:136-144 | one offer per destination in order, all with the same bytes |
| SenderLoop.Sender.EncodeHeld | src/sender/sender.cpp:125-126 | the buffer holds the packet of the acquired event even if the producer acts while the slot is held |
| SenderLoop.Sender.EncodeAndRelease | src/sender/sender.cpp:125-129 | the slot goes back to the producer only once the buffer holds the packet of the acquired event |
| SenderLoop.Sender.Consume | src/sender/sender.cpp:124-129 | the event is counted and its slot released with the packet safe in the buffer |
| SenderLoop.Sender.SendToAll | src/sender/sender.cpp:134-144 | every destination is offered the same bytes even if the producer overwrites the released slot before any of the sends, the first included, and a failed send skips nobody |
| SenderLoop.Sender.FanOut | src/sender/sender.cpp:134-150 | each send and, once, the event are counted |
| SenderLoop.Sender.AdvanceSequence | src/sender/sender.cpp:153-159 | the number moves by one or, at the last number, stays and ends the session |
| SenderLoop.Sender.Step | src/sender/sender.cpp:109-160 | one iteration on a mapped ring is one iteration of the specification |
| SenderLoop.Sender.Run | src/sender/sender.cpp:104-161 | a whole run on a mapped ring, buffer and 64-bit counters is the specified run, for every script |
| SenderLoop.Sender.Moved | src/sender/sender.cpp:88-100 | the session, its numbers and its stop flag move over unchanged, and the source is stopped for good |
| SenderTheorems.SenderRecord | src/sender/sender.cpp:104-161 | over any number of runs the encodable events get the numbers 1, 2, 3, ... with no gap or reuse, every destination is offered identical bytes that decode to the event and its number, and all counters balance |
| SenderTheorems.RunKeepsAccounted | src/sender/sender.cpp:109-160 | numbering and accounting hold after a run from any state in which they held |
| SenderTheorems.SkipKeepsAccounted | src/sender/sender.cpp:130-132 | an unencodable event is counted, consumed and uses no number |
| SenderTheorems.ExhaustedStaysSilent | src/sender/sender.cpp:153-159 | once the last number is used no run changes anything any more |
| SenderTheorems.DrainsClosedIngress | src/sender/sender.cpp:109-122 | on a closed ingress with numbers to spare, run handles each queued event once, one per turn, leaves the ring empty, returns after one turn per event and one more, and at no point in between finds the ring merely empty |
| SenderTheorems.DrainsOnePerTurn | src/sender/sender.cpp:109-129 | a drain cut off after any number of turns has consumed exactly that many events, the oldest ones |
| SenderProgress.TurnEnds | src/sender/sender.cpp:109-159 | a turn ends a run if and only if the ring is closed and drained, a slot was already held, or the last number is used up; only a held slot counts as an ingress error |
| SenderProgress.OpenTurn | src/sender/sender.cpp:109-160 | a turn on an open ingress is followed by the next one: it consumes the oldest queued event, sent under the next number or counted as given up, and if there is none it changes only the queue |
| SenderProgress.EndsOnlyWhenTold | src/sender/sender.cpp:109-117 | on an open ingress with numbers to spare a run ends only when it is told to |
| SenderProgress.KeepsUp | src/sender/sender.cpp:109-160 | everything published by some point of an open run is consumed within as many turns as the ring has slots |
| SenderProgress.ClosureEndsOpenRun | src/sender/sender.cpp:109-122 | when the producer closes during a run, the sender consumes everything ever published, leaves the ring empty and returns by itself |
| SenderProgress.TurnIsRun | src/sender/sender.cpp:109-159 | what one turn does to ingress, as a run of queue operations: the producer's actions at each point, one acquisition and one release, or only the producer's actions if nothing is queued |
| Receiving.DrainAll | include/shm/spsc_ring.hpp:170-226 | whatever the consumer does meanwhile leaves the published history alone |
| ReceiverLoop.Receive | src/transport/udp_receiver.cpp:53-103 | a datagram that fits is in the buffer with its size; a longer one is reported as too large |
| ReceiverLoop.Receiver.DecodeBuffer | src/receiver/receiver.cpp:125-129 | the view in the buffer reads as what the datagram decodes to |
| ReceiverLoop.Receiver.PublishEvent | src/receiver/receiver.cpp:147-149 | the event is copied from the buffer to egress as the uncached queue publishes it |
| ReceiverLoop.Receiver.Admit | src/receiver/receiver.cpp:131-145 | the detector's verdict is counted and its memory updated |
| ReceiverLoop.Receiver.HandlePacket | src/receiver/receiver.cpp:131-162 | a decoded packet is checked, counted and delivered as specified |
| ReceiverLoop.Receiver.Step | src/receiver/receiver.cpp:108-163 | one iteration on a mapped ring is one iteration of the specification |
| ReceiverLoop.Receiver.Run | src/receiver/receiver.cpp:102-167 | a whole run on a mapped ring, buffer and 64-bit counters is the specified run, closing egress on every way out |
| ReceiverLoop.Receiver.Moved | src/receiver/receiver.cpp:82-92 | detector memory, counters and ring move over, and the source is stopped |
| ReceiverTheorems.ReceiverRecord | src/receiver/receiver.cpp:108-163 | over any number of runs the counters balance, and missed plus accepted packets equal the detector's mark |
| ReceiverTheorems.IterateKeeps | src/receiver/receiver.cpp:108-163 | one iteration keeps the accounting and the origin of every egress event |
| ReceiverTheorems.RunKeeps | src/receiver/receiver.cpp:102-167 | a run keeps them too and leaves egress closed |
| ReceiverTheorems.StatusesCover | src/reliability/gap_detector.cpp:4-24 | every checked packet is counted under exactly one status |
| ReceiverProgress.TurnEnds | src/receiver/receiver.cpp:108-163 | a turn ends a run if and only if the socket breaks or a new packet meets a closed egress; silence, malformed and oversized datagrams, repeats, foreign sessions, a full ring and a too large event never do |
| ReceiverProgress.FewerThanNumbers | src/receiver/receiver.cpp:147-149 | egress never runs out of cursor values: it holds no more events than sequence numbers passed |
| ReceiverProgress.ReceiverIsFilter | src/receiver/receiver.cpp:102-167 | on an open egress, for every script without a socket error, a run ends only when told to, reads exactly the datagrams delivered, and puts into egress, in order, exactly the events of the new packets that meet room; the three egress counters tell the answers apart |
| ReceiverProgress.TurnsWent | src/receiver/receiver.cpp:108-163 | the same turn by turn, with the exact sequence of operations on egress |
| ReceiverProgress.SocketErrorEnds | src/receiver/receiver.cpp:120-122 | the first socket error ends the run there and then, is counted, and closes egress |
| ReceiverProgress.DrainIsRun | include/shm/spsc_ring.hpp:170-226 | what the egress consumer does at each point is that run of acquisitions and releases |
| EndToEnd.DeliveryIsSubsequence | src/receiver/receiver.cpp:102-167 | for any loss, repetition, delay and reordering, and any other traffic, egress under the pinned session is a subsequence of ingress, in order, never repeated, never invented, byte for byte |
| EndToEnd.LosslessDeliveryIsComplete | src/sender/sender.cpp:124-159 | if one destination's datagrams arrive once and in order and egress refuses none, egress is exactly the encodable ingress events with no gap reported |
| EndToEnd.InOrderRun | src/receiver/receiver.cpp:124-163 | a gapless run of packets that egress accepts is delivered whole |
| EndToEnd.OfferedIsNumbered | src/sender/sender.cpp:125-144 | whatever an offered datagram decodes to is the ingress event that its number was given to |
| EndToEnd.OfferedReads | src/sender/sender.cpp:125-144 | any offered datagram decodes, to a packet number and the ingress event that number was given to |
| EndToEnd.HeardArrived | src/receiver/receiver.cpp:109-125 | everything the receiver has read was delivered by the socket |
| EndToEnd.RelayingIsNoForgery | src/receiver/receiver.cpp:109-125 | a network that delivers only what was offered forges nothing |
| Session.Relay | src/receiver/receiver.cpp:102-167 | the two objects over two mapped rings: what egress holds is a subsequence of what was published to ingress |

## Left out

- Sockets, polling and address parsing: replaced by arbitrary send results and an arbitrary receive stream.
- Opening, mapping and unlinking shared memory: a segment is a byte array of a given size that stays mapped.
- Random session and instance identifiers: assumed nonzero, distinct for distinct senders (`NoForgery`).
- The 128-byte alignment of a mapping is one boolean of `Segment`; cache-line placement is not modelled.
- Batches, NACK, retransmission and ordered recovery: documented, but the code rejects batches and has no such code.
- Configuration validation in `Sender::initialize` and `Receiver::initialize`; only the datagram limits remain.
- Waiting times (10 ms poll, 1 ms sleep) and fairness: an iteration that saw nothing is one turn of a script.
- Misuse outside the stated contract: two producers, two live consumers, closing during a publish, foreign writes.
- The destructor of the receiver, which closes and unlinks; closing is `ClosePublication`.
- Statistics fields that no modelled code changes (NACK, retransmission, recovery, ingress_full).
- Runs of the loops that never end: scripts are finite, of any length.
- The header of a mapping is a set of typed fields next to the slot bytes, not bytes at offsets; only slot bytes are an array.
- Codec.EncodeData: a payload that lies in the output buffer where the header is written, or where the payload copy would start inside it, is not covered; the copy is undefined or reads overwritten bytes there.
- Ring.SpscRing.TryPublish: a payload that overlaps the slot header about to be written, or inside which the copy would start, is not covered, for the same reason; `RingRuns.HeldViewMayPublish` shows that a held view never does.
- SenderLoop.Sender.Run: calls on the ring are atomic here and the producer acts between the sender's calls and before every send; accesses that interleave inside a call are the subject of `RingSteps`, and `RingRefinement.ConsumerRefinesQueue` shows that they leave the consumer the answers of some run with whole calls.
- ReceiverLoop.Receiver.Run: the same, with the egress consumer acting between the receiver's calls and `RingRefinement.ProducerRefinesQueue` for the producing side.
