# Cadence in Dafny

A model of the Cadence messaging system and proofs about it: the lock-free
single-producer single-consumer ring, the publish/subscribe bus, the three log
writers, and the byte codecs they share.

`dafny verify dfyconfig.toml` checks everything.

| file | content |
|---|---|
| `Common.dfy` | options, results and associativity |
| `Words.dfy` | machine words, masks, shifts and wrap-around |
| `SpscProtocol.dfy` | the ring as atomic steps with event logs and happens-before |
| `SpscInvariant.dfy` | its inductive invariant |
| `SpscRefinement.dfy` | bounded-FIFO refinement, race freedom, exactly-once |
| `SpscUnbounded.dfy` | wrapping cursors refine unbounded counters |
| `SpscProgress.dfy` | blocking send/recv: completion and bounded waits |
| `SpscHarness.dfy` | the throughput harness with its done flag |
| `SpscRing.dfy` | `try_send`, `try_recv`, `Drop` as a class over a slot array |
| `MessageCodec.dfy` | UTF-8 validity, the 64-byte record, topic and payload views |
| `Routing.dfy` | filters |
| `BusProtocol.dfy`, `BusTheorems.dfy` | the bus as steps; its theorems over runs |
| `BusOutcomes.dfy` | what the counts of an offer mean |
| `BusLifetimes.dfy` | what subscribing, unsubscribing, receiving and disconnecting mean |
| `BusState.dfy` | the bus as a class |
| `LogFile.dfy`, `LogWriters.dfy`, `LogRuns.dfy` | file model, the writers, whole runs |
| `Base64.dfy` | the encoder against section 4 of RFC 4648 |

## How the ring is modelled

One machine serves both memory models. Each actor has a program counter and a log
of its events; an acquire load may return any store of the other cursor that is
not older than the one the actor read last, and a slot read may return any write
that is not hidden by a later write which happens before the read, or uninitialised
memory if no write happens before it. Happens-before is the transitive closure of
program order and release/acquire edges. A run is sequentially consistent when every
cursor load returns the latest store. In other runs a call may be refused although the
ring is no longer full or empty (`RefusalMayBeSpurious`); a refusal is exact exactly when
its load returned the latest store (`RefusalExactly`). Word size and capacity are `2^w` and `2^k`
with `k < w`.

The methods take `&self`, so the types alone do not stop two threads from being
inside `try_send` at once. The model assumes at most one actor inside `try_send` and
one inside `try_recv`, as the safety comment on the shared state does.

The kernel side of the writers is a contract: a group of positioned writes completes
in any order, a non-negative completion means the full length was written, and a
failed one may have written any first part of its own range. The code tests results
only for being negative, so the second clause is an assumption it relies on. The file
counts the failures that the kernel has reported and the calls made to it, so that the
writers' error returns and system-call counts are stated exactly.

## What turned out not to hold

- The done-flag harness may stop with messages left in the ring. It is sure to receive
  everything exactly when the input is empty (`ReceivesAllExactly`); for any other
  input, word size and capacity it can stop with `n` values received for every `n` that
  leaves at most a capacity, and for no other (`StoppedOutcomes`). A stopped run received
  everything exactly when its last head load before the flag had read the producer's
  final store (`StoppedHarness`).
- The io_uring writers start at offset 0 and do not truncate, so on a non-empty file
  they overwrite; a whole run on a file is an append exactly when the file was empty or
  nothing is written (`RunOnExisting`, `OverwriteIsAppend`).
- The registered-buffer writer casts the chunk length to 32 bits; under the contract
  above, by which a non-negative completion is no short write, a batch is appended in
  full exactly when its largest chunk is below 4 GiB (`FixedStreamExact`).
- A topic cut at 32 bytes in the middle of a character reads back as empty
  (`TopicLostOnlyByCut`), and a payload reads back as given exactly when it fits and
  does not end in a zero byte (`PayloadOfNew`).

## Model

| member | source | states |
|---|---|---|
| `Words.MaskIsMod` | crates/bus/src/spsc.rs:55-56 | masking with capacity minus one is the remainder by the capacity, for every word and every power of two |
| `SpscInvariant.FullIsExact` | crates/bus/src/spsc.rs:111-113 | the wrapped full test holds exactly when the true counts differ by the capacity |
| `SpscInvariant.EmptyIsExact` | crates/bus/src/spsc.rs:154-156 | wrapped cursors are equal exactly when the true counts are |
| `SpscInvariant.SlotIndex` | crates/bus/src/spsc.rs:116-117 | the masked wrapped cursor is the true position modulo the capacity |
| `SpscInvariant.StepKeeps` | crates/bus/src/spsc.rs:106-165 | each load, slot access and store of either actor, with any admissible stale read, keeps the invariant |
| `SpscInvariant.ReadIsForced` | crates/bus/src/spsc.rs:158-161 | a slot read can return one value only, the next one sent, which is also what the slot array holds; no stale, repeated or uninitialised value is visible |
| `SpscRefinement.StepIsFifo` | crates/bus/src/spsc.rs:106-165 | a step is a bounded-FIFO step: success takes effect at the cursor store, refusal at the load of the other cursor, and a refusal on the latest store is exact |
| `SpscRefinement.RefusalExactly` | crates/bus/src/spsc.rs:106-156 | a refused send has found the queue at capacity, and a refused receive has found it empty, exactly when its load read the latest store |
| `SpscRefinement.RefusalMayBeSpurious` | crates/bus/src/spsc.rs:149-156 | for every word size and capacity a run in which a receive is refused although a value has been sent |
| `SpscRefinement.RingIsFifo` | crates/bus/src/spsc.rs:106-165 | every interleaving from the empty ring is a run of an atomic bounded FIFO whose enqueued and dequeued values are those `try_send` accepted and `try_recv` returned |
| `SpscRefinement.ConsistentRingIsExact` | crates/bus/src/spsc.rs:106-165 | every sequentially consistent run from the empty ring is a run of an exact bounded FIFO: a send is refused only with the queue at capacity, a receive only with it empty |
| `SpscRefinement.SlotAccessesOrdered` | crates/bus/src/spsc.rs:59-64 | a read of a slot comes after the write it reads, and an overwrite after the read it replaces, in happens-before |
| `SpscRefinement.NoRaces` | crates/bus/src/spsc.rs:59-64 | in every reachable state any write and read of the same slot are ordered by happens-before |
| `SpscRefinement.ExactlyOnce` | crates/bus/src/spsc.rs:106-122 | in every reachable state received values are the first sent ones in order, the rest sit in their own slots, at most a capacity of them, and a pending write hits no unread slot |
| `SpscRefinement.WrappedTestsExact` | crates/bus/src/spsc.rs:107-113 | in every reachable state, for every store a load may read, the wrapped tests decide the true counts |
| `SpscUnbounded.RunUnwraps` | crates/bus/src/spsc.rs:81-98 | every run of the wrapping machine, through any number of wraps, is a run of the machine with unbounded counters with the same steps and values |
| `SpscProgress.NeverStuck` | crates/bus/src/spsc.rs:126-139 | from any state of any blocking run, four steps per outstanding operation finish the job with received equal to sent, each load reading the latest store |
| `SpscProgress.BlockingCompletes` | crates/bus/src/spsc.rs:126-177 | any prefix of a run of N blocking sends and receives can be completed |
| `SpscProgress.NotBothRefused` | crates/bus/src/spsc.rs:169-177 | in a stretch without success, an exact full and an exact empty never both occur |
| `SpscProgress.StalledStep` | crates/bus/src/spsc.rs:106-177 | with latest loads, a step that completes nothing advances its actor by one phase or is an exact refusal |
| `SpscProgress.WindowSucceeds` | crates/bus/src/spsc.rs:126-177 | a stretch of a blocking run with latest loads, in which each actor not through takes four steps in any interleaving, completes a send or a receive |
| `SpscProgress.WaitsAreBounded` | crates/bus/src/spsc.rs:126-177 | any blocking run of 2N such stretches has sent and received all N values in order |
| `SpscHarness.StoppedHarness` | crates/bench/src/main.rs:242-263 | a stopped consumer holds a prefix of the input, at most a capacity is left, and nothing is left exactly when its last head load read the final store |
| `SpscHarness.StoppedOutcomes` | crates/bench/src/main.rs:242-263 | the harness can stop with n values received exactly when n leaves at most a capacity of the input, for every input, word size and capacity |
| `SpscHarness.ReceivesAllExactly` | crates/bench/src/main.rs:242-263 | every stopped run has received everything exactly when the input is empty |
| `SpscHarness.HarnessCanFinish` | crates/bench/src/main.rs:242-263 | from every state of every run the harness can still stop, and unless it has stopped already, with everything received: a false flag sends the consumer back to draining |
| `SpscRing.Ring.constructor` | crates/bus/src/spsc.rs:91-97 | a new ring is valid and empty |
| `SpscRing.Spsc` | crates/bus/src/spsc.rs:81-98 | a ring is built exactly for power-of-two capacities, and is empty |
| `SpscRing.Ring.TrySend` | crates/bus/src/spsc.rs:106-122 | an uninterrupted send is an enqueue, or an exact refusal that returns the value and changes nothing |
| `SpscRing.Ring.TryRecv` | crates/bus/src/spsc.rs:149-165 | an uninterrupted receive is a dequeue, or an exact empty report that changes nothing |
| `SpscRing.Ring.AfterRun` | crates/bus/src/spsc.rs:184-187 | after any run with both actors between calls, the cursors and slots are a ring holding the queued values |
| `SpscRing.Ring.Drop` | crates/bus/src/spsc.rs:184-194 | drops each unread value once, in order, in as many rounds as there are values, across a wrap |
| `SpscRing.RunThenDrop` | crates/bus/src/spsc.rs:106-194 | after any run that ends between calls, the received values followed by those `Drop` drops are the sent ones, one round per unread value |
| `Utf8.PrefixValid` | crates/message-core/src/lib.rs:37-40 | cutting valid UTF-8 leaves valid UTF-8 exactly at character boundaries |
| `Utf8.ValidExactly` | crates/message-core/src/lib.rs:37-40 | the byte test accepts exactly the encodings of sequences of Unicode scalar values |
| `MessageCodec.NewMessage` | crates/message-core/src/lib.rs:21-35 | the timestamp is 0, and byte i of the topic and payload arrays is byte i of what was given, or 0 beyond its end |
| `MessageCodec.Encode` | crates/message-core/src/lib.rs:48-54 | the in-place record has, byte by byte, the timestamp's digits from the least significant one at 0, the topic at 8 and the payload at 40 |
| `MessageCodec.RecordLayout` | crates/message-core/src/lib.rs:48-54 | the record used by the codec and the logs has that layout, for every message |
| `MessageCodec.DecodeEncode` | crates/message-core/src/lib.rs:48-64 | decoding undoes encoding for every message |
| `MessageCodec.EncodeDecode` | crates/message-core/src/lib.rs:57-64 | encoding undoes decoding for every 64-byte record |
| `MessageCodec.TopicOfNew` | crates/message-core/src/lib.rs:37-40 | the topic view is the text up to its first NUL or 32 bytes, or empty when that cut splits a character |
| `MessageCodec.TopicLostOnlyByCut` | crates/message-core/src/lib.rs:37-40 | the view differs from that prefix exactly when byte 32 continues a character and no NUL comes before it |
| `MessageCodec.PayloadRebuilds` | crates/message-core/src/lib.rs:42-45 | a message rebuilt from its payload view has the same payload array |
| `MessageCodec.PayloadOfNew` | crates/message-core/src/lib.rs:26-45 | the payload view returns what was given exactly when it fits and does not end in zero |
| `Routing.MatchesIsSelects` | crates/bus/src/lib.rs:36-49 | a parsed pattern matches a topic exactly when it is the topic, or a prefix of it followed by `*` |
| `Routing.RoutesByRule` | crates/bus/src/lib.rs:36-49 | for a NUL-free topic of at most 32 bytes the bus matches exactly the patterns that are the topic, or a prefix of it followed by `*` |
| `Routing.RoutesByStoredTopic` | crates/bus/src/lib.rs:117-123 | for any topic the rule applies to what the record stores of it |
| `Routing.LongPatternNeverMatches` | crates/bus/src/lib.rs:44-49 | a pattern whose literal part exceeds 32 bytes matches no message |
| `BusProtocol.StepKeeps` | crates/bus/src/lib.rs:91-136 | every bus step keeps the invariant: bounded queues, deliveries in lock order, and the drop accounts |
| `BusTheorems.CommonOrder` | crates/bus/src/lib.rs:118-133 | in every run deliveries matched their filter, are in lock order and unrepeated, queues are bounded, and two subscribers agree on the order of common messages |
| `BusOutcomes.ResultsCountSends` | crates/bus/src/lib.rs:115-136 | in every run an offer returns as `sent` the number of its sends that found a connected receiver with room, and as `dropped` the number that found a connected receiver full; disconnected ones are in neither |
| `BusOutcomes.DropAccounting` | crates/bus/src/lib.rs:106-136 | at every moment the drop counter is the number of sends that found a connected receiver full, and between offers the sum of `dropped` results, modulo the word; sent, dropped and disconnected add up to the matching subscriptions |
| `BusTheorems.EveryOfferGivesTurn` | crates/bus/src/lib.rs:118-133 | over any stretch of any run, the offers a subscriber is tried for are all those settled meanwhile, each once and in lock order |
| `BusTheorems.DeliveredIsOffered` | crates/bus/src/lib.rs:118-133 | over that stretch a live receiver's taken and queued messages grow by exactly the messages offered meanwhile that match and found room at their turn |
| `BusTheorems.NothingLostWithRoom` | crates/bus/src/lib.rs:118-133 | if no turn found the queue full, they grow by exactly the offers that match |
| `BusLifetimes.SubscribedExactly` | crates/bus/src/lib.rs:91-103 | over any run a subscription is there, with its filter, exactly as long as it has not itself been unsubscribed |
| `BusLifetimes.UnsubscribeSilences` | crates/bus/src/lib.rs:101-103 | after an unsubscribe, whatever follows, the subscriber is out for good and gets no turn and no message, while its receiver stays connected and keeps what was queued |
| `BusLifetimes.DisconnectSilences` | crates/bus/src/lib.rs:124-131 | after a receiver disconnects, whatever follows, it holds what it had taken and nothing is queued for it |
| `BusLifetimes.ReceivesCount` | crates/bus/src/lib.rs:91-98 | over any run a receiver takes one message with each receive, and keeps those it had |
| `BusState.NewSubscriberReceives` | crates/bus/src/lib.rs:91-136 | from any state, a subscription followed by an offer leaves exactly that message queued if the topic matches, and nothing otherwise |
| `BusState.PublishedReachesSelected` | crates/bus/src/lib.rs:36-49 | from a topic text to a queue: publishing under a NUL-free topic of at most 32 bytes, at any time, reaches a new subscriber exactly when its pattern selects the topic |
| `BusTheorems.SubscriberIsolation` | crates/bus/src/lib.rs:91-136 | projecting any run onto one subscriber is a run of a bus with only that subscriber, ending with the same channel |
| `BusTheorems.DrainIsServed` | crates/bus/src/lib.rs:119-133 | an uninterrupted offer has the closed form that serves the set of subscribers at once |
| `BusTheorems.OrderIrrelevant` | crates/bus/src/lib.rs:122 | two iteration orders over the map end in the same state and result |
| `BusState.BusObject.constructor` | crates/bus/src/lib.rs:79-88 | a new bus is the initial state |
| `BusState.BusObject.Subscribe` | crates/bus/src/lib.rs:91-98 | adds the parsed filter and an empty channel under an id never used before |
| `BusState.BusObject.Unsubscribe` | crates/bus/src/lib.rs:101-103 | removes that subscription alone and leaves every channel |
| `BusState.BusObject.FanOut` | crates/bus/src/lib.rs:119-133 | the loop, in any order, appends the message to the queues of the matching connected subscribers with room and to no other, returns their number and the number of those that are full, and adds the latter to the drop counter |
| `BusState.BusObject.Offer` | crates/bus/src/lib.rs:111-136 | the whole effect of one atomic offer of the stamped message: `sent` counts the matching connected subscribers with room, `dropped` those that are full, the disconnected are in neither, and nothing else changes |
| `BusState.BusObject.Publish` | crates/bus/src/lib.rs:139-141 | the same offer, returning the number of matching connected subscribers with room |
| `LogFile.RecordDecodes` | crates/persist/src/lib.rs:5-8 | bytes 64i to 64i+64 of a log are laid out as the i-th message and decode to it |
| `LogFile.LandedStep` | crates/persist/src/lib.rs:126-150 | one more completion, full or partial, in any order, touches nothing outside its own range |
| `LogFile.AllLanded` | crates/persist/src/lib.rs:121-154 | when all writes of a chunk have completed, in any order, the effect is one write of the concatenated records |
| `LogFile.OverwriteIsAppend` | crates/persist/src/lib.rs:109-113 | writing from offset 0 is appending exactly when the file was empty or nothing is written |
| `LogWriters.Complete` | crates/persist/src/lib.rs:142-150 | a submitted chunk completes in any order; without a negative result every record has landed |
| `LogWriters.UringWriter.WriteChunk` | crates/persist/src/lib.rs:121-154 | the queue never overfills; one submission; it fails exactly when the kernel reports a failure; success appends the chunk at `offset`, an error leaves offset and all bytes below it |
| `LogWriters.UringWriter.WriteBatch` | crates/persist/src/lib.rs:117-157 | success, which is exactly the absence of a kernel failure, appends the batch in one submission per chunk of the ring depth; an error leaves exactly the records of the whole chunks before it below `offset` |
| `LogWriters.ChunksIsCeiling` | crates/persist/src/lib.rs:117-121 | the number of chunks, and so of system calls, is the number of messages divided by the chunk size, rounded up |
| `LogWriters.UringFixedWriter.Pack` | crates/persist/src/lib.rs:219-222 | the front of the reused buffer holds the chunk's records, stale bytes behind it are kept |
| `LogWriters.UringFixedWriter.WriteBatch` | crates/persist/src/lib.rs:215-255 | success, which is exactly the absence of a kernel failure, appends the batch's stream, without stale bytes, in one submission per chunk; an error leaves the stream of whole chunks below `offset` |
| `LogWriters.FixedStreamExact` | crates/persist/src/lib.rs:218-226 | that stream is all the records exactly when the largest chunk is below 4 GiB |
| `LogWriters.StdWriter.WriteBatch` | crates/persist/src/lib.rs:67-73 | success, which is exactly the absence of a failed write, leaves the buffer empty with all records written, in one call per 8192 records or part of them; on error written plus buffered bytes grow by whole records |
| `LogRuns.WriteAll` | crates/persist/src/lib.rs:41-47 | any of the writers, for any batches and chunk sizes, leaves the records of all messages in order, unless the kernel reports a failure, which it always passes on |
| `LogRuns.RunOnExisting` | crates/persist/src/lib.rs:109-157 | a whole run of a newly opened io_uring writer lays the records over the start of the file, an append exactly when the file was empty or nothing is written |
| `LogRuns.TimeWriter` | crates/bench/src/persist_verify.rs:91-116 | it panics exactly when the kernel reports a failure; otherwise the total is the least multiple of the batch size reaching the count and all bytes are durable; at every exit the completed rounds are in the file, and in per-batch mode exactly they are durable once there is one |
| `LogRuns.BenchBatchAt` | crates/bench/src/persist_verify.rs:97-99 | message i of a batch has the benchmark's topic and the number i in its payload |
| `Base64.Base64Encode` | crates/bench/src/main.rs:345-359 | the table and shifts compute the base64 encoding of the input |
| `Base64.QuantumIsNumber` | crates/bench/src/main.rs:349-356 | four characters are the base-64 digits, most significant first, of the number that their bytes form |
| `Base64.Vectors` | crates/bench/src/main.rs:345-359 | the encodings of test vectors of RFC 4648 |
| `Base64.LastLetters` | crates/bench/src/main.rs:346 | the last two letters of the table are `+` and `/` |
| `Base64.DecodeEncode` | crates/bench/src/main.rs:345-359 | a strict decoder inverts the encoder on every byte sequence |
| `Base64.EncodeDecode` | crates/bench/src/main.rs:345-359 | the decoder accepts nothing but encodings |
| `Base64.Injective` | crates/bench/src/main.rs:345-359 | different inputs have different encodings |
| `Base64.EncodeLength` | crates/bench/src/main.rs:347 | the output has four characters per started group of three bytes |
| `Base64.Padding` | crates/bench/src/main.rs:355-356 | padding is exactly the last `(3 - n % 3) % 3` characters |

## Left out

- Timing, histograms, core pinning, environment capture, JSON and SVG output: measurement and formatting without a hard property.
- `median`, `iqr`, `median_f64` and the second copy of the base64 encoder: easy or duplicate.
- The internals of crossbeam-channel, `BufWriter`, io_uring and libc: modelled by contracts.
- A bus of capacity 0, mutex poisoning, and more than 2^64 subscriptions.
- Timestamp order of deliveries: the timestamp is taken before the lock, so none is claimed.
- Cache padding, alignment and spin or yield hints: both wait strategies are no step at all.
- Fairness: a scheduler that never runs an actor, or a memory system that serves stale cursors for ever, can starve a blocking call; `WaitsAreBounded` is about runs that give both actors steps and read the latest cursors.
- Short writes reported as success, and use of an io_uring writer after an error: excluded by the kernel contract and the `Clean` precondition.
- TimeWriter: takes a positive batch size unless the count is zero, because the loop otherwise never ends.
- File offsets beyond 2^64, and ring setup or buffer registration failures at creation.
- Store-buffering and out-of-thin-air behaviour of relaxed atomics: the only relaxed accesses are an actor's reads of its own cursor and of the done flag.
- crates/cli: a smoke demo.
