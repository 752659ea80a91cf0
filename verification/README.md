# Proofs about channels, rings and the logger

A Dafny model of the lock-free channels, the ring buffer with its rolling
statistics, and the logger built on them, with proofs of the properties their
documentation promises. `dafny verify dfyconfig.toml` checks everything.

## How the models are built

**Channels.** Each channel is first a transition system (`Mpsc`, `Snapshot`,
`Vyukov`, `Spsc`): one step per atomic operation or free, any number of
producers where there may be any number, any capacity. A producer of the model is one
thread using a handle: it has one operation under way at a time, and threads that
share a handle are several producers, the last of which drops it. Logs and
histories record what became of each ticket or publication. An inductive invariant
is kept by every step (`MpscSafety`, `SnapshotSafety`), and the theorems say what it
means for a user. Then the operations are written as the program has them, as methods
with their loops on a shared object (`MpscProducer`, `MpscConsumer`,
`MpscHandles`, `SnapshotReader`, `SnapshotWriter`, `VyukovQueue`, `SpscQueue`).
Between any two atomic operations the other threads run: what they still do is
an arbitrary sequence `future`, so each contract holds in every interleaving and
each loop ends whatever they do. An operation that needs a past moment, such as
the load that found no credit, returns the state of that moment as a ghost
result.

- *Ticket ring.* The consumer's recycle store may land after its credit does
  (`late` in a cell), the reason the code gives for its spins. Waiting before an
  abandon is shown to be needed: `AbandonWithoutWaiting` says exactly when it is not.
- *Snapshot channel.* The heap is explicit and a freed address may be allocated
  again, so memory safety does not rest on addresses being new. A publish is the
  exchange and, later, the move of the writer's own pointer.
- *Compare-and-swap ring.* The weak exchange may fail without a reason.
- *SPSC ring.* The buffer is an array; the two block copies are done in place and
  proved equal to the masked loop.

`MpscExamples` runs the ticket ring through two particular sequences of operations.

Counters are unbounded in the states. Where the program compares or masks
machine words the model does too, on their values modulo 2^64; `Words` says when
that loses nothing. The steps are the reference the methods are proved against.

**Ring buffer.** `RingCursor` and `RingBuffer` are classes over an array of
optional values, so that which slots are initialised is part of the state. The
reference is a plain bounded deque, `Apply`.

**Statistics.** `Moments` defines sums, mean and variance over a window of
reals. The integer accumulator has any range `[lo, hi]` with `lo == 0` or
`lo == -hi - 1`, saturates as the code does, and is compared with recomputing
over the window; Welford's recurrence is compared with the definitions.

**Logger.** `LogWorker` runs on the proved ticket ring while senders push, close
and drop their handles. `FileManager` and `LogFile` are driven by arbitrary
answers of the system. `CivilDate` compares the date arithmetic with a calendar
that only knows how to step to the next day, and `LogReader` reads a line by its
layout.

## Where the code and its documentation differ

- `checked_physical_index` (crates/ring_buffer/src/ring_cursor.rs:84-88) takes its
  sum to be cheap and without a side effect. It is computed before the test, so
  in a build with overflow checks an index from 2^64 - head on panics where
  `None` is documented. `OverflowingPeek` is such a ring, `CheckedPhysicalIndex`
  gives the exact condition. Live elements are never affected.
- `LogMessage::len` (crates/logger/src/message.rs:76-85) counts a year as four
  digits; from the year 10000 on, which `YearTenThousand` dates, it is too short
  (`LenIsExact`, `TooLongForItsLength`), and the buffer can reach its capacity
  (`LateYearFillsBuffer`, `BufferDoesFill`).
- The year of `unix_secs_to_utc` is narrowed to 32 bits: `UtcIsRight` shows it right
  exactly before second 135536014634284800, where `YearLeavesU32` shows it wrong.
- A second `shutdown` of the file manager hands nothing over
  (crates/logger/src/file_manager.rs:359-367), so what is written after the first
  one, as by the drop of the worker, can stay in the buffer: `SecondShutdown`.
- `Busy` (crates/channel/src/mpsc/queue.rs:374-377) is documented as a reserved head
  slot. Skipping holes can carry the head past the cached tail, and then `Busy` is
  answered with nothing reserved, at every further poll until a ticket is reserved:
  `BusyWithNothingReserved` is a run. `PopInner` gives the exact condition: after
  the call, nothing ahead and the cached tail below the head; before it, if nobody
  else runs, only holes ahead and the cached tail neither at the head nor at the tail.
  With anything else ahead `Busy` does mean a reserved head.

## Model

| member | source | states |
|---|---|---|
| `MpscSafety.StepInv` | crates/channel/src/mpsc/queue.rs:158-285 | every atomic step of every producer and of the consumer, recycle stores landing late included, keeps slots, tickets, credits, holders and histories consistent |
| `MpscTheorems.NoFault` | crates/channel/src/mpsc/queue.rs:8-19 | in no interleaving is an unwritten slot read or an unread value overwritten, for any number of producers and any capacity |
| `MpscTheorems.SlotOwnership` | crates/channel/src/mpsc/queue.rs:8-19 | each ticket of the window is free, held by exactly one producer, published with exactly its value, a hole, or just being consumed; the sequence number says which, or the recycle of the lap before is still late |
| `MpscTheorems.LateStoreIsHarmless` | crates/channel/src/mpsc/queue.rs:158-195 | a late recycle store lands only on the consumed publication it replaces: never on a publication or an abandon |
| `MpscTheorems.OneLateStorePerCell` | crates/channel/src/mpsc/queue.rs:450-464 | when the consumer recycles a cell no older recycle of that cell is outstanding |
| `MpscTheorems.SpinOnlyWaitsForLateStore` | crates/channel/src/mpsc/queue.rs:161-169 | the spin on the sequence number repeats exactly while the recycle store of that cell is late |
| `MpscTheorems.NeverWaits` | crates/channel/src/mpsc/queue.rs:161-169 | in every run whose recycle stores all land at once no store is ever late, so a producer at the spin leaves it with its next load |
| `MpscTheorems.AbandonWithoutWaiting` | crates/channel/src/mpsc/queue.rs:179-195 | without the wait, abandoning keeps the invariant if and only if the recycle store of that cell is not late; a late one overwrites the abandon and the cell stays at its old ticket |
| `MpscExamples.WaitIsNeeded` | crates/channel/src/mpsc/queue.rs:183-187 | such a state is reached: a producer about to abandon ticket 2 while the recycle store of ticket 0 is outstanding |
| `MpscTheorems.CreditConservation` | crates/channel/src/mpsc/queue.rs:197-208 | counter, unrefunded debits, grants without a ticket, tickets ahead of the consumer and the credit it owes always add up to the capacity; so the queue is bounded although the counter goes below zero |
| `MpscTheorems.RefusedExactlyWhen` | crates/channel/src/mpsc/queue.rs:197-208 | the load of the counter refuses exactly when the unrefunded debits of others cover all that is really free: a refusal is spurious only while others race |
| `MpscTheorems.GrantedExactly` | crates/channel/src/mpsc/queue.rs:203-207 | the debit that follows grants what is really free less those debits: nothing if that is nothing, all of it if it is less than wanted, and otherwise all that is wanted; the rest is owed back |
| `MpscTheorems.FifoExactlyOnce` | crates/channel/src/mpsc/queue.rs:450-492 | what was handed out is the published values of the tickets behind the head, in ticket order, holes omitted, each once |
| `MpscTheorems.ProducerOrder` | crates/channel/src/mpsc/queue.rs:217-229 | what was consumed of one producer is a prefix of what it published |
| `MpscTheorems.RunIsContiguous` | crates/channel/src/mpsc/queue.rs:240-285 | a run under way is settled as its iterator yielded, ticket by ticket, pending from there on, and nobody else's |
| `MpscTheorems.NoProducerLeft` | crates/channel/src/mpsc/queue.rs:104-111 | once the last handle is gone nothing is pending and no step adds or changes a ticket |
| `MpscTheorems.ClosedByDrop` | crates/channel/src/mpsc/queue.rs:104-111 | closed without an explicit close means that every producer is gone or closing, nothing is pending, and no step adds a ticket or a producer any more |
| `MpscTheorems.LastDropCloses` | crates/channel/src/mpsc/queue.rs:104-111 | with no handle left the channel is closed, or the thread that dropped the last one closes it with its next step; with nobody in that step, closed exactly when asked for or all handles are gone |
| `MpscTheorems.StepLater` | crates/channel/src/mpsc/queue.rs:158-464 | tickets settle once and for all, histories only grow, in every step |
| `MpscHandles.Channel.Drop` | crates/channel/src/mpsc/queue.rs:118-135 | the scan over the last N wrapping tickets drops exactly the published and unconsumed values; with what was delivered they are all that was ever published |
| `MpscHandles.ScanCells` | crates/channel/src/mpsc/queue.rs:122-133 | the scan loop on machine words, counters wrapped or below N included, equals the unread tickets in order and leaves no slot initialised |
| `MpscHandles.DeliveredOrDropped` | crates/channel/src/mpsc/queue.rs:118-135 | delivered and unread values together are the published ones, in order |
| `MpscProducer.Producer.AwaitCell` | crates/channel/src/mpsc/queue.rs:164-169 | the spin ends, at the latest when the awaited recycle store lands |
| `MpscProducer.Producer.WriteCell` | crates/channel/src/mpsc/queue.rs:158-177 | waits, writes and publishes exactly the next item in the ticket, whatever runs in between |
| `MpscProducer.Producer.AbandonCell` | crates/channel/src/mpsc/queue.rs:179-195 | waits, then leaves a hole in exactly that ticket |
| `MpscProducer.Producer.TryReserve` | crates/channel/src/mpsc/queue.rs:197-208 | takes a credit if and only if the counter was above zero at the load or the debit that decided; otherwise nothing is kept |
| `MpscProducer.Producer.Push` | crates/channel/src/mpsc/queue.rs:217-229 | publishes the value in a ticket reserved during the call, or hands it back on a closed channel or with the counter seen at zero or below |
| `MpscProducer.Producer.ReserveRun` | crates/channel/src/mpsc/queue.rs:254-263 | the grant is nothing at or below zero, the counter seen at the debit if that is less than wanted, otherwise all that is wanted; the rest is refunded |
| `MpscProducer.Producer.PushIter` | crates/channel/src/mpsc/queue.rs:240-285 | exactly the first items, in consecutive tickets reserved during the call: no more than promised, than the capacity and than the credits seen, and fewer than yielded only by one of these; the granted tickets the iterator left are holes |
| `MpscProducer.Producer.FillItems` | crates/channel/src/mpsc/queue.rs:273-281 | the fill loop publishes a prefix of the items in ticket order until the run or the iterator ends |
| `MpscProducer.Producer.AbandonRest` | crates/channel/src/mpsc/queue.rs:360-366 | the guard turns every ticket the iterator left into a hole |
| `MpscProducer.Producer.Clone` | crates/channel/src/mpsc/queue.rs:335-342 | one live handle more, on the same ring, with nothing published |
| `MpscProducer.Producer.Drop` | crates/channel/src/mpsc/queue.rs:343-347 | one live handle less; the last one, and only it, leaves the channel closed |
| `MpscProducer.Producer.Close` | crates/channel/src/mpsc/queue.rs:329-333 | closed for every handle from here on, whatever the handle was doing |
| `MpscConsumer.Consumer.Close` | crates/channel/src/mpsc/queue.rs:566-569 | closed from here on; what is queued stays, also when the consumer is dropped |
| `MpscConsumer.Consumer.HeadState` | crates/channel/src/mpsc/queue.rs:418-438 | published, abandoned and pending are exact at the last load; pending takes exactly 130 loads |
| `MpscConsumer.Consumer.SkipAbandoned` | crates/channel/src/mpsc/queue.rs:440-448 | passes holes only, in ticket order, one credit each, and hands out nothing |
| `MpscConsumer.Consumer.UpdateStateAfterPop` | crates/channel/src/mpsc/queue.rs:459-464 | recycle, advance, credit: the value handed out is that of the head ticket |
| `MpscConsumer.Consumer.CheckIfEmpty` | crates/channel/src/mpsc/queue.rs:466-474 | an answer of empty leaves head, cached tail and tail equal; the tail is loaded exactly when the head has met its copy |
| `MpscConsumer.Consumer.PopInner` | crates/channel/src/mpsc/queue.rs:476-492 | a value is that of the next published ticket; empty is exact; busy means a reserved head, or nothing ahead and the head past the cached tail; on a quiet channel the first ticket ahead that is not a hole decides before the call: a value if and only if it is published, busy on it if it is reserved, and with only holes ahead busy if and only if the cached tail is neither the head nor the tail |
| `MpscExamples.BusyWithNothingReserved` | crates/channel/src/mpsc/queue.rs:374-377 | a run with nothing reserved and nothing left in the ring in which busy is answered, and answered again: the documented meaning is not what the code does |
| `MpscConsumer.Consumer.DrainAfterClose` | crates/channel/src/mpsc/mod.rs:47-61 | draining after the last producer was seen gone delivers everything still published, and the final nothing is final |
| `MpscConsumer.Consumer.StartDrain` | crates/channel/src/mpsc/queue.rs:536-543 | the drain is bounded by the tail loaded now |
| `MpscConsumer.Drain.PassHoles` | crates/channel/src/mpsc/queue.rs:618-623 | skipped holes are taken off what remains, even past the snapshot |
| `MpscConsumer.Drain.Next` | crates/channel/src/mpsc/queue.rs:610-633 | yields the next published ticket below the snapshot; what remains is the part of the snapshot ahead of the head; it ends with the snapshot or at an unsettled head |
| `SnapshotSafety.StepInv` | crates/channel/src/snapshot/mod.rs:46-60 | every step of publish, update, close and drop keeps heap, links, history and release flags consistent, freed addresses being reused |
| `SnapshotTheorems.MemorySafety` | crates/channel/src/snapshot/mod.rs:97-107 | in every interleaving no end touches a freed node and none is freed twice |
| `SnapshotTheorems.LiveNodes` | crates/channel/src/snapshot/mod.rs:46-60 | the live nodes are exactly the distinct ones linked from the reader's node to the writer's last one, a new node not yet linked and the one about to be freed |
| `SnapshotTheorems.NothingLeaks` | crates/channel/src/snapshot/mod.rs:97-107 | after both drops, in either order, every node allocated has been freed, once |
| `SnapshotTheorems.EndsAreValid` | crates/channel/src/snapshot/mod.rs:120-126 | an end that exists keeps the node it reads, with the value published there |
| `SnapshotTheorems.OneWay` | crates/channel/src/snapshot/mod.rs:208-236 | the reader never goes back in the publish history |
| `SnapshotTheorems.RefusedExactlyWhenClosed` | crates/channel/src/snapshot/mod.rs:136-161 | a publish is refused exactly on a closed channel, with chain and history untouched and the value kept |
| `SnapshotTheorems.AnswersOnNewest` | crates/channel/src/snapshot/mod.rs:208-236 | each answer is given on the newest node at the last load; the error only on the last value of a closed channel |
| `SnapshotTheorems.NextWrittenOnce` | crates/channel/src/snapshot/mod.rs:57-57 | a link changes at most once |
| `SnapshotTheorems.ClosedIsTerminal` | crates/channel/src/snapshot/mod.rs:164-169 | closed stays closed and nothing is published any more |
| `SnapshotTheorems.CloseProgress` | crates/channel/src/snapshot/mod.rs:240-259 | each step of a closing reader gets nearer to its end, when nothing is published meanwhile |
| `SnapshotTheorems.CloseTerminates` | crates/channel/src/snapshot/mod.rs:240-259 | close ends within a number of own steps that only publications can prolong |
| `SnapshotReader.Reader.Update` | crates/channel/src/snapshot/mod.rs:208-236 | the walk-and-free loop ends on the newest node at its last load; updated means that it moved, unchanged that it did not and the channel is open |
| `SnapshotTheorems.CloseAlone` | crates/channel/src/snapshot/mod.rs:240-259 | with the writer at rest it takes three steps for each node ahead and eight more at most |
| `SnapshotReader.Reader.Close` | crates/channel/src/snapshot/mod.rs:240-259 | the retry loop ends, on the final node of a closed channel |
| `SnapshotReader.Reader.CallUpdate` | crates/channel/src/snapshot/mod.rs:208-236 | a call from rest to rest, with the same answers |
| `SnapshotReader.Reader.CallClose` | crates/channel/src/snapshot/mod.rs:240-259 | a call from rest to rest: the channel is closed and the reader on its final value |
| `SnapshotReader.Reader.Drop` | crates/channel/src/snapshot/mod.rs:269-276 | closes and releases the final node; when the writer went first every node is freed, once |
| `SnapshotWriter.Writer.Publish` | crates/channel/src/snapshot/mod.rs:133-161 | appends exactly the value, or returns it from a closed channel with the history as it was |
| `SnapshotWriter.Writer.Close` | crates/channel/src/snapshot/mod.rs:164-169 | after it the channel is closed for good and the history as it was |
| `SnapshotWriter.Writer.Drop` | crates/channel/src/snapshot/mod.rs:177-184 | closes and releases the final node; when the reader went first every node is freed, once |
| `Vyukov.StepInv` | crates/channel/src/mpsc/ref_vyukov.rs:96-152 | every step of the compare-and-swap ring, spurious exchange failures included, keeps slots, claims and histories consistent |
| `Vyukov.LookMeans` | crates/channel/src/mpsc/ref_vyukov.rs:100-119 | channel full is answered exactly when all N positions are taken and none recycled at the load of the sequence number |
| `VyukovQueue.NoFault` | crates/channel/src/mpsc/ref_vyukov.rs:10-16 | no slot is read empty or overwritten full, and tail and head are at most N apart, in every interleaving |
| `VyukovQueue.UniqueClaim` | crates/channel/src/mpsc/ref_vyukov.rs:104-112 | no two producers ever hold one position |
| `VyukovQueue.StepRefines` | crates/channel/src/mpsc/ref_vyukov.rs:96-152 | each step is a step of one bounded first-in first-out queue, or none |
| `VyukovQueue.Fifo` | crates/channel/src/mpsc/ref_vyukov.rs:96-152 | handed out and in line together are the claimed values in claim order |
| `VyukovQueue.Ring.Push` | crates/channel/src/mpsc/ref_vyukov.rs:96-125 | the retry loop ends; the value is published at one position claimed during the call, or handed back with a witness of a full ring |
| `VyukovQueue.Ring.Pop` | crates/channel/src/mpsc/ref_vyukov.rs:141-152 | takes the front of the line; nothing only when the head position is not published |
| `VyukovQueue.Ring.Drop` | crates/channel/src/mpsc/ref_vyukov.rs:66-78 | the scan drops exactly what is in line |
| `Words.SignedDifference` | crates/channel/src/mpsc/ref_vyukov.rs:102-102 | the signed wrapping difference is the difference of the counters, if and only if they are less than half the word range apart |
| `Vyukov.LookOnWords` | crates/channel/src/mpsc/ref_vyukov.rs:102-102 | so the difference the producer tests is that of the counters exactly while the slot is less than half the word range ahead of its position, in particular unless the queue has moved on that far meanwhile |
| `Vyukov.ExchangeOnWords` | crates/channel/src/mpsc/ref_vyukov.rs:104-109 | the exchange on words succeeds only on the position itself, unless the tail is a whole word range ahead of it |
| `Words.MaskOfWord` | crates/channel/src/mpsc/queue.rs:5-7 | masking the wrapped counter selects the slot of the unbounded one |
| `Spsc.StepInv` | crates/channel/src/spsc/queue.rs:8-15 | each load, write, read and publication of either side keeps indices, copies and slots consistent |
| `Spsc.EveryInterleaving` | crates/channel/src/spsc/queue.rs:8-15 | in every interleaving the stale copies stay on the safe side, no slot is misused and values come out in order, once |
| `Spsc.StepRefines` | crates/channel/src/spsc/queue.rs:180-505 | every step is a step of one bounded first-in first-out queue, or none |
| `Spsc.TwoCopiesAreTheLoop` | crates/channel/src/spsc/queue.rs:221-246 | the two contiguous copies equal the element-by-element masked loop |
| `SpscQueue.Ring.Push` | crates/channel/src/spsc/queue.rs:180-196 | pushes the value, or hands it back closed or with every slot taken at the reload; the head is reloaded only when its copy says full |
| `SpscQueue.Ring.PushBatch` | crates/channel/src/spsc/queue.rs:205-250 | pushes the leading elements, all of them unless the ring was full up to the head as loaded during the call |
| `SpscQueue.Ring.PushIter` | crates/channel/src/spsc/queue.rs:257-284 | the same for an iterator that ends or panics: what was written is published |
| `SpscQueue.Ring.CopyIn` | crates/channel/src/spsc/queue.rs:221-239 | the two block copies, in place, are one masked write of the batch |
| `SpscQueue.Ring.Pop` | crates/channel/src/spsc/queue.rs:441-449 | the oldest value, or nothing with head and tail equal at the reload; the tail is reloaded only when its copy says empty |
| `SpscQueue.Ring.PopAll` | crates/channel/src/spsc/queue.rs:518-525 | popping until nothing comes delivers, in order, everything published before and meanwhile, and ends when the producer does |
| `SpscQueue.Ring.CloseByProducer` | crates/channel/src/spsc/queue.rs:313-322 | closed from here on, with everything published kept |
| `SpscQueue.Ring.CloseByConsumer` | crates/channel/src/spsc/queue.rs:527-530 | closed from here on, with nothing taken out |
| `SpscQueue.Ring.CopyOut` | crates/channel/src/spsc/queue.rs:482-497 | the two block copies give the published values in order and leave the rest of the destination |
| `SpscQueue.Ring.PopBatch` | crates/channel/src/spsc/queue.rs:470-505 | as many of the oldest values as fit and were published at the load of the tail during the call, released at once |
| `SpscQueue.Ring.DrainNext` | crates/channel/src/spsc/queue.rs:573-585 | yields the snapshot's values in order and none beyond it |
| `SpscQueue.Ring.Skip` | crates/channel/src/spsc/queue.rs:508-515 | takes out exactly the oldest items, at most as many as asked and as were published at the load of the tail during the call |
| `SpscQueue.Ring.AsSlices` | crates/channel/src/spsc/queue.rs:625-642 | the two slices in order are the published values of the chunk |
| `SpscQueue.Ring.Commit` | crates/channel/src/spsc/queue.rs:656-662 | consumes exactly the first items of the chunk, clamped to its length |
| `SpscQueue.Ring.Drop` | crates/channel/src/spsc/queue.rs:98-114 | drops exactly what is published and unread; no slot stays initialised |
| `RingCursor.NextPowerOfTwo` | crates/ring_buffer/src/ring_cursor.rs:36-41 | the smallest power of two that is not less, or none when it does not fit a word |
| `RingCursor.RingCursor.TryNew` | crates/ring_buffer/src/ring_cursor.rs:31-51 | fails exactly on zero and when the rounding overflows; the capacity asked for is kept apart |
| `RingCursor.RingCursor.CheckedPhysicalIndex` | crates/ring_buffer/src/ring_cursor.rs:84-88 | an index exactly for live elements; the sum overflows a word exactly from WORD - head on, and then never for a live element |
| `RingCursor.OverflowingPeek` | crates/ring_buffer/src/ring_cursor.rs:84-88 | a one-element ring with its head at 1 for which an index of 2^64 - 1 overflows |
| `RingCursor.RingCursor.PushHeadIndex` | crates/ring_buffer/src/ring_cursor.rs:99-105 | the slot before the head, with the wrapping subtraction; the length stays at the capacity asked for |
| `RingCursor.RingCursor.PushTailIndex` | crates/ring_buffer/src/ring_cursor.rs:115-123 | the slot after the tail; when full the head moves on |
| `RingCursor.RingCursor.PopHeadIndex` | crates/ring_buffer/src/ring_cursor.rs:127-132 | the head slot, or none when empty |
| `RingCursor.RingCursor.PopTailIndex` | crates/ring_buffer/src/ring_cursor.rs:135-138 | the last slot, or none when empty |
| `RingCursor.RingCursor.AsSlices` | crates/ring_buffer/src/ring_cursor.rs:146-162 | the two slices in order are the window |
| `RingCursor.RingCursor.Skip` | crates/ring_buffer/src/ring_cursor.rs:165-170 | moves the head by at most the length |
| `RingBuffer.FrontRemoved` | crates/ring_buffer/src/ring_buffer.rs:88-94 | taking the head slot out leaves the window of the rest |
| `RingBuffer.FrontAdded` | crates/ring_buffer/src/ring_buffer.rs:103-119 | a value one slot before the head is the window with it in front |
| `RingBuffer.BackAppended` | crates/ring_buffer/src/ring_buffer.rs:154-171 | a value after the tail is the window with it at the end |
| `RingBuffer.BackRemoved` | crates/ring_buffer/src/ring_buffer.rs:95-101 | taking the tail slot out leaves the window of the rest |
| `RingBuffer.FrontSkipped` | crates/ring_buffer/src/ring_buffer.rs:265-275 | moving the head past values without a destructor leaves the window of the rest |
| `RingBuffer.RingBuffer.PushHeadEvicting` | crates/ring_buffer/src/ring_buffer.rs:103-119 | at the capacity asked for, the last element comes back and the window slides; otherwise it grows |
| `RingBuffer.RingBuffer.PushTailEvicting` | crates/ring_buffer/src/ring_buffer.rs:154-173 | the same at the other end |
| `RingBuffer.RingBuffer.SkipFront` | crates/ring_buffer/src/ring_buffer.rs:265-275 | leaves out exactly the oldest elements, with or without destructors |
| `RingBuffer.RingBuffer.AsSlices` | crates/ring_buffer/src/ring_buffer.rs:227-240 | the two slices in order are the window |
| `RingBuffer.RingBuffer.Clone` | crates/ring_buffer/src/ring_buffer.rs:349-364 | a ring of its own with the same values and capacity; the source stays as it is |
| `RingBuffer.RingBuffer.Drop` | crates/ring_buffer/src/ring_buffer.rs:341-347 | every element is dropped once; no slot stays initialised |
| `RingBuffer.DequeKeeps` | crates/ring_buffer/src/ring_buffer.rs:75-280 | what that deque does: each operation takes from or adds to one end, nothing is lost, doubled or reordered, and a push at the bound gives back the other end |
| `RingBuffer.RingBuffer.Perform` | crates/ring_buffer/src/ring_buffer.rs:75-280 | each operation answers, the count of a skip included, and leaves what the plain deque bounded by the capacity asked for does |
| `RingBuffer.RingBuffer.RunAll` | crates/ring_buffer/src/ring_buffer.rs:75-280 | any sequence of operations is the same sequence on that deque |
| `RingBuffer.DrainRingFront.Next` | crates/ring_buffer/src/ring_buffer.rs:395-422 | yields the oldest element and releases it at once, through both runs; the rest stays in the ring |
| `Moments.SpreadIdentity` | crates/ring_buffer/src/ring_statistics.rs:243-250 | n times the spread is n times the sum of squares less the squared sum |
| `Moments.ConstantTest` | crates/ring_buffer/src/ring_statistics.rs:272-287 | that difference is zero exactly when all samples are equal |
| `Moments.DeviationIsZero` | crates/ring_buffer/src/ring_statistics.rs:274-285 | no spread about a value exactly when every sample is that value |
| `Accumulators.DivIsExact` | crates/ring_buffer/src/ring_statistics.rs:76-81 | quotient and remainder converted apart give the exact ratio, for negative numerators too |
| `Accumulators.LossyAccumulator.AddSample` | crates/ring_buffer/src/ring_statistics.rs:210-216 | saturates and raises the flag exactly when a sum or the square leaves the range |
| `Accumulators.LossyAccumulator.RemoveSample` | crates/ring_buffer/src/ring_statistics.rs:218-230 | the same for a removal; removing the only sample is a reset |
| `Accumulators.LossyAccumulator.Variance` | crates/ring_buffer/src/ring_statistics.rs:243-250 | is the population variance by definition, never below zero |
| `Accumulators.LossyAccumulator.SampleVariance` | crates/ring_buffer/src/ring_statistics.rs:252-259 | is the spread over one less than the count |
| `Accumulators.LossyAccumulator.GetStatus` | crates/ring_buffer/src/ring_statistics.rs:261-294 | a constant window is okay unless its own integer test overflows; another one unless the ratio is too large |
| `Accumulators.AccumulatorsAgree` | crates/ring_buffer/src/ring_statistics.rs:243-250 | Welford's spread and the running sums agree on every window |
| `Accumulators.WelfordAdds` | crates/ring_buffer/src/ring_statistics.rs:315-321 | the recurrence moves mean and spread to those of the larger window |
| `Accumulators.WelfordRemoves` | crates/ring_buffer/src/ring_statistics.rs:323-334 | and back, for any sample of the window |
| `Accumulators.WelfordAccumulator.AddSample` | crates/ring_buffer/src/ring_statistics.rs:315-321 | mean and spread stay those recomputed from their definitions |
| `Accumulators.WelfordAccumulator.RemoveSample` | crates/ring_buffer/src/ring_statistics.rs:323-334 | the same for a removal from any place, down to the empty window |
| `RingStatistics.WindowIsTheLastValues` | crates/ring_buffer/src/ring_statistics.rs:480-485 | any run of pushes leaves the last values, newest first, as many as the window holds |
| `RingStatistics.SlideMeans` | crates/ring_buffer/src/ring_statistics.rs:480-485 | the newest sample in front, the others in their order, the oldest gone from a full window |
| `RingStatistics.Rolling.TryNew` | crates/ring_buffer/src/ring_statistics.rs:455-466 | fails exactly on fewer than three samples or an unallocatable ring |
| `RingStatistics.Rolling.Push` | crates/ring_buffer/src/ring_statistics.rs:480-485 | unflagged figures are those of the window, recomputed; the flag is raised exactly when a sum leaves the range after the eviction or after the addition, and stays |
| `RingStatistics.Rolling.PushAll` | crates/ring_buffer/src/ring_statistics.rs:379-386 | samples bounded by m, with n*m and n*m*m in range, never raise the flag, whatever comes and goes |
| `RingStatistics.Rolling.ResetAccumulator` | crates/ring_buffer/src/ring_statistics.rs:469-476 | rebuilds the figures from the window; flagged exactly when a sum of the older samples leaves the range on the way |
| `RingStatistics.Rolling.NewAccumulator` | crates/ring_buffer/src/ring_statistics.rs:533-536 | the same with an accumulator in any state |
| `RingStatistics.Rolling.GetMean` | crates/ring_buffer/src/ring_statistics.rs:503-505 | while unflagged, the mean of the samples in the window by definition |
| `RingStatistics.Rolling.GetVariance` | crates/ring_buffer/src/ring_statistics.rs:507-509 | while unflagged, their variance by definition |
| `RingStatistics.RollingWelford.Push` | crates/ring_buffer/src/ring_statistics.rs:480-485 | mean and spread are those of the window, recomputed, after every push |
| `CivilDate.FormulaIsYear` | crates/logger/src/message.rs:191-193 | the year-of-era formula gives the year whose days contain the day, leap days and the end of the era included |
| `CivilDate.MonthDayBounds` | crates/logger/src/message.rs:194-197 | the month arithmetic puts each day in one of twelve months |
| `CivilDate.CivilNext` | crates/logger/src/message.rs:189-198 | the next day gets the calendar's next date, across months, years and 400-year eras |
| `CivilDate.CivilIsTheCalendar` | crates/logger/src/message.rs:181-201 | the arithmetic equals stepping through the calendar of RFC 3339 (section 5.7, Appendix C) from 1970-01-01 |
| `CivilDate.CountingBack` | crates/logger/src/message.rs:181-201 | counting days back from the date gives the day number |
| `CivilDate.UtcIsRight` | crates/logger/src/message.rs:181-201 | for every 64-bit second count: valid time, right month and day; the year right exactly before second 135536014634284800, where it leaves 32 bits, and then a round trip to the same second |
| `CivilDate.YearTenThousand` | crates/logger/src/message.rs:181-201 | second 253402300800 is midnight of 10000-01-01, the day after 9999-12-31 |
| `CivilDate.YearLeavesU32` | crates/logger/src/message.rs:181-201 | that second is the first of the year 2^32, and its computed year is 0 |
| `CivilDate.NextDaySameTime` | crates/logger/src/message.rs:181-201 | 86400 seconds later it is the same time on the next date |
| `LogMessage.CompactTitle` | crates/logger/src/message.rs:102-114 | the decrementing loop finds the last character boundary within the width |
| `LogMessage.CompactIsLongest` | crates/logger/src/message.rs:102-114 | the title is cut to its longest prefix that fits and ends between two characters |
| `LogMessage.LenIsExact` | crates/logger/src/message.rs:76-85 | the length is never too large and is exact exactly up to the year 9999 |
| `LogMessage.TooLongForItsLength` | crates/logger/src/message.rs:76-85 | a message of the year 10000 whose encoding is longer than its length |
| `LogMessage.WriteTo` | crates/logger/src/message.rs:87-100 | appends exactly the encoding |
| `LogReader.LineLayout` | crates/logger/src/message.rs:87-100 | up to the year 9999: the fixed columns read in decimal are date, time and nanoseconds, then come the level's name, the compact title, the body and a newline |
| `LogReader.RoundTrip` | crates/logger/src/message.rs:172-179 | reading a line gives the logged time, level, title and body back, if and only if the title as cut has no closing bracket |
| `FileManager.LogFile.WriteAll` | crates/logger/src/file_manager.rs:164-182 | the count goes up answer by answer: by what a partial write took, not at all for an interruption; it ends with all bytes, the answers, an error or an empty write |
| `FileManager.PartialWritesAddUp` | crates/logger/src/file_manager.rs:164-182 | up to the first error or empty write all that the answers take gets through, up to the bytes there are |
| `FileManager.InterruptionsCostNothing` | crates/logger/src/file_manager.rs:176-177 | interruptions never cost a byte |
| `FileManager.LogFile.Write` | crates/logger/src/file_manager.rs:159-192 | each offered byte is counted as written or lost; the failure streak ends with a complete write |
| `FileManager.BufferStaysBelow` | crates/logger/src/file_manager.rs:260-284 | with a capacity and four-digit years one message leaves the buffer strictly below its capacity |
| `FileManager.BufferAlwaysBelow` | crates/logger/src/file_manager.rs:260-284 | and so does any sequence of messages, from the empty buffer, flushed or not |
| `FileManager.WriteSequence` | crates/logger/src/file_manager.rs:260-284 | the same of the file manager itself, whatever the system answers, with the messages kept in order |
| `FileManager.LateYearFillsBuffer` | crates/logger/src/file_manager.rs:266-277 | with a longer year some buffer fills to its capacity at once |
| `FileManager.BufferDoesFill` | crates/logger/src/file_manager.rs:266-277 | such a message and such a capacity |
| `FileManager.ThresholdMeans` | crates/logger/src/file_manager.rs:260-264 | the levels in their order, and exactly which of them each threshold syncs |
| `FileManager.FileManager.GetNextFile` | crates/logger/src/file_manager.rs:308-324 | when the next file opens the old one gets one footer and a last sync and the new one starts empty; otherwise nothing changes but the number |
| `FileManager.FileManager.WriteBuffToFile` | crates/logger/src/file_manager.rs:291-306 | a flush that would overrun the file rotates first: the old file gets nothing but its footer and the buffer is the first thing in the new one, unless that does not open; a new day rotates after the flush |
| `FileManager.FileManager.Write` | crates/logger/src/file_manager.rs:260-284 | what files were handed, without footers, followed by the buffer, is the encodings of all messages in order; a message that fits is only buffered, and at the sync level everything is handed over and synced on return; each byte is counted |
| `FileManager.FileManager.Shutdown` | crates/logger/src/file_manager.rs:359-367 | hands over the rest of the buffer and syncs, once |
| `FileManager.SecondShutdown` | crates/logger/src/file_manager.rs:359-367 | a message written after the first shutdown is still in the buffer after the second one, and no file was handed a byte of it |
| `LogWorker.NothingMissed` | crates/logger/src/worker.rs:84-89 | a queue read to its end without a shutdown command never held a published one |
| `LogWorker.BeforeShutdown` | crates/logger/src/worker.rs:70-79 | the commands before the shutdown command are all those of the smaller tickets, and none of them is pending |
| `LogWorker.LogWorker.DrainRound` | crates/logger/src/worker.rs:69-80 | writes the messages it takes, in order, and ends at the shutdown command, at the end of the snapshot or at an unsettled ticket |
| `LogWorker.LogWorker.FinalDrain` | crates/logger/src/worker.rs:146-155 | takes out what is queued up to the snapshot or an unsettled ticket, writes every message of it, in order, reports what was dropped meanwhile, then closes the output |
| `LogWorker.LogWorker.Turn` | crates/logger/src/worker.rs:60-98 | drains up to the tail seen at the start or an unsettled ticket and reports drops; gives up for lack of senders only when the channel was seen closed with no shutdown command published; a closed channel with tickets ahead keeps it going; then the messages of all tickets have been written before it says so, in ticket order; however it leaves, all that came out has been written |
| `LogWorker.LogWorker.Run` | crates/logger/src/worker.rs:54-99 | begins with the start line; with the shutdown command published before the close it never leaves that way; and the messages written before the shutdown marker are exactly those of the smaller tickets, in ticket order, over any number of turns; on a channel closed by drop alone every message ever published is written; however it leaves, all that came out has been written |
| `LogWorker.WriteOut` | crates/logger/src/worker.rs:54-99 | the worker's records reach the file manager one message each, in order |

## Left out

- Memory orders beyond the late recycle store of the ticket ring: every atomic operation is one step, and plain data accesses happen with the operations around them.
- The full wrap of a producer's stale position in the compare-and-swap ring: positions are compared as unbounded counters there, which `Vyukov.LookOnWords` and `Vyukov.ExchangeOnWords` justify until the tail has moved on by almost 2^63.
- The range of the signed credit counter: it stays at or below N and at or above minus the number of producers times N, so it leaves 64 bits only with that many producers.
- `peek`, `len`, `is_full`, `free_space` and the other observers of the channels, `push_batch` of the MPSC channel (a `push_iter` over a slice) and cache padding: easy members.
- VyukovQueue.Ring.Push: positions are unbounded, as said above.
- MpscHandles.Channel.Drop: is called with no operation in flight and no store outstanding, as the exclusive reference guarantees.
- SpscQueue.Ring.Forget: empties the slots of copied values, where the program leaves the bytes behind; they count as uninitialised.
- RingStatistics.Rolling.TryNew: a window larger than the accumulator's maximum is excluded; no allocation of that size exists.
- Rounding of floating-point numbers, the `f32` and `f64` scalars and the effect of rounding on the cancellation limit: ratios are exact, and the limit is compared exactly.
- Accumulators.LossyAccumulator.GetStatus: without rounding the variance is never negative, so only the exact comparisons of the code are modelled.
- What the disk does with a write or a sync, clocks, directory scans, file names, the report on stderr and the level file: their outcomes are arbitrary, or have no effect on what is stated.
- A hard bound on file sizes: long messages and footers bypass the size check.
- FileManager.LogFile.WriteAll: a file that accepts no byte trips a debug assertion in the program; the model follows the release build.
- FileManager.FileManager.GetNextFile: the file number is unbounded, and a number returning to zero on another day is allowed at any time.
- LogWorker.LogWorker.Run: liveness; the run is seen over any number of turns, and says nothing about how soon a pending ticket is published.
- LogWorker.LogWorker.FinalDrain: does not say that nothing accepted is ever lost after a shutdown, because the drain also stops at a ticket still being written.
- The reset of the accumulator before first use: an accumulator handed over with figures in it is allowed, and nothing is claimed of it until it is reset or replaced.
- The kernel bindings, the to-do crate, metrics, builders, display formatting and error texts: foreign calls, or easy members.
