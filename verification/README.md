# Verified model of xmBase's concurrency and telemetry primitives

This Dafny project models the lock-free and bounded-buffer code of xmBase and proves what its headers argue in
prose. `dafny verify dfyconfig.toml` checks all of it.

**The seqlock overwrite ring** is modelled twice.

- `SeqlockWeak` and `SeqlockReaders` run one writer and any number of readers on a view-based semantics of the C++
  memory orders (`WeakMemory`; sections 4.7.1 and 32.9 of ISO/IEC 14882:2017), one step per atomic load, store or
  fence. Each location is the sequence of messages stored to it, each message carries the view its store published,
  and a load may return any message its thread's view allows. The writer may crash at any step and be repaired.
  `SeqlockTrace` says what all runs owe to the callers alone: which values passed to `Store` are published and
  returned, how many cursors a call captures. `SeqlockWaitFree` counts steps, and `SeqlockWitness` builds a run that
  meets the retry bound.
- `SeqlockRing` is the class itself: cells in an array, a cursor, and the loops of `Load`, `LoadBounded` and
  `Snapshot`. Between any two accesses of a reader the writer may take any number of steps (`Interfere`); every
  single store of `Store` is proved to be such a step (`Rely`). Here are linearization at the cursor load, the retry
  bounds, termination, the crash and repair story, and a schedule that shows what validation does not cover.

**Parking.** `EventCount` and `CondvarEventCount` are transition systems over any number of waiters and notifiers,
with stale loads, spurious wakes, a clock, and the 32-bit futex word as it is.

**The SPSC queue** is a transition system on the weak memory (`SpscWeak`), where race freedom of the plain cells is
proved through bookkeeping locations for the reads, and a class (`SpscQueue`). `Inbox` is the worker inbox example:
that same queue, with the epoch of the eventcount and the shutdown flag as two more atomics of the same memory, so
that what a bump publishes is derived and not stipulated.

**Checksums.** `Checksum` runs the CRC loops on 8- and 16-bit words. `Gf2` is polynomial arithmetic over GF(2) with
polynomials as sets of exponents, `Lfsr` the shift register that divides by a generator, and `ChecksumLaws` the
error-detection theorems for both CRCs.

**Deferred formatting.** `ArgPack` is the argument pack with its byte representation, `FormatSpec` the parser of
placeholder specifications, `Formatter` the unbounded rendering, `FormatBuffers` the two formatters that write in
place into fixed buffers. `FormatMeaning` reads the meaning of a format off its text, independently of all these, and
proves that they agree. printf is a parameter.

**Telemetry state.** `IdGenerator` (on `Cycles`) is the id generator, `Histogram` the concurrent histogram,
`Spans` spans and context guards over whole nested runs.

Where the code and its comments differ, the model follows the code.

- Lines 68-70 of seqlock_ring.hpp promise "at least N more values" for each retry. A retry for a captured cursor c
  proves that a store overwriting position c - 1 has begun. That makes N publications beyond c, except when exactly
  N - 1 were made and the store of the next one is open (`SeqlockReaders.RetryMeansLap`), which happens at every depth
  (`SeqlockWitness.RetryAfterNMinusOne`). At depth one a quiet ring can therefore stall a reader for good
  (`SeqlockRing.StallsExactlyAtDepthOne`).
- Its claim that a validated copy is torn-free fails for a copy that spans a writer crash, its repair and the next
  store (`SeqlockRing.TornAcrossRepair`); it is proved for every copy that spans no repair, and so for every run
  without a crash.
- The eventcount's claim that a wakeup is never lost fails exactly after a whole number of 2^32 bumps between load and
  comparison (`EventCount.ForgottenMeansLapped`, `EventCount.WholeLapsForget`).
- The histogram's last bucket is said to hold every value from 2^22; `HistogramBucketOf` computes it for all of them
  but +infinity (`Histogram.BucketsPartition`).

## Model

| member | source | states |
|---|---|---|
| SeqlockWeak.StepKeeps | include/xmbase/concurrency/detail/seqlock_ring.hpp:25-57 | every atomic load, store and fence of `Store`, a writer crash at any point, and every step of the repair keep the ring invariant: which attempt each message belongs to, and that (W1) data publishes the odd word, (W2) an even word publishes index and payload, (W3) the cursor publishes every even word below it; histories only grow |
| SeqlockWeak.InitInv | include/xmbase/concurrency/detail/seqlock_ring.hpp:194-209 | the constructed ring (all words zero, nothing published) satisfies that invariant |
| SeqlockReaders.ValidatedCopyIsOneStore | include/xmbase/concurrency/detail/seqlock_ring.hpp:30-57 | the torn-freedom argument: if the two sequence loads agree on a non-zero even word, with no repair between them, the copied index and every copied word are those of one single store on that cell, whichever position it stored |
| SeqlockReaders.ValidatedCopyIsPublished | include/xmbase/concurrency/detail/seqlock_ring.hpp:30-57 | if that index is moreover the wanted one, the words are those published at that position |
| SeqlockReaders.FailedCopyMeansLap | include/xmbase/concurrency/detail/seqlock_ring.hpp:66-89 | a copy whose second sequence load or index disagrees proves that a later store on that cell has begun, of a position at least N after the wanted one |
| SeqlockReaders.ReadKeeps | include/xmbase/concurrency/detail/seqlock_ring.hpp:244-363 | every step of `Load`, `LoadBounded` and `Snapshot`, whatever stale message each load returns, keeps what the reader may rely on |
| SeqlockReaders.RunKeeps | include/xmbase/concurrency/detail/seqlock_ring.hpp:25-89 | the invariants hold in every state of every run of one (crashing, repaired) writer with any number of readers |
| SeqlockTrace.StorePublishesItsArgument | include/xmbase/concurrency/detail/seqlock_ring.hpp:218-237 | in every run, a `Store` that comes to its end publishes its caller's value and nothing else: one more position, whose cell then shows that position and every word of the value under an even sequence word |
| SeqlockTrace.ArgumentsArePublished | include/xmbase/concurrency/detail/seqlock_ring.hpp:218-237 | in every state of every run exactly the values passed to the completed `Store` calls are published, in order, and every word message of such a store is a word of its value; values of stores cut off by a crash never are |
| SeqlockTrace.LoadReturnsAnArgument | include/xmbase/concurrency/detail/seqlock_ring.hpp:244-321 | in every run a value returned for cursor c is the one passed to the c-th completed `Store`, unless a repair fell between the two sequence loads of the very copy returned |
| SeqlockTrace.SnapshotReturnsArguments | include/xmbase/concurrency/detail/seqlock_ring.hpp:328-363 | with the same proviso, a snapshot under cursor c lists the values passed to the completed stores c, c - 1, and so on, without a gap |
| SeqlockTrace.CrashFreeReadsReturnArguments | include/xmbase/concurrency/detail/seqlock_ring.hpp:25-89 | without a writer crash that needs no proviso: every value any reader ever returns, by any verb, was passed to the `Store` of its position, and a read returns empty only for cursor zero |
| SeqlockTrace.CallsKeepTheirBudget | include/xmbase/concurrency/detail/seqlock_ring.hpp:281-363 | a call ends with an outcome of its own verb and its caller's k, for the cursor it captured last; `Snapshot` captures one; `LoadBounded` captures at most max_retries + 1 and stalls only after exactly that many; `Load` never stalls |
| SeqlockTrace.OutcomeIsFresh | include/xmbase/concurrency/detail/seqlock_ring.hpp:244-363 | the cursor of a finished call is at least what the reader had seen of it when it called |
| SeqlockTrace.EmptyMeansRetracted | include/xmbase/concurrency/detail/seqlock_ring.hpp:239-258 | a read-latest call returns nothing only for cursor zero or if a repair retracted the cell of the newest value below its cursor |
| SeqlockWaitFree.StoreIsWaitFree | include/xmbase/concurrency/detail/seqlock_ring.hpp:214-237 | after its cursor load `Store` takes exactly W + 6 steps, whatever the readers do |
| SeqlockWaitFree.StoresNeverBlock | include/xmbase/concurrency/detail/seqlock_ring.hpp:214-237 | and the writer can always take the next one |
| SeqlockWaitFree.CallsAreWaitFree | include/xmbase/concurrency/detail/seqlock_ring.hpp:281-327 | `Snapshot` takes at most N copies of W + 4 steps and one cursor load, `LoadBounded` at most max_retries + 1 times a copy and a cursor load, whatever the writer does |
| SeqlockWaitFree.CallsNeverBlock | include/xmbase/concurrency/detail/seqlock_ring.hpp:244-363 | a call under way can always take its next step |
| SeqlockReaders.SnapshotIsNewestPrefix | include/xmbase/concurrency/detail/seqlock_ring.hpp:328-363 | in every run a snapshot is a gapless newest-first prefix below its cursor c of at most limit = min(k, c, N) entries; if it has fewer, the store that overwrites the one it stopped at had begun, and every older entry had been published over already |
| SeqlockReaders.NothingOnlyIfNoneOrLapped | include/xmbase/concurrency/detail/seqlock_ring.hpp:244-321 | a read-latest call returns no value only if its captured cursor was zero, or if the store that overwrites the newest value below that cursor had begun |
| SeqlockReaders.LoadsNeverGoBack | include/xmbase/concurrency/detail/seqlock_ring.hpp:244-321 | successive read-latest calls of one reader never return a smaller write position |
| SeqlockReaders.RetryMeansLap | include/xmbase/concurrency/detail/seqlock_ring.hpp:66-70 | each retry of a read-latest call for cursor c proves that a store overwriting position c - 1 has begun; so there are N publications beyond c, as the comment claims, unless exactly N - 1 were made and the store of the next one is open |
| SeqlockWitness.RetryAfterNMinusOne | include/xmbase/concurrency/detail/seqlock_ring.hpp:66-70 | for every depth there is a run in which a `Load` retries with exactly N - 1 values published since it captured its cursor |
| SeqlockReaders.CrashFreeIsClean | include/xmbase/concurrency/detail/seqlock_ring.hpp:365-380 | without a writer crash no copy ever spans a repair, so the proviso of the other results always holds |
| SeqlockRing.Ring.constructor | include/xmbase/concurrency/detail/seqlock_ring.hpp:194-209 | zero-initialization yields a valid ring with nothing published |
| SeqlockRing.Ring.Store | include/xmbase/concurrency/detail/seqlock_ring.hpp:218-237 | publishes exactly the value; every intermediate store is one that readers expect; afterwards all N newest values are in place |
| SeqlockRing.Ring.StoreUpTo | include/xmbase/concurrency/detail/seqlock_ring.hpp:218-237 | a writer that dies after any number of its W + 4 stores leaves a valid ring, publishes nothing unless the cursor store happened, and leaves the in-flight cell odd or holding the unpublished value |
| SeqlockRing.RelyTransitive | include/xmbase/concurrency/detail/seqlock_ring.hpp:30-57 | what readers may expect of the writer composes over any number of its steps |
| SeqlockRing.FailureMeansLap | include/xmbase/concurrency/detail/seqlock_ring.hpp:66-89 | a reader that finds the cell of a published position odd, empty, re-indexed or changed knows that the writer reached that position plus N |
| SeqlockRing.Ring.CopyCell | include/xmbase/concurrency/detail/seqlock_ring.hpp:253-275 | the cell protocol with the writer running between any two loads: index match means the published value, any failure means a lap |
| SeqlockRing.Ring.Load | include/xmbase/concurrency/detail/seqlock_ring.hpp:244-279 | returns the newest value as of its final cursor load, an instant inside the call; it makes one cursor load more than retries, and retries times N - 1 is at most the publications during the call, so for N >= 2 it ends against a dead or bounded writer; at depth one it ends against a dead writer exactly if the quiet ring does not stall |
| SeqlockRing.Ring.LoadBounded | include/xmbase/concurrency/detail/seqlock_ring.hpp:291-321 | any returned value is the newest as of the last cursor load; at most maxRetries + 1 cursor loads, exactly that many for a stall, which takes (maxRetries + 1) * (N - 1) publications; on a quiet ring the outcome is determined by the ring |
| SeqlockRing.Ring.Snapshot | include/xmbase/concurrency/detail/seqlock_ring.hpp:328-363 | returns a prefix of the newest-first list at the instant of its cursor load; a shorter one means the writer reached the position overwriting the first missing entry |
| SeqlockRing.Ring.RepairAfterWriterCrash | include/xmbase/concurrency/detail/seqlock_ring.hpp:374-380 | retracts an odd in-flight cell to never-written and touches nothing else; the ring is valid and ready for a new writer |
| SeqlockRing.QuietLoadIsNewest | include/xmbase/concurrency/detail/seqlock_ring.hpp:244-321 | on a quiet ring a read-latest returns the newest published value exactly if it is in place, which it always is for N >= 2 |
| SeqlockRing.CrashCostsOneEntry | include/xmbase/concurrency/detail/seqlock_ring.hpp:365-380 | after a crash with the odd store done, a quiet snapshot has exactly min(k, c, N - 1) entries, before and after the repair |
| SeqlockRing.StallsExactlyAtDepthOne | include/xmbase/concurrency/detail/seqlock_ring.hpp:281-321 | a quiet ring stalls reads if and only if its depth is one, something is published and a store is unfinished |
| SeqlockRing.CrashMidStore | include/xmbase/concurrency/detail/seqlock_ring.hpp:218-237 | N >= 2: a crash at any step after the first leaves the newest published value readable and snapshots of min(k, c, N - 1) entries |
| SeqlockRing.ReclaimAfterCrash | include/xmbase/concurrency/detail/seqlock_ring.hpp:365-380 | the repair changes nothing that readers see |
| SeqlockRing.CrashStory | include/xmbase/concurrency/detail/seqlock_ring.hpp:218-380 | the whole story: crash, reads, repair, reads, and the next store publishes at position c with full depth restored |
| SeqlockRing.TornAcrossRepair | include/xmbase/concurrency/detail/seqlock_ring.hpp:374-380 | for every depth, two or more words and every place between them, a schedule in which a copy that spans a crash, the repair and the next store on the cell passes both checks yet joins the first words of one value to the last ones of another, so the no-repair proviso of torn-freedom is needed |
| EventCount.RunKeeps | include/xmbase/concurrency/event_count.hpp:90-139 | the invariant holds in every state of every run of any number of waiters and notifiers: stale epoch loads, predicate, clock, atomic futex compare-and-sleep, spurious wakes, bumps and wakes |
| EventCount.SleeperIsOwedAWake | include/xmbase/concurrency/event_count.hpp:61-68 | no lost wakeup: while a waiter that compared fewer than 2^32 bumps after its load is asleep, every notifier that made the predicate true has still to bump or still to wake |
| EventCount.ForgottenMeansLapped | include/xmbase/concurrency/event_count.hpp:129-139 | a sleeper that a finished notifier left behind compared a positive multiple of 2^32 bumps after its load |
| EventCount.WholeLapsForget | include/xmbase/concurrency/event_count.hpp:129-139 | and for every such multiple there is a run in which that happens |
| EventCount.FalseOnlyAfterDeadline | include/xmbase/concurrency/event_count.hpp:95-111 | `WaitUntil` returns false only after its deadline, and having seen no bump that announced the predicate |
| EventCount.ParksOnlyBeforeItsDeadline | include/xmbase/concurrency/event_count.hpp:103-109 | a waiter whose last clock reading was at or past its deadline neither compares nor sleeps in that pass, and one that gives up has made such a reading |
| EventCount.ReturnsTheLastVerdict | include/xmbase/concurrency/event_count.hpp:92-105 | `WaitUntil` returns what its last evaluation of the predicate yielded, and returns as soon as one yields true |
| CondvarEventCount.RunKeeps | include/xmbase/concurrency/event_count.hpp:176-201 | mutual exclusion and the no-lost-wakeup invariant hold in every state of every run of any number of waiters and notifiers |
| CondvarEventCount.SleeperIsOwedANotify | include/xmbase/concurrency/event_count.hpp:179-187 | with predicates made true outside the mutex, while a waiter sleeps every notifier that did so has not yet reached notify_all |
| CondvarEventCount.CheckAndSleepAreOne | include/xmbase/concurrency/event_count.hpp:180-185 | between a failed check and the sleep no notifier that made the predicate true is past its critical section or can enter or leave it |
| CondvarEventCount.FalseOnlyAfterLimit | include/xmbase/concurrency/event_count.hpp:189-196 | `WaitFor` returns false only after its limit |
| CondvarEventCount.TimeoutIsFinal | include/xmbase/concurrency/event_count.hpp:189-196 | a wait that timed out is followed by one more evaluation and never by another sleep; only then is false returned |
| CondvarEventCount.ReturnsTheLastVerdict | include/xmbase/concurrency/event_count.hpp:189-196 | `WaitFor` returns what its last evaluation of the predicate yielded, and returns as soon as one yields true |
| CondvarEventCount.UnguardedForgets | include/xmbase/concurrency/event_count.hpp:180-185 | without the empty critical section there is a run that loses a wakeup |
| SpscWeak.RunKeeps | include/xmbase/concurrency/spsc_queue.hpp:22-31 | the queue invariant holds in every state of every run of atomic and plain accesses of both sides, whatever stale index each load returns |
| SpscWeak.RefinesFifo | include/xmbase/concurrency/spsc_queue.hpp:100-127 | in every run the popped values are a prefix of the values passed to the accepted pushes, and at most capacity of them are outstanding (a declared depth of zero counts as one) |
| SpscWeak.AccessesAreRaceFree | include/xmbase/concurrency/spsc_queue.hpp:22-31 | in every run the plain cell write and read about to happen are ordered after every conflicting access, and never concern the same cell |
| SpscWeak.PopReturnsOldest | include/xmbase/concurrency/spsc_queue.hpp:115-127 | whatever the memory system offers, a pop copies out the oldest outstanding value, whole |
| SpscWeak.RefusedOnlyWhenFull | include/xmbase/concurrency/spsc_queue.hpp:100-107 | a push is refused exactly if the head it loaded leaves capacity values outstanding; the difference never exceeds the capacity, so it never wraps |
| SpscWeak.FailsOnlyWhenSeenEmpty | include/xmbase/concurrency/spsc_queue.hpp:115-120 | a pop fails exactly if the tail it loaded, which is then all the consumer has seen of the tail, equals its head |
| SpscWeak.FullIsExact | include/xmbase/concurrency/spsc_queue.hpp:129-135 | `Full` answers no exactly if the head it loaded leaves room |
| SpscWeak.NeitherSideBlocks | include/xmbase/concurrency/spsc_queue.hpp:4-8 | either side can always take its next step, whatever the other does |
| SpscWeak.NotFullStays | include/xmbase/concurrency/spsc_queue.hpp:129-135 | `Full` is exact for the producer: after it returned false the next push succeeds |
| SpscQueue.Queue.constructor | include/xmbase/concurrency/spsc_queue.hpp:86-94 | an empty queue; depth zero makes one cell |
| SpscQueue.Queue.TryPush | include/xmbase/concurrency/spsc_queue.hpp:100-112 | appends the value exactly if the head loaded inside the call left room, with the consumer running in between; else changes nothing |
| SpscQueue.Queue.TryPop | include/xmbase/concurrency/spsc_queue.hpp:115-127 | removes and returns the oldest value exactly if the tail loaded inside the call is past the head |
| SpscQueue.Queue.Full | include/xmbase/concurrency/spsc_queue.hpp:131-135 | tells whether the queue was full when the head was loaded |
| SpscQueue.Queue.PushUnlessFull | include/xmbase/concurrency/spsc_queue.hpp:129-135 | a push after a negative `Full` succeeds |
| SpscQueue.Queue.Size | include/xmbase/concurrency/spsc_queue.hpp:137-142 | the gauge lies between what is certainly still queued and what was queued or pushed meanwhile |
| Inbox.RunKeeps | examples/concurrency_worker_inbox_example.cpp:57-88 | on the weak memory of the queue: the invariant of queue, epoch, flag, worker and producer holds in every state of every run, whatever stale values the loads return |
| Inbox.SleeperIsOwedAWake | examples/concurrency_worker_inbox_example.cpp:12-17 | the worker never sleeps over a non-empty queue or a set flag unless the producer has still to bump or wake; with fewer than 2^32 commands no proviso is left |
| Inbox.JoinNeverWaitsForASleeper | examples/concurrency_worker_inbox_example.cpp:86-88 | while the producer joins, the worker is awake and cannot fall asleep again |
| Inbox.NothingIsLost | examples/concurrency_worker_inbox_example.cpp:76-94 | at every moment, and so at worker exit, the commands accepted by the queue are the popped ones followed by at most capacity more, in the order of sending; at the join sent plus rejected is the number of attempts; the worker exits only after the last attempt |
| Inbox.WorkerDrainsBeforeTheFlag | examples/concurrency_worker_inbox_example.cpp:60-64 | whenever the worker is about to read the flag outside its wait, it has just failed to pop and has popped every command that its view of the tail shows; what is left behind at exit it had not seen then |
| Inbox.WorkerKeepsItsOrder | examples/concurrency_worker_inbox_example.cpp:60-68 | in every run: the worker exits exactly when it read the flag there as set; work or the flag seen in the wait send it back to popping; it compares and sleeps only after reading the clock before its deadline; a passed deadline leaves one more evaluation |
| Inbox.WorkerCanExitEarly | examples/concurrency_worker_inbox_example.cpp:60-66 | for every capacity and number of commands, a run in which the worker exits with every accepted command still queued |
| Checksum.Crc16Xmodem | include/xmbase/serialization/checksum.hpp:37-46 | the nested loops compute the register that the generator's shift register leaves for the bits of the buffer, high bit first |
| Checksum.Crc8Maxim | include/xmbase/serialization/checksum.hpp:25-34 | likewise for the reflected CRC-8, low bit first |
| Checksum.Step16IsTick | include/xmbase/serialization/checksum.hpp:41-43 | one conditional shift-and-xor on 16-bit words is one tick of the generator's shift register |
| Checksum.Step8IsTick | include/xmbase/serialization/checksum.hpp:29-31 | likewise for the reflected 8-bit step |
| Lfsr.RunIsRemainder | include/xmbase/serialization/checksum.hpp:25-46 | the register after a message is congruent to the message polynomial times x^deg modulo the generator |
| ChecksumLaws.Crc16IsRemainder | include/xmbase/serialization/checksum.hpp:37-46 | a word is the CRC of a buffer if and only if its polynomial is congruent to the message times x^16 modulo x^16+x^12+x^5+1 |
| ChecksumLaws.Crc8IsRemainder | include/xmbase/serialization/checksum.hpp:25-34 | likewise modulo x^8+x^5+x^4+1, bits in transmission order |
| ChecksumLaws.Crc16DetectsBursts | include/xmbase/serialization/checksum.hpp:37-46 | different buffers of one length that differ only within 16 consecutive transmitted bits have different CRCs |
| ChecksumLaws.Crc8DetectsBursts | include/xmbase/serialization/checksum.hpp:25-34 | likewise within 8 consecutive bits, low bit of each byte first |
| ChecksumLaws.Crc16DetectsOddFlips | include/xmbase/serialization/checksum.hpp:37-46 | any odd number of flipped bits changes the CRC |
| ChecksumLaws.Crc8DetectsOddFlips | include/xmbase/serialization/checksum.hpp:25-34 | any odd number of flipped bits changes the CRC |
| ChecksumLaws.Crc16Parity | include/xmbase/serialization/checksum.hpp:37-46 | the parity of the register is the parity of the message bits |
| ChecksumLaws.Crc8Parity | include/xmbase/serialization/checksum.hpp:25-34 | likewise for the CRC-8 |
| ChecksumLaws.Crc16Residue | include/xmbase/serialization/checksum.hpp:37-46 | appending the CRC high byte first makes the CRC of the whole zero |
| ChecksumLaws.Crc8Residue | include/xmbase/serialization/checksum.hpp:25-34 | appending the CRC makes the CRC of the whole zero |
| FormatSpec.ApartIsUnique | src/telemetry_console_binding.cpp:151-154 | the grammar [0][width][.prec][type] is unambiguous: taking apart a written specification gives its pieces back |
| FormatSpec.SpecOfGrammar | src/telemetry_console_binding.cpp:151-170 | exactly the texts of the grammar are accepted, each with its clamped width and precision |
| FormatSpec.ParseSpec | src/telemetry_console_binding.cpp:170-202 | the parser accepts exactly those texts and returns that meaning; clamping on every digit is clamping the number |
| Formatter.RendersItsPieces | src/telemetry_console_binding.cpp:342-377 | a format written from literals (braces doubled) and placeholders renders to the literals and the arguments in turn, {?} once they run out |
| Formatter.BracesRoundTrip | src/telemetry_console_binding.cpp:351-356 | doubling every brace of any text and formatting it gives the text back |
| Formatter.DirectiveFits | src/telemetry_console_binding.cpp:211-221 | the printf directive built from a clamped specification never exceeds its 24-byte buffer |
| FormatBuffers.AppendRaw | src/telemetry_console_binding.cpp:204-207 | appends what still fits; the buffer then shows the unbounded text cut to its size |
| FormatBuffers.RenderNumeric | src/telemetry_console_binding.cpp:211-233 | builds the directive and appends at most 191 characters of what printf renders |
| FormatBuffers.RenderArg | src/telemetry_console_binding.cpp:237-341 | shows the argument by its specification, or by default if the specification does not apply to its type; strings cut to the precision and padded on the right to the width |
| FormatBuffers.FormatMessage | src/telemetry_console_binding.cpp:346-377 | for every buffer size from one up: exactly the first size - 1 characters of the message, a terminator, and the rest of the buffer untouched; the message is the unbounded rendering, and what the text of the format says (the two rows below) |
| FormatMeaning.ConsoleRendersAsTold | src/telemetry_console_binding.cpp:149-377 | end to end from the text of the format: doubled braces, closing braces on their own, {}, {:[0][width][.prec][type]}, other placeholders, an unclosed one; for each argument type the literal directive (%, 0, width up to 96, . and precision up to 64, conversion), the value printf gets, the cut to 191 characters, the cut and padded string, the default where the type does not apply, and {?} once the arguments run out |
| FormatMeaning.EveryTextIsAFormat | src/telemetry_console_binding.cpp:342-377 | every text is such a format, so that covers every format there is |
| FormatBuffers.AppendArg | src/telemetry_unbound.cpp:56-94 | appends the default rendering of one argument; printf's count stays below its 64-byte buffer |
| FormatBuffers.FormatInto | src/telemetry_unbound.cpp:99-125 | the same for the second formatter and its default renderings |
| FormatMeaning.UnboundRendersAsTold | src/telemetry_unbound.cpp:54-125 | likewise for the second formatter, which ignores what is between the braces |
| Formatter.ShowsAlike | src/telemetry_unbound.cpp:54-94 | a bare, empty or unsupported specification shows an argument as the second formatter does |
| Formatter.FormattersAgree | src/telemetry_unbound.cpp:96-125 | on formats whose placeholders are all bare, empty or outside the subset both formatters render the same message |
| FormatBuffers.BothFormatters | src/telemetry_unbound.cpp:99-125 | packed and formatted by either formatter, such a message leaves equal buffers of every size |
| ArgPack.DecodeEncode | include/xmbase/telemetry/binding.hpp:189-222 | the object representation of every accepted argument reads back as that argument (two's complement and byte order included) |
| ArgPack.Pack.PutRaw | include/xmbase/telemetry/binding.hpp:168-178 | keeps the argument exactly if a place and the bytes are left, as the next contiguous slice, leaving every earlier one readable; else changes nothing |
| ArgPack.Pack.PackStr | include/xmbase/telemetry/binding.hpp:181-187 | keeps a string, or the longest prefix of it that the 160 bytes and the 255 of its length byte admit, whenever a place is left |
| ArgPack.Pack.PackOne | include/xmbase/telemetry/binding.hpp:189-222 | packs each accepted type as the packing rule says; a null string as (null) |
| ArgPack.PackArgs | include/xmbase/telemetry/binding.hpp:224-229 | an in-order selection of at most 8 arguments in at most 160 bytes: numbers and booleans as passed, strings as passed or their longest prefix that fits, a null string as (null); whatever is missing came when 8 were kept, or is no string and was too large for the bytes left |
| ArgPack.SelectionIsUnique | include/xmbase/telemetry/binding.hpp:151-187 | that description leaves no choice: the inputs determine what is kept, and from where |
| ArgPack.Pack.Load | src/telemetry_console_binding.cpp:237-323 | an argument is read back from its recorded type, offset and length |
| IdGenerator.MixIsUndone | src/telemetry_unbound.cpp:165-167 | the three xorshifts and two multiplications are undone by their five inverses, so the mixing is injective and no step is missing |
| IdGenerator.PublishedOutputs | src/telemetry_unbound.cpp:158-168 | from state 0 the first ids are the published outputs of splitmix64 |
| IdGenerator.FullPeriod | src/telemetry_unbound.cpp:158-164 | from any seed the state does not repeat within 2^64 calls |
| IdGenerator.IdsAreUnique | src/telemetry_unbound.cpp:157-169 | within 2^64 calls from any seed at most one pair of calls returns equal ids, and that id is 1 |
| IdGenerator.Generator.constructor | src/telemetry_unbound.cpp:159-163 | a random draw of zero is replaced, so the seed is never zero |
| IdGenerator.Generator.NextId | src/telemetry_unbound.cpp:157-169 | the k-th call returns the k-th id of the stream, never 0 |
| Histogram.BucketsPartition | include/xmbase/telemetry/binding.hpp:96-105 | every double, NaN and the infinities included, has exactly one of the stated buckets, and `HistogramBucketOf` finds it, except that for +infinity its addition overflows an int |
| Histogram.RunKeeps | include/xmbase/telemetry/binding.hpp:121-135 | the invariant holds in every state of every run of any number of threads, with stale loads and compare-exchanges that fail, also spuriously |
| Histogram.CountAheadOfBuckets | include/xmbase/telemetry/binding.hpp:121-123 | at every moment the count exceeds the sum of the buckets by exactly the recorders between the two additions |
| Histogram.QuietTotals | include/xmbase/telemetry/binding.hpp:121-126 | once all records are complete, count, buckets and number of records agree and sum is the fold of the (not necessarily associative) addition over some permutation of the values |
| Histogram.QuietExtremes | include/xmbase/telemetry/binding.hpp:127-134 | and min and max are the true extremes of the recorded values other than NaN, or still at their seeds if there are none |
| Spans.Span.constructor | include/xmbase/telemetry/span.hpp:35-38 | installs a child of the enclosing context, or a root if that has no trace, and remembers what it replaced |
| Spans.Span.AddLink | include/xmbase/telemetry/span.hpp:53-56 | keeps a link exactly if it is valid and fewer than four are kept |
| Spans.Span.Close | include/xmbase/telemetry/span.hpp:58-64 | puts the saved context back and emits the span's own context, parent and links |
| Spans.ContextGuard.constructor | include/xmbase/telemetry/context.hpp:72-75 | installs the given context and remembers the previous one |
| Spans.ContextGuard.Close | include/xmbase/telemetry/context.hpp:76-76 | puts it back |
| Spans.Execute | include/xmbase/telemetry/span.hpp:35-81 | every well-nested run of spans, guards and links added to any open span restores the opening context and emits one record a span, in the order of closing, with the links added to that span in the order of adding, as `AddLink` keeps them |
| Spans.KeepsFirstFour | include/xmbase/telemetry/span.hpp:53-56 | links added one by one leave the first four valid ones |
| Spans.ParentIsInnermost | include/xmbase/telemetry/span.hpp:6-12 | every span is a child, in the same trace, of the innermost span or guard around it, or of the outer context if there is none, and ends before it |
| Spans.ClosingsEmit | include/xmbase/telemetry/span.hpp:58-64 | the records of a run are those of its scopes in the order in which they end, so children come before their parents |
| Spans.SpansAreDistinct | include/xmbase/telemetry/span.hpp:70-81 | records carry pairwise different span ids if the id stream does not repeat |
| Spans.RootsHaveTheirOwnTraces | include/xmbase/telemetry/span.hpp:70-81 | spans opened where no trace is start pairwise different traces if the id stream does not repeat |

## Left out

- SeqlockRing.Ring.Load: at depth one only against a dead writer that does not stall it, because elsewhere the loop of the source need not end; `SeqlockRing.Ring.LoadBounded` covers every depth, and `SeqlockRing.StallsExactlyAtDepthOne` says when a quiet ring stalls.
- SeqlockRing.Ring.LoadBounded: the retry budget is unbounded, because the source's 32-bit attempt counter would wrap only at a budget of 2^32 - 1.
- SeqlockTrace.LoadReturnsAnArgument: assumes that no repair fell between the two sequence loads of the copy returned (in `SeqlockTrace.SnapshotReturnsArguments`: of a copy taken into the snapshot), because the source's check passes otherwise (`SeqlockRing.TornAcrossRepair`).
- SeqlockReaders.RetryMeansLap: speaks of one retry. The bound on all retries of a call and the end of `Load` are proved in `SeqlockRing`, where loads interleave: on the weak memory a failed second sequence load does not force a newer cursor, so the same one can be captured again.
- Wrap-around of the 64-bit counters (ring cursor and sequences, queue indices, histogram count) at 2^64, where `% N` stops being consistent for a general N.
- Release sequences and read-modify-writes in `WeakMemory`: the locations it serves have one storing thread each, and leaving release sequences out only adds behaviours. `EventCount` states its own rule for the epoch word.
- Two concurrent writers of one ring, several producers of one queue: outside the stated contracts.
- Object lifetime and placement (storage.hpp, placement new, copies as words of trivially copyable types): cells are already allocated, a value is a list of words.
- The futex and clock system calls, the sleep-poll of other platforms, CpuRelax, cache-line alignment: an atomic compare-and-sleep step, a monotone clock, nothing.
- Inbox: the park deadline is a free choice of the clock step.
- The message slot and buffer facades, the mutex slot, `store_be16` beyond the residue statement, the additive checksum: one-line forwards or sums.
- Formatter.FormattersAgree: assumes of printf what C promises of the plain directives (`Formatter.Libc`), because digit generation and `%g` are parameters.
- FormatBuffers.FormatInto: the same assumption, because the source reads past its 64-byte buffer if printf reports 64 characters or more.
- FormatSpec.ParseSpec: says nothing about the fields of a rejected specification, because no caller reads them.
- Histogram.RunKeeps: a thread that records +infinity stops before its bucket, because the source's int addition overflows there and promises nothing; NaN is one value, zero has no sign.
- Spans.Execute: timestamps, the unbound case (no record) and a bare `SetCurrentContext` inside a scope are not modelled.
- Line assembly, write(2), colours, environment parsing, the static name tables, `InstallBinding`, `Inject` and `Extract`: plumbing and lookups.
- Geometry, quantities, vectors, stamped values, macros and the bench harness.
- Liveness under fairness: the results say who still owes a wakeup, bound steps and retries, and say that nobody blocks; they do not say that a scheduler runs it.
