# Verified models of the operating-system labs

The labs in this repository are small C programs. Most print explanations; some hold algorithms whose
correctness depends on every interleaving of their threads, or on arithmetic that no single run
settles. This project models those algorithms in Dafny, for any number of threads, items and slots
rather than for the constants in each `main`, and proves what the labs say about them. Where a lab's
claim does not hold for all inputs, the code is kept as it is, a concrete failing run is given, and
the condition under which it holds is stated as an if-and-only-if.

**How concurrency is modelled.** A Dafny method runs without interference, so code that several threads
run at once is a small-step machine (`Runs.dfy`): a state holding the shared variables and one program
counter with its live locals per thread, and a function from a state and an action to the next state,
or to `None` when that action is blocked. Every source of nondeterminism is named by the action: who
moves, which address `malloc` returns, whether a weak compare-and-swap fails for no reason, whom a
signal wakes, who wakes without a signal. A schedule is a sequence of actions, so "for every schedule"
is "for every run", and "stuck" means that no action is enabled. Memory is sequentially consistent.
Code that one thread runs on its own, such as the drain of the stack, the critical sections of the ring
buffers, the read loops and the slicing, is written as classes, arrays and loops proved against the
functions and states the machines use.

| module | lab | subject |
|---|---|---|
| `TreiberStack`, `TreiberProof`, `TreiberReclaim`, `TreiberProgress`, `TreiberDrain` | 24 | lock-free stack |
| `CondvarBuffer`, `Ring` | 22 | bounded buffer with condition variables |
| `SemaphoreBuffer`, `Ring` | 23 | bounded buffer with semaphores |
| `Seqlock` | 21 | sequence lock |
| `Rcu` | 36 | publish, wait, free |
| `RacyCounter` | 18 | lost updates |
| `BucketLocks` | 20 | coarse and per-bucket locks |
| `Futex` | 25 | sleep and wake |
| `PingPong` | 15 | passing a byte through two pipes |
| `PageCache` | page_cache_models | slicing a file and summing samples of it |
| `StridedRead` | 29 | strided page order |
| `Runs`, `Sums`, `Arithmetic` | - | runs of a machine; totals over threads; quotients and remainders |

Four claims turn out to hold only under a condition:

- The stack of lab 24 frees a popped node at once. It is linearizable in every run exactly when its
  programs never let two threads be popping after a push is done (`TreiberReclaim.FreeAtOnceExact`),
  and it completes in every run under the same condition (`TreiberProgress.CompletionExact`).
  The lab's own run, pushers first and one drain afterwards, meets the condition. With nodes kept until
  nobody holds them, every mix of pushes and pops is linearizable (`TreiberProof.GuardedLinearizable`).
- The comment at labs/lab_21_lock_variations.c:91 says "retry", but `continue` in a do-while loop goes
  to the test, where `s2` is left over from an earlier pass. The loop as written is right exactly when
  nothing is written while it runs (`Seqlock.LiteralTrustworthy`); the retry the comment describes is
  right exactly for fewer than 2^31 writes (`Seqlock.RetryTrustworthy`).
- The fixed sleep that lab 36 calls a grace period is enough exactly when there are no readers or no
  updates (`Rcu.SleepExact`).
- The order that lab 29 reports as reading "all pages" reads each page once exactly when the page count
  is not 2 modulo 4 (`StridedRead.EachOnceExact`).

## Model

| member | source | states |
|---|---|---|
| `TreiberProof.StepKeepsShape` | labs/lab_24_lockfree.c:20-31 | every load, link, compare-and-swap, free and allocation keeps the nodes from `stack_top` an acyclic chain, private nodes private and no node owned twice |
| `TreiberProof.StepKeepsInv` | labs/lab_24_lockfree.c:20-31 | every step also keeps the history of taken effects equal to a sequential stack's and to what each thread was told |
| `TreiberProof.GuardedLinearizable` | labs/lab_24_lockfree.c:18-31 | for all programs of pushes and pops and all runs in which no node is freed while another thread's pop holds it: the operations take effect one at a time, in an order a sequential stack allows, with the results the threads got; nobody touches freed memory |
| `TreiberProof.ChainUnique` | labs/lab_24_lockfree.c:18-19 | memory determines the chain from a pointer, so the chain kept as bookkeeping is the one in memory |
| `TreiberProof.GuardedRunAccounted` | labs/lab_24_lockfree.c:21-30 | no node leaks: each allocated one is on the stack or owned by a thread that will link or free it |
| `TreiberProof.LogHasReturned` | labs/lab_24_lockfree.c:23-30 | an operation takes effect between its call and its return: a thread is never ahead of or behind the history by more than the operation it is in |
| `TreiberProof.LogGrows` | labs/lab_24_lockfree.c:23-30 | the history is only ever extended: effects are never undone or reordered |
| `TreiberProof.RealTimeOrder` | labs/lab_24_lockfree.c:20-31 | for any run and any point of it: an operation that has returned by then takes effect before every operation that had not been called by then |
| `TreiberProof.RetriesBounded` | labs/lab_24_lockfree.c:20-31 | with T threads, the compare-and-swaps lost to another thread number at most T-1 times those won, for every mix of pushes and pops |
| `TreiberReclaim.NoHazardLinearizable` | labs/lab_24_lockfree.c:26-31 | freeing at once is linearizable in every run if no two threads can be popping after a push |
| `TreiberReclaim.HazardCrashes` | labs/lab_24_lockfree.c:28-30 | otherwise some run has a pop read a freed node |
| `TreiberReclaim.FreeAtOnceExact` | labs/lab_24_lockfree.c:20-31 | the stack as written is linearizable in all runs of given programs if and only if those programs have no such pair of pops, a condition on the program texts alone |
| `TreiberReclaim.AbaCorrupts` | labs/lab_24_lockfree.c:90-94 | the exercise's ABA scenario, from any state with two nodes: the stale compare-and-swap succeeds and `stack_top` is left pointing to freed memory |
| `TreiberReclaim.AbaReachable` | labs/lab_24_lockfree.c:90-94 | that state is reached from the empty stack by three threads, so a whole run ends with `stack_top` dangling |
| `TreiberReclaim.SoloPush` | labs/lab_24_lockfree.c:20-25 | a push that nobody interrupts puts its value in front in four steps, whatever `malloc` returned |
| `TreiberReclaim.SoloPop` | labs/lab_24_lockfree.c:26-31 | a pop that nobody interrupts returns and frees the top in six |
| `TreiberProgress.StuckReturned` | labs/lab_24_lockfree.c:20-31 | no deadlock, with or without the reclamation guard: nobody can move exactly when every operation has returned |
| `TreiberProgress.WaitsExact` | labs/lab_24_lockfree.c:21-30 | under the guard a free waits exactly while another pop loop refers to that very node; without it, never; `malloc` may return any free address |
| `TreiberProgress.SwapFails` | labs/lab_24_lockfree.c:23-29 | a compare-and-swap that is lost, or fails for no reason, sends the thread round its loop with nothing else changed; it can fail for no reason exactly when it would succeed |
| `TreiberProgress.RunsAreBounded` | labs/lab_24_lockfree.c:20-31 | every run of T threads has at most 3(T+1) steps per operation, plus three per spurious failure |
| `TreiberProgress.GuardedCompletes` | labs/lab_24_lockfree.c:20-31 | with the guard, a run that cannot go on has completed all programs, and only such a run |
| `TreiberProgress.NoHazardCompletes` | labs/lab_24_lockfree.c:20-31 | so has a run that frees at once, if no two threads can be popping after a push |
| `TreiberProgress.LeftBehind` | labs/lab_24_lockfree.c:28-30 | a thread stopped at a freed node can be left behind for good while the others finish |
| `TreiberProgress.CompletionExact` | labs/lab_24_lockfree.c:20-31 | the stack as written completes in all runs of given programs if and only if no two threads can be popping after a push |
| `TreiberDrain.PushPhase` | labs/lab_24_lockfree.c:20-41 | after any interleaving of pushers the stack holds the multiset of all pushed values, each thread's own newest first, and nothing else is allocated |
| `TreiberDrain.PushPhaseCompletes` | labs/lab_24_lockfree.c:40-41 | pushers always get to the end: runs are bounded, and one that cannot go on has all pushers returned and the stack filled |
| `TreiberDrain.LabContents` | labs/lab_24_lockfree.c:32-41 | after T pushers of 0..n-1 each value is there T times, T*n in all |
| `TreiberDrain.LockFreeStack.CompareExchangeWeak` | labs/lab_24_lockfree.c:24-29 | swaps exactly when the value is the expected one and the attempt does not fail for no reason |
| `TreiberDrain.LockFreeStack.Push` | labs/lab_24_lockfree.c:20-25 | under any number of spurious failures the value is put in front and nothing else changes |
| `TreiberDrain.LockFreeStack.Pop` | labs/lab_24_lockfree.c:26-31 | under any number of spurious failures the top value is returned and its node freed, or an empty stack reported |
| `TreiberDrain.LockFreeStack.Drain` | labs/lab_24_lockfree.c:43 | pops every value once, top first, and leaves no node allocated |
| `TreiberDrain.PushThenDrain` | labs/lab_24_lockfree.c:38-44 | whatever the pushers' interleaving, the drain counts T*n items, each value T times |
| `Ring.PutAppends` | labs/lab_22_condvar.c:23 | storing at the end index appends to the queue the ring stands for, wrapping included |
| `Ring.TakeRemoves` | labs/lab_22_condvar.c:32 | reading at the start index removes the oldest element |
| `Ring.EndMoves` | labs/lab_22_condvar.c:23-32 | the end index stays `(out+count) % size` when either end moves |
| `Ring.CircularBuffer.Put` | labs/lab_22_condvar.c:23 | in place on the array: the queue grows by the value at its end |
| `Ring.CircularBuffer.Take` | labs/lab_22_condvar.c:32 | in place on the array: the queue's first value is returned and removed |
| `CondvarBuffer.StepKeepsFifo` | labs/lab_22_condvar.c:20-37 | after every step, what was consumed followed by the ring's contents is what was produced, and `in_idx == (out_idx+count) % size` |
| `CondvarBuffer.StepKeepsExclusive` | labs/lab_22_condvar.c:21-35 | the mutex is held by exactly the thread inside, across waits and wakeups |
| `CondvarBuffer.StepKeepsWakeups` | labs/lab_22_condvar.c:22-39 | no wakeup is lost: all consumers sleep only while the buffer is empty or a signal is due, the producer only while it is full or one is due, nobody after the broadcast |
| `CondvarBuffer.StepKeepsInv` | labs/lab_22_condvar.c:20-40 | all of these together are inductive, unprovoked wakeups included |
| `CondvarBuffer.StepKeepsHandsOver` | labs/lab_22_condvar.c:32-36 | the value a consumer is about to return is the one it took, which is the last one taken |
| `CondvarBuffer.ReturnsInOrder` | labs/lab_22_condvar.c:28-40 | in every run the calls of `consume` return the produced values, each once and in order, whichever consumers make them |
| `CondvarBuffer.ProduceEnters` | labs/lab_22_condvar.c:21-22 | with room, the producer is in the section after two steps |
| `CondvarBuffer.ProduceLeaves` | labs/lab_22_condvar.c:25-26 | the signal wakes one waiter, any one, or nobody if nobody waits; then the mutex is free and the next item's turn or the end has come |
| `CondvarBuffer.ProduceWaits` | labs/lab_22_condvar.c:21-22 | with the buffer full, the producer is asleep and the mutex free after two steps |
| `CondvarBuffer.FinishAlone` | labs/lab_22_condvar.c:39 | the end of the producer sets `done` and wakes all waiters |
| `CondvarBuffer.ConsumeEnters` | labs/lab_22_condvar.c:29-30 | with something there, a consumer is in the section after two steps |
| `CondvarBuffer.ConsumeLeaves` | labs/lab_22_condvar.c:34-40 | a sleeping producer is woken, the mutex freed and the value returned; only a negative one ends the consumer |
| `CondvarBuffer.ConsumeNothing` | labs/lab_22_condvar.c:29-31 | with nothing there a consumer is asleep after two steps, or gone after three if the producer is done |
| `CondvarBuffer.WaitsExact` | labs/lab_22_condvar.c:20-40 | who waits for what: for the mutex while another has it, asleep until woken, and nowhere else; unprovoked wakeups exactly while asleep |
| `CondvarBuffer.NoDeadlock` | labs/lab_22_condvar.c:20-40 | with a consumer, or room for everything, a state where no thread can move is exactly one where all have exited |
| `CondvarBuffer.RunsAreBounded` | labs/lab_22_condvar.c:20-40 | every run of n items and C consumers has at most 14n + 5C + 7 steps, plus three per unprovoked wakeup |
| `CondvarBuffer.RunsComplete` | labs/lab_22_condvar.c:38-49 | a run that cannot go on has all threads exited, and the calls of `consume` have returned everything produced, once and in order |
| `CondvarBuffer.NoConsumerNeverExits` | labs/lab_22_condvar.c:22 | without consumers and with more items than slots the producer never exits |
| `CondvarBuffer.CompletionExact` | labs/lab_22_condvar.c:20-49 | every run that stops has exited if and only if there is a consumer or everything fits |
| `SemaphoreBuffer.StepKeepsInv` | labs/lab_23_mpmc_semaphore.c:21-44 | slot balance, numbering, totals, quotas and mutual exclusion are inductive |
| `SemaphoreBuffer.Conservation` | labs/lab_23_mpmc_semaphore.c:21-44 | in every reachable state semaphore counts and threads in flight sum to the buffer size; no unread slot is overwritten, no unwritten one read; the k-th get is k |
| `SemaphoreBuffer.ReportsInOrder` | labs/lab_23_mpmc_semaphore.c:33-44 | in every run the values the consumers report are 0, 1, 2, ... in this order |
| `SemaphoreBuffer.PutAlone` | labs/lab_23_mpmc_semaphore.c:23-31 | an iteration of a producer that nobody interrupts stores the next number and turns an empty slot into a full one |
| `SemaphoreBuffer.GetAlone` | labs/lab_23_mpmc_semaphore.c:35-43 | an iteration of a consumer that nobody interrupts takes the oldest value and turns a full slot into an empty one |
| `SemaphoreBuffer.WaitsExact` | labs/lab_23_mpmc_semaphore.c:24-42 | a worker waits for its semaphore while that is zero, for the mutex exactly while another is in the section, and nowhere else |
| `SemaphoreBuffer.NoDeadlock` | labs/lab_23_mpmc_semaphore.c:21-44 | with matching quotas a stuck state is a finished one |
| `SemaphoreBuffer.CompletionExact` | labs/lab_23_mpmc_semaphore.c:21-53 | for any size and quotas, all stopped runs have finished if and only if gets <= puts <= gets + size, and otherwise no run finishes |
| `SemaphoreBuffer.RunLength` | labs/lab_23_mpmc_semaphore.c:23-44 | the length of a run is the work it has done, so every run ends |
| `SemaphoreBuffer.LabRun` | labs/lab_23_mpmc_semaphore.c:48-54 | two producers and two consumers of ten always finish with both totals 20 and the values 0..19 taken in order |
| `Seqlock.Snapshot` | labs/lab_21_lock_variations.c:79-95 | with one writer and any readers, an accepted read is the single version current when `s1` was loaded, unless the counter went a full turn in between; the counter may start at any even value |
| `Seqlock.WriteAlone` | labs/lab_21_lock_variations.c:79-83 | a write stores both words of the pair and advances the counter by two, modulo 2^32 |
| `Seqlock.ReadAlone` | labs/lab_21_lock_variations.c:89-95 | between writes one pass of the loop accepts the current version, whatever the variables held |
| `Seqlock.ReadDuringWrite` | labs/lab_21_lock_variations.c:90-91 | during a write the loop reads nothing and starts over, or as written goes to its test |
| `Seqlock.RetryTrustworthy` | labs/lab_21_lock_variations.c:89-95 | from every even start of the counter, the retry the comment describes returns only whole versions in all runs if and only if the writes stay below half the counter's range |
| `Seqlock.FullTurnMixes` | labs/lab_21_lock_variations.c:75-95 | with 2^31 writes a reader can accept a mixed pair |
| `Seqlock.ContinueMixes` | labs/lab_21_lock_variations.c:91-95 | one write suffices for the loop as written to return a mixed pair through `continue` |
| `Seqlock.LiteralTrustworthy` | labs/lab_21_lock_variations.c:89-95 | from every even start of the counter, the loop as written returns only whole versions in all runs if and only if there are no writes while it runs |
| `Seqlock.Timestamp.Write` | labs/lab_21_lock_variations.c:80-83 | the pair is stored and the counter, modulo 2^32, is even again |
| `Seqlock.Timestamp.Read` | labs/lab_21_lock_variations.c:86-95 | with no writer running the loop ends, whatever `s2` held, with the stored pair and no retries |
| `Rcu.StepKeepsInv` | labs/lab_36_rcu_lockfree.c:19-31 | every step with the grace period keeps held records allocated and whole |
| `Rcu.GuardedSafe` | labs/lab_36_rcu_lockfree.c:17-31 | in every run: no reader touches freed memory, each pair read was published, no reader goes back to an older version, at most two records exist |
| `Rcu.ReadIsCurrent` | labs/lab_36_rcu_lockfree.c:19-22 | in every run, however long a read takes and whatever happens meanwhile, it returns the record that was current when it loaded the pointer |
| `Rcu.ReadNotStale` | labs/lab_36_rcu_lockfree.c:19-31 | in every run a read that begins after i updates were published returns version i or a later one |
| `Rcu.ReadAlone` | labs/lab_36_rcu_lockfree.c:19-22 | a read that nobody interrupts returns the record of the last published update |
| `Rcu.UpdateAlone` | labs/lab_36_rcu_lockfree.c:23-31 | an update that nobody interrupts publishes the next version and leaves only that record allocated |
| `Rcu.WaitsExact` | labs/lab_36_rcu_lockfree.c:19-31 | readers never wait; the writer waits exactly while a reader that loaded the old pointer is still using it |
| `Rcu.FreedUnderReader` | labs/lab_36_rcu_lockfree.c:24-29 | without it, one reader and one update suffice for a use after free |
| `Rcu.SleepExact` | labs/lab_36_rcu_lockfree.c:28 | freeing after a fixed time is safe in all runs if and only if there are no readers or no updates |
| `Rcu.Shared.Read` | labs/lab_36_rcu_lockfree.c:19-22 | reads the record the updates so far lead to |
| `Rcu.Shared.Update` | labs/lab_36_rcu_lockfree.c:23-31 | publishes a new record with the next version, leaves the old one's fields alone, and leaves one record allocated |
| `Rcu.ReadBetweenUpdates` | labs/lab_36_rcu_lockfree.c:34-39 | reads before, between and after updates see the versions one by one |
| `RacyCounter.RacyBounds` | labs/lab_18_concurrency.c:19-36 | no run of T threads of N load/store increments ends outside [least, T*N], where least is 2, or N for one thread, or 1 for N = 1 |
| `RacyCounter.LoseExactly` | labs/lab_18_concurrency.c:19-36 | any number of lost updates up to that is the outcome of a complete schedule |
| `RacyCounter.RacyOutcomes` | labs/lab_18_concurrency.c:17-36 | v is the final value of some run if and only if it is within the bounds |
| `RacyCounter.LastWriteWins` | labs/lab_18_concurrency.c:19-22 | whatever the others do between a thread's load and its store, the store leaves the counter one above what was loaded |
| `RacyCounter.RacyCompletes` | labs/lab_18_concurrency.c:19-35 | nobody ever waits, and every complete run makes exactly 2*N*T accesses |
| `RacyCounter.AtomicExact` | labs/lab_18_concurrency.c:24-40 | with fetch-and-add the counter is the number of increments made in every state, T*N at the end |
| `RacyCounter.AtomicCompletes` | labs/lab_18_concurrency.c:24-39 | nobody ever waits, and every complete run makes exactly N*T increments |
| `BucketLocks.HitsIs` | labs/lab_20_finegrained_lock.c:26-28 | bucket b is hit N/B times, once more if b < N%B |
| `BucketLocks.FineBlocks` | labs/lab_20_finegrained_lock.c:36-39 | with per-bucket locks a thread waits if and only if another is at the same bucket |
| `BucketLocks.CoarseBlocks` | labs/lab_20_finegrained_lock.c:27-29 | with the global lock it waits if and only if another is at any bucket |
| `BucketLocks.OneItem` | labs/lab_20_finegrained_lock.c:27-29 | a thread that need not wait adds one to its bucket and gives the lock back |
| `BucketLocks.FinalTable` | labs/lab_20_finegrained_lock.c:24-42 | whatever lock guards each bucket and however threads interleave, a finished table is T times that |
| `BucketLocks.NoDeadlock` | labs/lab_20_finegrained_lock.c:24-42 | a stuck state is a finished one |
| `BucketLocks.EveryRunCompletes` | labs/lab_20_finegrained_lock.c:24-56 | runs are at most 4*N*T steps long and end with that table |
| `BucketLocks.CoarseEqualsFine` | labs/lab_20_finegrained_lock.c:24-56 | any complete run under one lock and any under per-bucket locks give equal tables |
| `BucketLocks.ExpectedTotal` | labs/lab_20_finegrained_lock.c:26-41 | the entries sum to T*N |
| `BucketLocks.CountItems` | labs/lab_20_finegrained_lock.c:26-30 | one worker's loop on the array adds its share to each bucket |
| `Futex.NoSleepAfterStore` | labs/lab_25_sync_primitives.c:20-26 | once the word is set nobody falls asleep |
| `Futex.HandoffSafe` | labs/lab_25_sync_primitives.c:24-41 | sleepers return only after seeing the word set, after wake(count) at most max(0, N-count) are asleep, and main is past its joins only when all have returned |
| `Futex.WaitsExact` | labs/lab_25_sync_primitives.c:20-41 | main waits at the join exactly until all have returned, futex_wake until its wakeups are used up or nobody is asleep, and a sleeper until it is woken |
| `Futex.SleeperAlone` | labs/lab_25_sync_primitives.c:26-28 | a sleeper that finds zero is asleep after two steps, one that finds another value reports it and returns |
| `Futex.CallAfterStore` | labs/lab_25_sync_primitives.c:20-26 | futex_wait called with an old value returns at once when the word has been set |
| `Futex.RunsAreBounded` | labs/lab_25_sync_primitives.c:24-41 | at most 5N + 3 steps plus three per unprovoked wakeup: nobody spins |
| `Futex.HandoffExact` | labs/lab_25_sync_primitives.c:24-41 | every stopped run has all sleepers returned if and only if N <= count; the lab has one of each |
| `PingPong.OneMover` | labs/lab_15_context_switching.c:27-31 | exactly one side can move at any time, and which depends on the number of steps alone |
| `PingPong.GameExact` | labs/lab_15_context_switching.c:20-53 | one byte is in play in every state, only finished games are stuck, and a finished game of N rounds has 2N handoffs and 2N changes of side, the divisor of the elapsed time |
| `StridedRead.EachOnceExact` | labs/lab_29_storage_fs.c:95-110 | `i*(n/2+1) % n` visits every page exactly once if and only if n % 4 is not 2 |
| `StridedRead.HalfOrder` | labs/lab_29_storage_fs.c:98 | in the failing family the order visits only even pages, as twice the order of n/2 pages |
| `StridedRead.CountReads` | labs/lab_29_storage_fs.c:96-102 | the loop with 64-bit arithmetic reads page `i*(n/2+1) % n` at step i, and each page once if and only if n % 4 is not 2 |
| `StridedRead.LabCoversAllPages` | labs/lab_29_storage_fs.c:95-110 | 4 MiB files with power-of-two pages up to 1 MiB are fully covered |
| `PageCache.RangesAdjacent` | labs/page_cache_models.c:230-233 | ranges follow one another from 0 to the size, equal but for the last, which is longer by size % workers |
| `PageCache.RangesPartition` | labs/page_cache_models.c:230-233 | every offset is in exactly one worker's range, for every size and worker count |
| `PageCache.GlobalIdBijective` | labs/page_cache_models.c:289-291 | `p*thread_count+t` reaches every worker id from exactly one p and t |
| `PageCache.GlobalIdInRange` | labs/page_cache_models.c:289-291 | and only worker ids |
| `PageCache.ReadSumIsSamples` | labs/page_cache_models.c:118-120 | the sum of one read is that of its bytes a multiple of 4096 away from its start, for every start and length |
| `PageCache.AlignedSum` | labs/page_cache_models.c:106-122 | reads that start at multiples of 4096 sum the bytes at multiples of 4096 |
| `PageCache.ChecksumExact` | labs/page_cache_models.c:106-122 | a way of reading gives that sum for all files if and only if each of its reads starts at a multiple of 4096 |
| `PageCache.TotalIsOnePlan` | labs/page_cache_models.c:242-251 | the workers' sums together are those of one worker that makes all their reads |
| `PageCache.ModeIndependent` | labs/page_cache_models.c:218-256 | with page-multiple slices and short reads every number of workers totals the bytes at multiples of 4096 |
| `PageCache.ModesAgreeExact` | labs/page_cache_models.c:218-256 | with full reads, a worker count agrees with the single mode on all files of a size if and only if it is 1 or the slice is a multiple of 4096 |
| `PageCache.ChecksumFull` | labs/page_cache_models.c:104-122 | when reads are never short, the modes compute the full-read checksums that the if-and-only-if is about |
| `PageCache.NoWrap` | labs/page_cache_models.c:104 | the 64-bit sum does not wrap for any size below 2^63 |
| `PageCache.ReadReturns` | labs/page_cache_models.c:108-117 | what `read` may return: any number between 1 and the bytes asked for and left, 0 only at the end of the file |
| `PageCache.ServedCovers` | labs/page_cache_models.c:105-122 | under any short reads the reads of a range add up to exactly the range, or to what a shortened file has of it |
| `PageCache.ServedAt` | labs/page_cache_models.c:106-108 | the i-th read starts where those before it ended and asks for what is left of the range, at most the buffer size |
| `PageCache.AddSamples` | labs/page_cache_models.c:118-120 | the inner loop adds, modulo 2^64, exactly the bytes of the read that are a multiple of 4096 away from its start, wherever it starts |
| `PageCache.ReadRange` | labs/page_cache_models.c:104-122 | the checksum is, modulo 2^64, that of exactly the reads that any given sequence of short reads allows |
| `PageCache.PagewiseRange` | labs/page_cache_models.c:104-122 | with whole-page reads from a page boundary it is the sum of the range's bytes at multiples of 4096 |
| `PageCache.FillArgs` | labs/page_cache_models.c:230-233 | the argument array holds the ranges, of all workers or of one process |
| `PageCache.JoinWorkers` | labs/page_cache_models.c:242-251 | the joining loop adds up, modulo 2^64, the checksums of exactly the ranges in the array |
| `PageCache.RunThreads` | labs/page_cache_models.c:222-255 | single and threads modes: the checksum is the total of all workers' reads |
| `PageCache.RunWorkers` | labs/page_cache_models.c:280-313 | the threads of a process, their ids counting up from its first, contribute exactly their ranges |
| `PageCache.AddProcesses` | labs/page_cache_models.c:267-337 | the parent adds up what processes 0, 1, ... report, which covers every worker once |
| `PageCache.RunProcesses` | labs/page_cache_models.c:267-343 | processes and hybrid modes: the checksum is the same total as for one process with as many workers |
| `PageCache.AllModesAgree` | labs/page_cache_models.c:188-344 | all four modes return the same number, the exact sum of the bytes at multiples of 4096 |

## Left out

- Weak memory ordering: every machine is sequentially consistent; the acquire and release orders of labs 18, 25 and 36 are not distinguished.
- Time: `usleep`, clocks, benchmark figures and fault counters; the sleep in lab 36 becomes either an explicit grace period or nothing.
- Printed text, `/proc` and `/sys` readers, signal handlers, inline assembly and the kernel behaviour that labs only describe: no algorithm of their own.
- Failures of `malloc`, `open`, `read`, `pthread_create`, `fork` and `pipe`, which end the program in the source.
- Overflow of the `int` and `long` counters, versions and values; only the sequence counter (2^32), the checksum and the strided index (2^64) are modelled with their width.
- The `stop` flag of lab 23, which nothing sets.
- CondvarBuffer.RunsComplete: assumes non-negative items, as the producer makes them; a consumer takes a negative item for the end of the stream.
- TreiberProof.GuardedLinearizable: the reclamation guard is an assumption on runs; lab 24 has no mechanism that enforces it, which is what the exact condition is about.
- TreiberDrain.LockFreeStack.Pop: the number of spurious failures is a parameter, so a compare-and-swap that fails forever is excluded.
- Futex.HandoffSafe: futex_wake gives its wakeups one at a time instead of under one kernel lock, which allows more runs.
- PageCache.ReadRange: files are sequences that do not change during one call; a file that shrank before the call is covered.
- PageCache.RunWorkers: threads and processes run one after another, which is enough because they share nothing but the file they read.
- Rcu.Shared.Update: one thread at a time; `free` is the removal from a set of live records.
- Rwlock, trylock and recursive mutex demos (lab 21), mutex and spinlock counters (lab 19), the generation counter in lab 36: they would only repeat the atomic counter result.
