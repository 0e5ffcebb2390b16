# Verified models of the OSTEP homework simulators

This project states, in Dafny, what the harder simulators and concurrent programs of the repository do, and proves what
they are for. Each file models one source file or one part of it.

- `NoStarveMutex.dfy` is the no-starve mutex: any number of threads, interleaved one memory access or semaphore
  operation at a time, on semaphores that wake nobody in particular. One token wanders between the two turnstiles and
  the threads; from that follow mutual exclusion, freedom from races on the counters, freedom from deadlock, that
  nobody is overtaken more than twice by the same thread, and so that nobody starves.
- `DemandPaging.dfy` and `PagingPolicy.dfy` are the page replacement loop with its seven policies. The first has the
  exchange argument on sets of pages, the second the lists that the program keeps, the optimality of OPT over all
  policies, the inclusion property of LRU, and the loop itself.
- `RingBuffer.dfy` and `BoundedBuffer.dfy` are producers and consumers with two condition variables and the
  end-of-stream protocol of the main thread. Wakeups may be spurious, and a signal wakes any sleeper.
- `VectorAdd.dfy` is `vector_add` in three locking variants, for any threads, vectors and calls. Calls are serializable
  in all three. The two variants that wait for locks end every run; with trylock a run can go on for ever, but can be
  brought to its end from wherever it has got to.
- `X86.dfy` is the x86 simulator with its process list; `TicketLock.dfy` and `TestAndSet.dfy` are the ticket lock and
  the spin lock programs run on it.
- `Malloc.dfy` is the free-list allocator.
- `PageTables.dfy` is the two-level page table kept in a flat memory.
- `RaidMapping.dfy` and `RaidWrite.dfy` are the block mappings of RAID-0, 1, 4 and 5 and the write path of RAID-4 and 5.
- `Scheduler.dfy` is the process scheduler with IO.
- `ProcessTree.dfy` and `ProcessNames.dfy` are the process tree simulator and its supply of names.
- `ForkParser.dfy`, `ForkRunner.dfy` and `ForkGenerator.dfy` are the fork programs: parser, bookkeeping of the code
  generator, and random generator.
- `Counting.dfy` counts and sums over sequences, and `Sequences.dfy` has what several files say about lists.

## How to read it

A concurrent C program is a state machine: `Next` is one step of one thread, a run is any sequence of enabled steps, and
the lemmas about `Run` hold for every run. A Python simulator is a class or a set of methods with the loops of the
source; what a method does is stated by functions and predicates on values, and the lemmas are about those. Integers are
unbounded, as in Python; quotients that the source truncates are of non-negative numbers and are floor divisions. Bit
masks and shifts of page table entries are written as quotients and remainders. A random draw is any choice, or comes
from an input sequence. An assertion in the source is a `requires` clause where a caller has to see to it, and a proved
fact where the program itself does. Where the source exits with an error, a method returns false or an error value.

Conditions that the programs need and do not check are preconditions: a cache of at least one page, an IO length of at
least one, a positive size of a block with its header and alignment, a heap that does not start below zero (-1 reports
failure), fresh names in a list of forks, and code that threads do not overwrite for the ticket lock.

A few results are of the form "exactly when". Runs of the bounded buffer always finish if and only if there is a consumer
or all values fit into the buffer. The variant of `vector_add` with a global lock never deadlocks if and only if no call
names the same vector twice, and the same condition decides whether calls under trylock can always still return. What the parser of fork programs accepts can be run if and only if no wait comes before its
fork: the parser only counts them, and `ForkRunner.WaitTooEarly` is a program that it accepts and that does not run.

The write path of RAID is read as follows: reads and writes are performed in the order in which they are issued, a data
block is written with new data, and a parity block with the exclusive or of everything that has been read from its row
and newly written to it. That is one bit of every block; all bits are treated alike.

## Model

| member | source | states |
|---|---|---|
| NoStarveMutex.InitHolds | 31-Semaphores/mutex-nostarve.c:68-74 | the invariant holds after initialisation for any number of threads |
| NoStarveMutex.StepHolds | 31-Semaphores/mutex-nostarve.c:75-101 | every statement of every thread keeps it: one token, `mutex` free or held once, `room1` and `room2` equal the numbers of threads between increment and decrement, no thread computes with a stale counter |
| NoStarveMutex.RunHolds | 31-Semaphores/mutex-nostarve.c:75-101 | so it holds at the end of every run |
| NoStarveMutex.SplitToken | 31-Semaphores/mutex-nostarve.c:68-101 | in every reachable state exactly one token is in `t1`, in `t2` or with one thread, and the counters count |
| NoStarveMutex.RaceFree | 31-Semaphores/mutex-nostarve.c:77-97 | no two threads are ever about to access the same counter with one of them writing, although lines 93 and 96 do not take `mutex`; no two are about to make the same access |
| NoStarveMutex.MutualExclusion | 31-Semaphores/mutex-nostarve.c:75-101 | two threads are never both past acquire and before release |
| NoStarveMutex.SomeoneMoves | 31-Semaphores/mutex-nostarve.c:75-101 | in a state with the invariant and a thread inside acquire or release, such a thread can move |
| NoStarveMutex.NeverStuck | 31-Semaphores/mutex-nostarve.c:75-101 | no reachable state is a deadlock |
| NoStarveMutex.StepBypass | 31-Semaphores/mutex-nostarve.c:77-92 | a step never raises the number of times thread j can still overtake thread i, and overtaking uses one up |
| NoStarveMutex.BoundedBypass | 31-Semaphores/mutex-nostarve.c:77-92 | once thread i has executed `room1++`, any other thread passes line 92 at most twice before i does, in every run of any number of threads on the weakest semaphores |
| NoStarveMutex.NobodyStarves | 31-Semaphores/mutex-nostarve.c:75-101 | so a thread that has executed `room1++` gets past line 92 within 60 steps for each thread, in every run; and as long as it has not, some thread inside acquire or release can move |
| DemandPaging.SwapCostsOne | paging-policy_py/paging-policy.py:200-223 | a cache that differs from another in one page can be served with at most one more miss |
| DemandPaging.MissingCostsOne | paging-policy_py/paging-policy.py:200-223 | the same for a cache that lacks one page |
| DemandPaging.GainedPage | paging-policy_py/paging-policy.py:200-223 | a cache with one more page needs no more misses |
| DemandPaging.SoonerIsBetter | paging-policy_py/paging-policy.py:207-221 | having the page that is used sooner in place of another needs no more misses |
| DemandPaging.FurthestIsBest | paging-policy_py/paging-policy.py:200-223 | exchange argument: evicting a page whose next use is furthest away needs no more misses than any other way to serve the rest of the trace |
| PagingPolicy.ServesPages | paging-policy_py/paging-policy.py:144-250 | the page set after an access: unchanged on a hit, with the new page if there is room, with the victim replaced otherwise; never more than the cache size, never a page twice |
| PagingPolicy.EveryPolicyIsDemand | paging-policy_py/paging-policy.py:144-252 | every history of every policy is a way to serve the trace, so its misses bound the best |
| PagingPolicy.OptIsOptimal | paging-policy_py/paging-policy.py:200-223 | OPT misses at most as often as any history of any of the policies on the same trace and cache size |
| PagingPolicy.RecencyOrder | paging-policy_py/paging-policy.py:150-152 | the recency list holds each page referenced so far once, ordered by last use |
| PagingPolicy.LruKeepsTheMostRecent | paging-policy_py/paging-policy.py:145-164 | under LRU `memory` is always the most recently used pages in order of last use, as many as fit |
| PagingPolicy.LruInclusion | paging-policy_py/paging-policy.py:145-164 | the smaller LRU cache holds the tail of the list of the larger one |
| PagingPolicy.LruLargerCacheMissesLess | paging-policy_py/paging-policy.py:145-164 | so a larger LRU cache never misses more |
| PagingPolicy.LoadOrder | paging-policy_py/paging-policy.py:145-250 | under the policies that a hit does not make move pages, the list has the pages in the order in which they were loaded |
| PagingPolicy.FifoVictim | paging-policy_py/paging-policy.py:158-162 | FIFO evicts the page that was loaded first |
| PagingPolicy.LruVictim | paging-policy_py/paging-policy.py:158-164 | LRU evicts the page that was used longest ago |
| PagingPolicy.MruVictim | paging-policy_py/paging-policy.py:145-166 | MRU evicts the page that was used last |
| PagingPolicy.WhenReferenced | paging-policy_py/paging-policy.py:209-215 | the inner loop finds the next use of a page, or the length of the trace |
| PagingPolicy.FindFurthest | paging-policy_py/paging-policy.py:201-222 | the OPT loop returns the last of the positions whose page is used furthest in the future |
| PagingPolicy.FindNearest | paging-policy_py/paging-policy.py:226-242 | the UNOPT loop returns the first of the positions whose page is used soonest |
| PagingPolicy.ScanClock | paging-policy_py/paging-policy.py:177-193 | however pages are drawn, the CLOCK loop ends; every look but the last uses up a count of the page looked at, and the victim is a page with none left, which is forgotten |
| PagingPolicy.Evict | paging-policy_py/paging-policy.py:161-243 | the victim is the one the policy asks for, and only it leaves; counts change under CLOCK only |
| PagingPolicy.Access | paging-policy_py/paging-policy.py:145-262 | one access turns `memory` into what the policy promises, reports hit or miss, keeps `count` equal to the length, and counts the reference up to the clock bits |
| PagingPolicy.Solve | paging-policy_py/paging-policy.py:116-279 | the whole loop: `memory` is the end of a history of the policy, `miss` counts its misses, hits and misses add up, OPT does no worse, and for LRU the list is the recency list cut to size |
| RingBuffer.FillAppends | 30-Condition Variables/main-two-cvs-while.c:21-27 | filling a ring that is not full appends to the queue it stands for; it is full exactly if the slot at `fill_ptr` is taken |
| RingBuffer.GetTakesHead | 30-Condition Variables/main-two-cvs-while.c:29-36 | getting takes the head of the queue; the ring is empty exactly if the slot at `use_ptr` is |
| RingBuffer.SharedBuffer.DoFill | 30-Condition Variables/main-two-cvs-while.c:21-27 | in place: the check fires exactly on a full buffer, otherwise the value is appended |
| RingBuffer.SharedBuffer.DoGet | 30-Condition Variables/main-two-cvs-while.c:29-36 | in place: the check fires exactly on an empty buffer, otherwise the head is returned and removed |
| BoundedBuffer.StepSafe | 30-Condition Variables/main-two-cvs-while.c:38-72 | every step keeps: `m` free or held by one thread, the ring valid, neither check fires, and threads past their test need not wait |
| BoundedBuffer.StepFill | 30-Condition Variables/main-two-cvs-while.c:45-50 | every step keeps: if a thread sleeps on `fill` then `num_full` is at most the woken getters plus the signals about to be sent |
| BoundedBuffer.StepEmpty | 30-Condition Variables/main-two-cvs-while.c:61-66 | every step keeps: if a thread sleeps on `empty` then the free slots are at most the woken fillers plus the signals about to be sent |
| BoundedBuffer.StepStream | 30-Condition Variables/main-common.c:96-118 | every step keeps the account of what was put, taken and marked, with all values before all markers |
| BoundedBuffer.StepHolds | 30-Condition Variables/main-two-cvs-while.c:38-72 | every step, spurious wakeups included, keeps all of these |
| BoundedBuffer.FifoDelivery | 30-Condition Variables/main-two-cvs-while.c:21-72 | in every reachable state the checks have not fired, the queue has at most `max` entries, what was put is what was taken followed by the queue, and no value follows a marker |
| BoundedBuffer.NeverStuck | 30-Condition Variables/main-common.c:96-118 | with a consumer, a reachable state in which nobody can move is one in which all threads have finished |
| BoundedBuffer.StepWork | 30-Condition Variables/main-two-cvs-while.c:38-72 | every step but a spurious wakeup does work |
| BoundedBuffer.RunsEnd | 30-Condition Variables/main-common.c:96-118 | the length of a run is bounded by the number of transfers and threads and of spurious wakeups |
| BoundedBuffer.ExactlyOnce | 30-Condition Variables/main-common.c:101-118 | at the end each value 0 .. producers*loops-1 has been consumed exactly once, each consumer has taken exactly one marker, nothing else was taken or is left, and the returned counts add up to producers*loops |
| BoundedBuffer.WhenItFinishes | 30-Condition Variables/main-common.c:96-118 | runs always finish if and only if there is a consumer or all values fit into the buffer |
| VectorAdd.AddInPlace | 32-Common_Concurrency_Problems/vector-global-order.c:23-26 | the loop adds in place, entry by entry, also if both vectors are the same |
| VectorAdd.StepLocking | 32-Common_Concurrency_Problems/vector-global-order.c:12-30 | every step of every variant keeps: a lock is held exactly by the thread between its lock and unlock, and threads inside a call have what they need |
| VectorAdd.NeverLocksTwice | 32-Common_Concurrency_Problems/vector-global-order.c:19-22 | only a call with both vectors the same comes to take a lock that it holds; it then finds it taken |
| VectorAdd.LockingOrder | 32-Common_Concurrency_Problems/vector-global-order.c:12-30 | between its two lock operations a thread holds the lock of the lower address under the global order, and that of the destination elsewhere; between its two unlock operations it still holds that of the destination under the global order, and that of the source elsewhere |
| VectorAdd.AddingApart | 32-Common_Concurrency_Problems/vector-try-wait.c:24-27 | two threads in their loops work on vectors such that neither writes what the other uses |
| VectorAdd.StepHolds | 32-Common_Concurrency_Problems/vector-avoid-hold-and-wait.c:16-28 | every step keeps the vectors equal to the serial result in lock order, entry by entry for calls under way |
| VectorAdd.Serializable | 32-Common_Concurrency_Problems/vector-global-order.c:12-30 | at the end of any run of any variant the vectors are as if the calls had been made one at a time in the order in which they got their last lock, and each thread's calls are in its own order |
| VectorAdd.WhenItGetsStuck | 32-Common_Concurrency_Problems/vector-avoid-hold-and-wait.c:16-28 | address order never deadlocks, whatever the calls; the global lock never does if and only if no call names the same vector twice. A trylock never waits, so for that variant this says nothing about progress; `VectorAdd.WhenItCanFinish` does |
| VectorAdd.SelfCallNeverReturns | 32-Common_Concurrency_Problems/vector-try-wait.c:14-23 | where locks are not compared, a call with one vector twice never returns |
| VectorAdd.RunsEnd | 32-Common_Concurrency_Problems/vector-avoid-hold-and-wait.c:16-28 | every run of every variant is bounded by the sum of the costs of the calls and three steps more for each time that a trylock fails; the variants that wait have no such failures, so their runs end |
| VectorAdd.RunToTheEnd | 32-Common_Concurrency_Problems/vector-global-order.c:12-30 | in those two, every state can be run until nobody can move |
| VectorAdd.GetsBoth | 32-Common_Concurrency_Problems/vector-try-wait.c:14-23 | when all threads are about to try for their first lock, any of them gets both if left alone |
| VectorAdd.TryToTheEnd | 32-Common_Concurrency_Problems/vector-try-wait.c:14-30 | under trylock, without calls on a single vector, every state can be run until all calls have returned |
| VectorAdd.WhenItCanFinish | 32-Common_Concurrency_Problems/vector-try-wait.c:14-30 | whatever has happened, all calls can still return: under address order always, under trylock and the global lock if and only if no call names the same vector twice |
| VectorAdd.MayTryForEver | 32-Common_Concurrency_Problems/vector-try-wait.c:14-23 | but they need not under trylock: two threads that add the same two vectors in opposite directions can take one lock each, fail and back off any number of times, both moving in every round |
| VectorAdd.MainPairs | 32-Common_Concurrency_Problems/main-common.c:49-117 | each thread makes its calls on one pair of vectors: the first two, or one of its own to run in parallel; the second is added to the first, or in every other thread the other way round to cause a deadlock |
| VectorAdd.MainCanFinish | 32-Common_Concurrency_Problems/main-common.c:103-117 | the calls that the main program makes, with any of its options, never deadlock in any variant, and after any run all of them can still return |
| X86.OneRegister | x86/x86.py:173-211 | moves, sums and differences give one register its value and change nothing else |
| X86.TestThenJump | x86/x86.py:233-296 | after a test a conditional jump is taken exactly if the second operand compares with the first as its name says |
| X86.StoreThenLoad | x86/x86.py:183-192 | what is stored is loaded again from the same address |
| X86.AtomicEffects | x86/x86.py:217-228 | an exchange swaps register and cell, a fetch-and-add adds the register to the cell and gives its old value, and no other cell changes |
| X86.CallThenRet | x86/x86.py:301-308 | a return goes to the instruction after the call with the stack pointer restored, whatever was done in between, if the stack pointer and its cell are as the call left them |
| X86.PushEffects | x86/x86.py:313-324 | a push leaves the value, or the effective address, at the new stack pointer |
| X86.PopEffects | x86/x86.py:326-331 | a pop takes the room back; into a register it copies the old stack pointer |
| X86.Extend | x86/x86.py:719-774 | a further step of a thread that can make one extends an interleaving |
| X86.Simulator.Save | x86/x86.py:859-864 | saving leaves the view of the machine as threads with registers of their own unchanged |
| X86.Simulator.Restore | x86/x86.py:866-871 | restoring puts the core of the current process on the CPU |
| X86.Simulator.Advance | x86/x86.py:813-821 | the next process in turn that is not done, if there is one |
| X86.Simulator.Switch | x86/x86.py:763-767 | save, advance and restore change nothing in the view but whose turn it is |
| X86.Simulator.Execute | x86/x86.py:731-746 | the instruction at the PC is executed on the current thread's own registers and the shared memory |
| X86.Simulator.Stop | x86/x86.py:749-754 | a halt stops the current thread and goes on with the next live one in turn, if there is one |
| X86.Simulator.SetInterrupt | x86/x86.py:714-717 | the next interval is positive and at most the frequency, equal to it if not random |
| X86.Simulator.Turn | x86/x86.py:727-773 | one turn of the main loop is one step of the current thread on N CPUs with shared memory; a halt passes the turn to the next live thread, so does a yield or the end of the interval, and an interval that ends with a halt passes it twice; otherwise the thread stays and the interval is one shorter |
| X86.Simulator.Run | x86/x86.py:719-774 | so a run is an interleaving of the threads, and it returns exactly when all have halted |
| TicketLock.CycleIsLocal | x86/ticket.s:1-30 | an instruction of the program changes the registers and the three variables as the program says and leaves the code alone |
| TicketLock.StepHolds | x86/ticket.s:8-30 | every instruction keeps: the tickets from `turn` up to `ticket` are held by one thread each, and only the holder of `turn` is in the critical section |
| TicketLock.MutualExclusion | x86/ticket.s:8-23 | no two threads are in the critical section, in any interleaving |
| TicketLock.InTicketOrder | x86/ticket.s:9-16 | the k-th entry to the critical section is made with ticket k |
| TicketLock.FinalCount | x86/ticket.s:16-30 | when all threads have halted `count` is the sum over threads of max(1, bx) |
| TicketLock.StepWork | x86/ticket.s:11-14 | an instruction that is not part of a futile spin does work, and one that is changes nothing that others wait for |
| TicketLock.SomeoneProductive | x86/ticket.s:11-23 | unless all have halted, some thread is not spinning in vain |
| TicketLock.NextIsCloser | x86/x86.py:813-821 | the round robin gets closer to such a thread with each switch |
| TicketLock.TicketTurn | x86/x86.py:727-773 | one turn of the simulator on this program either does work or gets closer to a thread that can |
| TicketLock.RunTicketLock | x86/ticket.s:1-30 | total correctness on the simulator, for any number of threads, initial `bx` and interrupt intervals: it halts, and `count` is the sum of max(1, bx) |
| TestAndSet.CycleIsLocal | x86/test-and-set.s:7-26 | the effect of each instruction of the program on registers, `mutex` and `count` |
| TestAndSet.StepHolds | x86/test-and-set.s:7-26 | every instruction of every thread keeps: `mutex` is 1 exactly while one thread has the lock, and no thread counts with a stale value |
| TestAndSet.MutualExclusion | x86/test-and-set.s:7-19 | at most one thread is in the critical section, in any interleaving of any number of threads |
| TestAndSet.FinalCount | x86/test-and-set.s:7-26 | when all threads have halted `count` is the sum of max(1, bx) over the threads, and the lock is free |
| TestAndSet.CanHalt | x86/test-and-set.s:7-26 | after any run all threads can still halt |
| Malloc.PaddedIsLeast | malloc_py/malloc.py:42-51 | the padded size without the header is the least multiple of the alignment that holds the request, and with no alignment the request itself |
| Malloc.CutTiles | malloc_py/malloc.py:73-84 | splitting or removing the chosen chunk keeps free chunks and blocks tiling the heap, and the address has no block yet |
| Malloc.SortedSorts | malloc_py/malloc.py:95-107 | the list is in the order asked for |
| Malloc.SortedIsStable | malloc_py/malloc.py:99-107 | chunks with the same key stay in the order in which they were |
| Malloc.PutBackKeeps | malloc_py/malloc.py:94-107 | putting a chunk back adds it and nothing else, in order |
| Malloc.PutBackPlaces | malloc_py/malloc.py:94-107 | it goes to the front, to the back, or behind the chunks with the same key, and the others keep their order |
| Malloc.FreeTiles | malloc_py/malloc.py:89-124 | freeing a block keeps the heap tiled |
| Malloc.CoalesceList | malloc_py/malloc.py:110-121 | the coalescing loop covers the same addresses and leaves no entry that starts where the one before ends; in address order it leaves a gap between any two |
| Malloc.RunInChunk | malloc_py/malloc.py:53-71 | with gaps, a run of unallocated addresses lies within one free chunk |
| Malloc.FailsOnlyIfFull | malloc_py/malloc.py:53-87 | with gaps, some chunk is large enough if and only if that many consecutive addresses are unallocated |
| Malloc.AllFreedIsInitial | malloc_py/malloc.py:89-124 | with gaps and no blocks, the free list is the initial single chunk |
| Malloc.Allocator.constructor | malloc_py/malloc.py:7-34 | the initial list is one chunk, and the heap is tiled |
| Malloc.Allocator.AddToMap | malloc_py/malloc.py:36-38 | a new address is mapped to its size; that it is new is required |
| Malloc.Allocator.Search | malloc_py/malloc.py:53-71 | the search returns the first chunk that is adequate and smallest, largest or earliest, or -1 if none is, and the number of entries looked at |
| Malloc.Allocator.Place | malloc_py/malloc.py:73-84 | the block is cut from the front of the chunk; the invariant is kept and the address is new, so the assertion in the map never fails |
| Malloc.Allocator.Malloc | malloc_py/malloc.py:41-87 | -1 exactly if no chunk is adequate, and then nothing changes; otherwise the block chosen by the policy, which holds the header and the request, and without the header is the least aligned size that does; in address order with coalescing, -1 exactly if no unallocated run is long enough |
| Malloc.Allocator.Free | malloc_py/malloc.py:89-124 | -1 and no change for an unknown address; otherwise the block goes back to the list; once all are freed, in address order with coalescing, the list is the initial chunk |
| PageTables.WalkFindsMapping | paging-multilevel-translate/paging-multilevel-translate.py:90-151 | the walk gives frame*32+offset exactly for mapped pages, -1 if no mapped page shares the directory slot, and -2 otherwise |
| PageTables.Fields | paging-multilevel-translate/paging-multilevel-translate.py:58-71 | an address of 15 bits is its directory index, table index and offset, five bits each from the left |
| PageTables.EntryFields | paging-multilevel-translate/paging-multilevel-translate.py:90-117 | an entry is the valid bit 0x80 and seven bits for a page |
| PageTables.Isolated | paging-multilevel-translate/paging-multilevel-translate.py:139-151 | two addresses of different spaces, or of different pages, never reach the same frame, and no address reaches a page that holds a directory or a table |
| PageTables.OthersKept | paging-multilevel-translate/paging-multilevel-translate.py:113-117 | a write to data or to a table of one space leaves what all other spaces represent |
| PageTables.AddTable | paging-multilevel-translate/paging-multilevel-translate.py:123-128 | a blank page as a new table adds the table and maps nothing |
| PageTables.AddFrame | paging-multilevel-translate/paging-multilevel-translate.py:133-136 | a table entry maps its page and no other |
| PageTables.OS.FindFree | paging-multilevel-translate/paging-multilevel-translate.py:73-80 | some unused page is marked used and counted, if there is one |
| PageTables.OS.InitPageDir | paging-multilevel-translate/paging-multilevel-translate.py:82-85 | the page is blank and no other byte has changed |
| PageTables.OS.FillPage | paging-multilevel-translate/paging-multilevel-translate.py:153-155 | the page has values below 31 and no other byte has changed |
| PageTables.OS.Translate | paging-multilevel-translate/paging-multilevel-translate.py:139-151 | the result is the walk, and is what the abstract map says |
| PageTables.OS.NewTable | paging-multilevel-translate/paging-multilevel-translate.py:123-128 | a new blank table for a slot that has none; fails exactly if no page is left |
| PageTables.OS.AllocVirtualPage | paging-multilevel-translate/paging-multilevel-translate.py:119-136 | maps one more page of one process and adds a table exactly if the slot had none; the assertions of the source hold; other spaces are unchanged |
| PageTables.OS.ProcAlloc | paging-multilevel-translate/paging-multilevel-translate.py:157-181 | a new process with the requested number of distinct pages mapped, all other processes unchanged, and exactly one directory, one frame for each page and one table for each slot in use; fails only when memory is used up |
| RaidMapping.StripedBlock | 38-RAID/raid.py:194-197 | striping gives each block a place in range and is undone by counting back |
| RaidMapping.StripedPlace | 38-RAID/raid.py:194-197 | and every place is used |
| RaidMapping.StripedSteps | 38-RAID/raid.py:194-197 | striping goes through a chunk row by row and through the columns chunk by chunk, from block 0 in column 0 |
| RaidMapping.Raid0Bijection | 38-RAID/raid.py:194-197 | RAID-0: a block is at a place if and only if it is the one counted back from there |
| RaidMapping.Raid1Bijection | 38-RAID/raid.py:213-217 | RAID-1: the two disks of a pair hold the same block, and each pair and offset exactly one |
| RaidMapping.Raid01Steps | 38-RAID/raid.py:194-217 | RAID-0 goes through the disks, and RAID-1 through the pairs of disks, chunk by chunk from the first |
| RaidMapping.ParityDisk | 38-RAID/raid.py:249-283 | the parity of RAID-4 is on the last disk, and that of RAID-5 moves down by one disk with each stripe |
| RaidMapping.BlockPlaced | 38-RAID/raid.py:243-273 | RAID-4 and both RAID-5 layouts: a block is never on the parity disk of its stripe, is in the stripe it is counted in, and can be found again from its place |
| RaidMapping.PlaceFilled | 38-RAID/raid.py:243-283 | every place that is not parity holds a block |
| RaidMapping.Bijection | 38-RAID/raid.py:243-283 | a block is at a place if and only if the place is not parity and the block is the one counted back from there |
| RaidMapping.OffsetInStripe | 38-RAID/raid.py:243-273 | the offsets of stripe s are s*chunkSize and the next ones, and a chunk fills them in order |
| RaidMapping.RoundRobin | 38-RAID/raid.py:267-268 | left-symmetric: chunk k is on disk k modulo the number of disks |
| RaidMapping.ConsecutiveChunks | 38-RAID/raid.py:267-268 | so any numDisks consecutive chunks are on different disks |
| RaidMapping.InDiskOrder | 38-RAID/raid.py:264-266 | left-asymmetric, and RAID-4: of two chunks of a stripe the later one is on the higher disk |
| RaidWrite.FewerReads | 38-RAID/raid.py:287-310 | the parity method that is chosen takes the fewer reads if the part lies in one row |
| RaidWrite.MoreReads | 38-RAID/raid.py:287-310 | in several rows it can take more: one parity read is counted for the part, and one is made for each row |
| RaidWrite.ReadsSuffice | 38-RAID/raid.py:286-310 | with either method, what is read before a part is written accumulates, for every row to be written, exactly the data that is going to stay |
| RaidWrite.PartialPlaces | 38-RAID/raid.py:286-320 | after a part is written, every place has its new data, the parity of what was accumulated, or what it had |
| RaidWrite.PartialParity | 38-RAID/raid.py:286-320 | every row whose parity was the exclusive or of its data has that parity again |
| RaidWrite.PartsCover | 38-RAID/raid.py:334-354 | the parts of a request are not empty, each within one stripe, the first starts and the last ends with the request, and each starts where the one before ends |
| RaidWrite.PartsOnce | 38-RAID/raid.py:334-354 | so each block of the request is in exactly one part |
| RaidWrite.Rebuild | 38-RAID/raid.py:286-320 | with right parity, any one disk of a row is the exclusive or of the others |
| RaidWrite.JobsKeepParity | 38-RAID/raid.py:334-354 | every row keeps its parity through any number of writes |
| RaidWrite.JobsKeepData | 38-RAID/raid.py:334-354 | every block holds what was written to it last |
| RaidWrite.SurvivesLoss | 38-RAID/raid.py:254-354 | for every number of disks, chunk size and layout: after any writes to blank disks, the latest data of every block is at its place and can also be rebuilt without the disk that holds it |
| RaidWrite.Raid.ReadFirst | 38-RAID/raid.py:287-310 | the reads of the method that is chosen, in order |
| RaidWrite.Raid.DoPartialWrite | 38-RAID/raid.py:286-320 | the reads, then the data blocks, then the parity of each row once |
| RaidWrite.Raid.WritePart | 38-RAID/raid.py:340-354 | the end that the loop computes is the end of the request or of the stripe, and the next turn starts in the next stripe; with no blocks left it does nothing |
| RaidWrite.Raid.Enqueue45 | 38-RAID/raid.py:323-354 | a read goes to the blocks in order; a write is the partial writes of the parts in order; a request of no blocks does nothing |
| Scheduler.ChoseIsBusy | process_py/process-run.py:120-130 | if nothing runs, choosing the next process leaves no ready process without a running one |
| Scheduler.NextIsFirst | process_py/process-run.py:120-130 | the next process is the first ready one with a larger number than the current one, or if there is none the first of all |
| Scheduler.Simulator.NextProc | process_py/process-run.py:120-130 | the first ready process after the current one, in turn, runs; if none is ready nothing changes |
| Scheduler.Simulator.MoveTo | process_py/process-run.py:93-113 | a state changes as asked; the asserted previous state is required |
| Scheduler.Simulator.CheckIfDone | process_py/process-run.py:171-176 | a running process without instructions is done, and the next ready process runs if there is one; otherwise nothing changes |
| Scheduler.Simulator.RunNow | process_py/process-run.py:214-219 | under IO_RUN_IMMEDIATE the process whose IO is done is the one that runs |
| Scheduler.Simulator.RunIfAlone | process_py/process-run.py:220-227 | under IO_RUN_LATER it runs if it holds the CPU or is the only one that can, and otherwise nothing changes |
| Scheduler.Simulator.FinishIO | process_py/process-run.py:211-228 | the state assertions hold, only the current process runs, and under SWITCH_ON_IO a ready process implies a running one. With instructions left: under IO_RUN_IMMEDIATE, under SWITCH_ON_END, or if no other process can run, the process whose IO is done is the one that runs; under IO_RUN_LATER with SWITCH_ON_IO a running process keeps the CPU and the other is ready |
| Scheduler.Simulator.CompleteIOs | process_py/process-run.py:208-228 | exactly the process whose IO finishes at this tick stops waiting, there is at most one, and the CPU goes to whom it should; if there is none nothing changes |
| Scheduler.WhoRuns | process_py/process-run.py:205-233 | which process executes at a tick, from the state before it: the one that runs if no IO finishes; the one whose IO finishes under IO_RUN_IMMEDIATE, under SWITCH_ON_END, or if nothing runs; the one that runs under IO_RUN_LATER with SWITCH_ON_IO |
| Scheduler.WhatRuns | process_py/process-run.py:229-260 | it executes its first instruction, an IO of which finishes io_length ticks later; no other process does anything |
| Scheduler.TickOnce | process_py/process-run.py:205-268 | the state after a tick is determined by the state before it |
| Scheduler.HistoryOnce | process_py/process-run.py:205-268 | and so is the whole run |
| Scheduler.Simulator.GetIosInFlight | process_py/process-run.py:156-162 | the number of IOs in flight is the number of waiting processes |
| Scheduler.Simulator.Execute | process_py/process-run.py:230-265 | one instruction of the running process is executed, with one tick of work done; after an IO another process runs if it can |
| Scheduler.TickPasses | process_py/process-run.py:206-228 | what is left to do does not grow while IOs finish, and shrinks if a process ends or waits |
| Scheduler.SomethingWaits | process_py/process-run.py:205-268 | if nothing runs and not everything was done, something waits or has just ended |
| Scheduler.Simulator.Tick | process_py/process-run.py:205-268 | every tick keeps the invariant, does work, and is the tick described by `Scheduler.WhoRuns` and `Scheduler.WhatRuns`; IOs of different processes finish at different ticks |
| Scheduler.Simulator.Run | process_py/process-run.py:178-269 | the run is the one history of ticks from the first process running; all processes end with no instructions left; `cpu_busy` is the number of instructions and of ticks that execute one, `io_busy` the number of ticks with an IO in flight, at most IOs*(io_length-1), and clock_tick is at least the instructions and at most instructions + IOs*(io_length-1) + processes |
| ProcessTree.CollectOnce | cpu_api/fork.py:161-168 | collecting from a process lists it and each of its descendants exactly once and nothing else |
| ProcessTree.RootListsAll | cpu_api/fork.py:161-168 | from the root every live process is listed exactly once |
| ProcessTree.CollectParentsFirst | cpu_api/fork.py:161-168 | every process is listed before its descendants |
| ProcessTree.CollectOlderFirst | cpu_api/fork.py:161-168 | and an older sibling with all its descendants before a younger one with its |
| ProcessTree.ForkKeeps | cpu_api/fork.py:154-159 | a fork with a fresh name keeps one tree in which children and parents are inverse |
| ProcessTree.ForkAddsLeaf | cpu_api/fork.py:154-159 | the new process is the last child of its parent and has none, and nothing else changes |
| ProcessTree.ExitLocalKeeps | cpu_api/fork.py:178-195 | so does an exit that gives the orphans to the parent |
| ProcessTree.OrphansMoveUp | cpu_api/fork.py:178-195 | the orphans have their grandparent as parent and follow its other children in order; every other process keeps its parent and its list of children |
| ProcessTree.ExitRootKeeps | cpu_api/fork.py:183-195 | and one that gives all descendants to the root |
| ProcessTree.DescendantsBecomeLeaves | cpu_api/fork.py:183-195 | after an exit to the root every descendant is a leaf child of the root, and every other process but the root keeps its parent and its children other than the one that left |
| ProcessTree.RootChildren | cpu_api/fork.py:183-195 | they follow the other children of the root in the order in which they are collected |
| ProcessTree.Forker.CollectChildren | cpu_api/fork.py:161-168 | the recursion ends and returns that list |
| ProcessTree.Forker.DoFork | cpu_api/fork.py:154-159 | the tree with the new leaf |
| ProcessTree.Forker.DoExit | cpu_api/fork.py:170-198 | the root is refused; otherwise the tree of the chosen mode, and the process is off the list |
| ProcessTree.LeafOutcome | cpu_api/fork.py:262-265 | if leaves only may exit nobody gets a new parent, in either mode: an action adds a child, takes a process without children away, or leaves everybody's parent as it is |
| ProcessTree.Forker.Perform | cpu_api/fork.py:253-267 | an action is refused, and changes nothing, exactly if the process is not live, or is the root and should exit; but if leaves only may exit, the exit of a live process with children, the root included, is skipped: it is not refused and changes nothing. Otherwise the tree is that of the fork or of the exit in the chosen mode |
| ProcessTree.Forker.Run | cpu_api/fork.py:253-267 | with fresh names the tree is kept throughout. Without leaf-only exits exactly the legal lists are accepted, and the live processes are those of the list. With them, exactly the lists are accepted in which live processes act and the root exits only while it has children, and the live processes and their parents are those of the forks and of the exits without living children |
| ProcessNames.Names.GrowNames | cpu_api/fork.py:78-85 | every name of the old length with every letter behind it, all different |
| ProcessNames.Names.GetName | cpu_api/fork.py:87-93 | a name that has never been given out, over any number of calls |
| ProcessNames.MakeActions | cpu_api/fork.py:229-251 | whatever the random choices, the list of actions is legal and its names are fresh |
| ForkParser.ParsesItems | cpu_api/generator.py:460-496 | the parser gets past the printed form of any items with balanced bodies, adding their actions and their count |
| ForkParser.RoundTrip | cpu_api/generator.py:460-502 | a printed program with equal fork and wait counts at every level is read back as its flattened actions |
| ForkParser.AcceptsPrinted | cpu_api/generator.py:460-502 | whatever is accepted is the printed form of such a program |
| ForkParser.Parse | cpu_api/generator.py:444-502 | accepts exactly the token lists that print such a program, and returns its actions |
| ForkRunner.RunsIffTimely | cpu_api/generator.py:280-302 | a program with names of its own runs without a wait on an empty list or an exit with children outstanding if and only if every wait comes after its fork and every process waits for all its children |
| ForkRunner.ParsedRuns | cpu_api/generator.py:304-328 | what the parser accepts runs if and only if no wait comes too early; at the end the first process is current, no parent is left on the list, and nobody has anybody to wait for |
| ForkRunner.WaitTooEarly | cpu_api/generator.py:490-492 | any program that waits and then forks is accepted by the parser and does not run |
| ForkRunner.CodeGenerator.AddExit | cpu_api/generator.py:280-294 | succeeds exactly if no child is outstanding and there is a parent to go back to |
| ForkRunner.CodeGenerator.AddWait | cpu_api/generator.py:296-302 | succeeds exactly if there is a child to wait for, and takes the first |
| ForkRunner.CodeGenerator.Generate | cpu_api/generator.py:304-328 | the bookkeeping of the loop is that of the actions one after the other |
| ForkGenerator.ProgramGenerator.AddForkBegin | cpu_api/generator.py:346-364 | a fork of the next name with the time drawn is appended and opens a level; fails, with nothing appended, exactly when the 52 names are used up |
| ForkGenerator.ProgramGenerator.CleanUp | cpu_api/generator.py:376-382 | a wait for each child not yet waited for and, except for the first process, an exit are appended; the process becomes an item of its parent |
| ForkGenerator.ProgramGenerator.Generate | cpu_api/generator.py:384-427 | whatever the draws, the result is the flattened form of a balanced program in which no wait comes too early, with names used once, and so the code generator succeeds on it |

## Left out

- X86.Simulator.Run: stops after a given number of turns, since a program need not halt; `TicketLock.RunTicketLock` has no such bound.
- X86.Simulator.Execute: an instruction read as data stops the machine, where the source would move its text.
- X86 `load` and `getarg`, the text of programs: instructions are a datatype. Tracing and the `rdump` and `mdump` instructions.
- PageTables.OS.FindFree: any unused page; that the loop of random draws finds one is not modelled.
- PageTables.UnusedPage: the same for the choice of a virtual page.
- VectorAdd: the counter `retry` (`vector-try-wait.c:20`), a statistic that is updated without a lock.
- NoStarveMutex: a thread may go through acquire and release any number of times, where `worker` does so once.
- BoundedBuffer: the sleeps `p0` to `c6`, return codes of the thread library, and the printed trace.
- Malloc: the random and listed requests of the main program, which only call `malloc` and `free`.
- RaidWrite: `disk.enqueue` with its seek times and the assertion on the size of a disk, and the loops over blocks of RAID-0 and RAID-1, which issue one or two operations a block.
- Scheduler: reading programs from files or from random draws, and what is printed at each tick.
- ProcessTree: the text of actions and the drawing of the tree. An entry that the source sets to -1 is removed from the maps.
- ProcessNames.MakeActions: a draw of the root for an exit is skipped; that other draws follow is not modelled.
- ForkParser: splitting the text of a program into words.
- ForkRunner: the C code that is written, and with it indentation and sleeps. The loop over the module-level list of actions is one over its argument.
- ForkGenerator: the chances of the three kinds of draw.
- The readable code generator, and the main programs with their options and printed answers.
- `barrier.c`, `rendezvous.c`, `fork-join.c` and the reader-writer locks: the same kind of proof as the no-starve mutex, with fewer steps.
- The deliberately wrong variants of the buffer and of the vectors, and `flag.s`: one run shows what goes wrong.
- `relocation.py`, `segmentation.py`, `paging-linear-translate.py` and `schedular.py`: arithmetic with few branches.
- Socket servers, file utilities, measurements, the disk simulators and the graphical RAID simulator.
