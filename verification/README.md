# Userland lock protocols

A model, with machine-checked proofs, of the locks of this repository and of the
programs that run them: the cohort lock C-PTL-TKT, the CLH queue lock, the spin, yield and
futex locks with the kernel's watch on a waiting thread's record, Anderson's array
lock and the ticket lock with trylock; the two benchmark kernels as clients of a
lock; the choice of CPUs and the pinning of threads; and the name filters of the
drivers.

## How a lock is modelled

Every lock has two forms.

- `XxxSpec` is a state machine on values. One access to shared memory by one thread is
  one step, and any thread may take the next step. Tickets are unbounded; some fields
  are history, which no branch looks at. `XxxInv` and `XxxTheorems` prove an
  invariant, and from it statements about every run.
- `XxxLock` is a class with the lock's real words: `uint32_t` counters that wrap, the
  slot and flag arrays, the heap of nodes, the kernel records of the threads. It has
  one method for each access in the source. Each is proved to take the matching step
  of the machine, so every history of method calls is a run, and what is proved of
  runs with unbounded tickets holds of the wrapping words.

`Mutex` is the one abstract lock all of them refine: a history of acquisitions and
releases. The benchmarks are proved once over it, and `BenchClients` puts them on each
lock.

CPU sets, CPU selection, pinning and the filters are methods with the source's own
loops over arrays, proved against what their result means.

## Assumptions

- Every access is one sequentially consistent step, and accesses of a thread take place
  in program order, except that the cohort lock's unlock may swap its last two stores,
  as its comment allows. In particular the futex unlock's load of `waiters` follows its
  store of `mem`; the comment in user-dev/src/locks/lock-base.h:203-208 credits the
  x86-64 memory model with this order, but that model alone does not give it for a plain store
  followed by a load.
- An armed thread may be given the processor only while `*watch_mem == watch_for`
  (`watch_neq` zero), as user-dev/src/autolock-impls/sys/autolock-kernel-abi.h:9-14 and
  the comment at user-dev/src/autolock-impls/locks/internal/lock-base.h:181-196 describe.
- `futex_wait` compares and sleeps in one step, and may return without a wake;
  `futex_wake` with count one wakes one sleeper if there is one.
- The allocator returns any address that is not live, with any content.
- There are fewer than 2^32 threads, and the cohort lock's slot count divides 2^32.
- Basic regular expressions mean what section 9.3 of POSIX.1-2017 XBD says, in the C locale.

## What is proved

- Mutual exclusion of every lock, over every run of any number of threads; FIFO order of the
  CLH, array and ticket locks; absence of deadlock for all of them, and for the CLH and
  spin locks that the thread that can go on is one the kernel may schedule.
- The cohort lock's handoffs, its slots, the order of entry within a socket, the bound of 101
  critical sections for each global ticket ahead, that 101 is attained and when exactly an
  owner hands over, and that a bound from the call of lock exists only with one socket.
- That the CLH lock never touches a dead node and leaks none, although freed addresses
  come back.
- That trylock of the spin locks ends within its two accesses and lock does not end without
  the lock; that no wakeup is lost in the futex locks, and that the two orders their comments insist on
  are necessary: without them the lock hangs.
- Exact limits: 128 threads for the array lock, counters that do not come round during a
  trylock of the ticket lock, `cs_iter` dividing the total for the total-work benchmark (its
  power of two, if the 64-bit counter may wrap), filters without a period for the translation
  into regular expressions.
- That over a mutex both benchmarks end whatever the schedule, at the count the runner compares
  with; that CPU selection
  is exact, that pinning is balanced, and what the filters run and report.

## Where the code and its comments differ

- The comment at user-dev/src/locks/lock-bench.h:105-109 speaks of a set amount of total
  work. When `cs_iter` does not divide it, the counter steps over it and no thread leaves
  in fewer than 2^64 steps (`BenchTotal.NobodyLeaves`); after a wrap it may be met
  (`BenchWrap.CanFinishExactly`).
- A filter's period is not escaped, so it stands for any character
  (`Glob.ExactlyWithoutPeriod`).
- The debug-only assertion at user-dev/src/util/func-decl-utils.c:89 reads the stored state
  before it is updated. Where assertions of that kind are compiled in, it fails exactly
  if some filter hits the first declaration (`RunDecls.Run`, `RunDecls.AssertionFails`).
- The array lock's waiting hint subtracts an unreduced `head` from a slot
  (user-dev/src/autolock-impls/locks/internal/aepfl-lock-base.h:209). It is right for the
  wrapped tickets below 128 and for threads that are not near (`ArrayLock.HintRightExactly`),
  and wrong for the others, first for ticket 128 (`ArrayLock.HintFails`). It only tunes the
  waiting.
- The array lock's trylock loads `tail` for the head it means to compare with
  (user-dev/src/autolock-impls/locks/internal/aepfl-lock-base.h:105-108), so it can succeed
  while the lock is held (`ArrayTry.BothInside`). It is right exactly when no ticket is out
  (`ArrayTry.RightExactlyWhenFree`).
- The cohort lock refills `batch_count` only when an owner sees a waiter and finds the count
  zero. It starts at zero, so before its first refill a socket's ownerships cover one section;
  and what an ownership that ends without a waiter has spent is missing in the socket's next one
  (`CohortBatch.HandsOverExactly`, `CohortAttained.CarriedOver`).

## Model

| member | source | states |
|---|---|---|
| CohortInv.InitInv | user-dev/src/autolock-impls/locks/internal/cptltkt-lock-base.h:175-186 | the zeroed lock satisfies the invariant, for any number of sockets and threads |
| CohortInv.StepInv | user-dev/src/autolock-impls/locks/internal/cptltkt-lock-base.h:126-268 | every access of lock and unlock by any thread, and the permitted swap of unlock's last two stores, keeps it: each outstanding local and global ticket has one taker, one owner of the global lock at most, every slot holds the newest granted ticket of its class |
| CohortInv.LastGrantStep | user-dev/src/autolock-impls/locks/internal/cptltkt-lock-base.h:148-153 | storing the next ticket into its slot is what keeps every slot at the newest granted ticket of its residue class |
| CohortTheorems.RunMutualExclusion | user-dev/src/autolock-impls/locks/internal/cptltkt-lock-base.h:126-268 | in every run at most one thread is between lock's return and the releasing store of unlock |
| CohortTheorems.RunRefines | user-dev/src/autolock-impls/locks/internal/cptltkt-lock-base.h:126-268 | the acquisitions and releases of every run are a history of the abstract mutex |
| CohortTheorems.HandoffIntegrity | user-dev/src/autolock-impls/locks/internal/cptltkt-lock-base.h:133-143 | while socket_grant is set that socket owns the served global ticket and the local ticket being granted already has a waiting taker |
| CohortTheorems.UnlockNamesOwnLock | user-dev/src/autolock-impls/locks/internal/cptltkt-lock-base.h:129-150 | at unlock cur_psl is the caller's socket and owner_req_num the served global ticket, although a handoff rewrites neither |
| CohortFairness.WaitersOnDistinctSockets | user-dev/src/autolock-impls/locks/internal/cptltkt-lock-base.h:194-241 | two waiting global tickets were drawn by threads of different sockets |
| CohortFairness.OutstandingTickets | user-dev/src/autolock-impls/locks/internal/cptltkt-lock-base.h:239-241 | at most one global ticket per socket is outstanding (one more while grant is stored before the release) |
| CohortFairness.WaitersOnDistinctSlots | user-dev/src/autolock-impls/locks/internal/cptltkt-lock-base.h:239-257 | two waiting threads never watch the same slot |
| CohortFairness.ReleaseOverwritesNoAwaitedGrant | user-dev/src/autolock-impls/locks/internal/cptltkt-lock-base.h:148-153 | a release overwrites a slot value older than every ticket still awaited, and wakes only the taker of the next ticket |
| CohortFairness.OwnershipBound | user-dev/src/autolock-impls/locks/internal/cptltkt-lock-base.h:133-146 | while one global ticket is served at most 101 critical sections are entered |
| CohortFairness.ServedIsNext | user-dev/src/autolock-impls/locks/internal/cptltkt-lock-base.h:224-267 | while a waiting thread's global ticket is the one served nobody else enters |
| CohortFairness.BoundedBypass | user-dev/src/autolock-impls/locks/internal/cptltkt-lock-base.h:133-146 | a thread whose global ticket is d behind the served one sees at most 101 * d entries of others before its own, in every run |
| CohortFairness.BypassPerSocket | user-dev/src/autolock-impls/locks/internal/cptltkt-lock-base.h:239-257 | and hence at most 101 per socket |
| CohortAttained.BoundAttained | user-dev/src/autolock-impls/locks/internal/cptltkt-lock-base.h:133-146 | the 101 are attained: for any number of sockets and two or more threads some run enters 101 times while one global ticket is served |
| CohortAttained.ExactOwnershipBound | user-dev/src/autolock-impls/locks/internal/cptltkt-lock-base.h:133-146 | so the least bound on the sections one global ticket covers, over all runs, is 101 |
| CohortBatch.TallyRun | user-dev/src/autolock-impls/locks/internal/cptltkt-lock-base.h:133-146 | over every run batch_count is what a count of refills and handovers says: never filled, 0; filled and h handovers since, 100 - h |
| CohortBatch.HandsOverExactly | user-dev/src/autolock-impls/locks/internal/cptltkt-lock-base.h:133-146 | an owner that sees a waiter hands over if and only if its socket's batch was ever filled and the sections entered since the ticket was taken, with the handovers carried over from earlier ownerships, are fewer than 101; an ownership before the first filling covers one section |
| CohortBatch.DecisionCarriedOut | user-dev/src/autolock-impls/locks/internal/cptltkt-lock-base.h:136-151 | handing over leaves the lock to the socket and the ticket served, the other decision releases to the next ticket |
| CohortAttained.CarriedOver | user-dev/src/autolock-impls/locks/internal/cptltkt-lock-base.h:133-146 | batch_count is not refilled by a release that sees no waiter: some run hands over 100 times, releases so, and in the socket's next ownership the first waiter is not handed the lock after one section |
| CohortBatch.OrderDoesNotMatter | user-dev/src/autolock-impls/locks/internal/cptltkt-lock-base.h:151-154 | unlock's last two stores lead to the same state in either order |
| CohortOrder.EnteredStep | user-dev/src/autolock-impls/locks/internal/cptltkt-lock-base.h:129-267 | every entry is by the front of its socket's queue, and only the store of grant moves the queue on |
| CohortOrder.SocketFifo | user-dev/src/autolock-impls/locks/internal/cptltkt-lock-base.h:196-221 | the threads of one socket enter in the order of their fetch_adds on its requests |
| CohortArrival.OneSocketBound | user-dev/src/autolock-impls/locks/internal/cptltkt-lock-base.h:196-221 | with one socket only the threads ahead in its queue enter before a thread that has called lock |
| CohortArrival.NoBoundFromArrival | user-dev/src/autolock-impls/locks/internal/cptltkt-lock-base.h:224-241 | with two or more sockets and threads, for every n some run lets others enter n times before a thread that has called lock first and not yet drawn its global ticket |
| CohortArrival.ExactlyOneSocket | user-dev/src/autolock-impls/locks/internal/cptltkt-lock-base.h:190-241 | a bound on overtaking from the call of lock on, over all runs, exists if and only if there is one socket |
| CohortFairness.NoDeadlock | user-dev/src/autolock-impls/locks/internal/cptltkt-lock-base.h:126-268 | whenever a thread is inside lock, the critical section or unlock, some thread has a step that changes the state |
| CohortLock.LocalCompareExact | user-dev/src/autolock-impls/locks/internal/cptltkt-lock-base.h:208-210 | the 32-bit comparison of grant and ticket decides equality of the unbounded tickets |
| CohortLock.RequestsCompareExact | user-dev/src/autolock-impls/locks/internal/cptltkt-lock-base.h:133-134 | the 32-bit comparison of requests and next_grant tells whether another local ticket is out |
| CohortLock.GlobalCompareExact | user-dev/src/autolock-impls/locks/internal/cptltkt-lock-base.h:252-255 | the 32-bit comparison of a slot and a ticket decides equality of the unbounded tickets |
| CohortLock.SlotExact | user-dev/src/autolock-impls/locks/internal/cptltkt-lock-base.h:240-241 | the slot of the wrapped ticket is the slot of the ticket if the slot count divides 2^32 |
| CohortLock.Lock.constructor | user-dev/src/autolock-impls/locks/internal/cptltkt-lock-base.h:175-186 | all words zero; the words stand for the initial state of the machine |
| CohortLock.Lock.FetchAddRequests | user-dev/src/autolock-impls/locks/internal/cptltkt-lock-base.h:194-197 | draws the local ticket: one step of the machine, and the wrapped ticket is returned |
| CohortLock.Lock.LoadLocalGrant | user-dev/src/autolock-impls/locks/internal/cptltkt-lock-base.h:208-221 | succeeds exactly when the unbounded local ticket is granted |
| CohortLock.Lock.LoadSocketGrant | user-dev/src/autolock-impls/locks/internal/cptltkt-lock-base.h:227-229 | tells whether the global lock was handed over |
| CohortLock.Lock.StoreSocketGrantZero | user-dev/src/autolock-impls/locks/internal/cptltkt-lock-base.h:230-232 | takes the handed-over lock |
| CohortLock.Lock.FetchAddRequest | user-dev/src/autolock-impls/locks/internal/cptltkt-lock-base.h:239-240 | draws the global ticket |
| CohortLock.Lock.LoadGlobalGrant | user-dev/src/autolock-impls/locks/internal/cptltkt-lock-base.h:252-255 | reads the slot of the wrapped ticket and succeeds exactly when the unbounded global ticket is the one served |
| CohortLock.Lock.StoreCurPsl | user-dev/src/autolock-impls/locks/internal/cptltkt-lock-base.h:265 | records the owner's socket |
| CohortLock.Lock.StoreOwnerReqNum | user-dev/src/autolock-impls/locks/internal/cptltkt-lock-base.h:266 | records the owner's global ticket |
| CohortLock.Lock.LoadCurPsl | user-dev/src/autolock-impls/locks/internal/cptltkt-lock-base.h:129 | unlock finds a non-NULL cur_psl, that of the caller's own socket |
| CohortLock.Lock.LoadGrant | user-dev/src/autolock-impls/locks/internal/cptltkt-lock-base.h:131-132 | computes next_grant modulo 2^32 |
| CohortLock.Lock.LoadRequests | user-dev/src/autolock-impls/locks/internal/cptltkt-lock-base.h:133-134 | tells whether another thread of the socket has drawn a local ticket and not been served |
| CohortLock.Lock.LoadBatchCount | user-dev/src/autolock-impls/locks/internal/cptltkt-lock-base.h:135 | decides between handing over and releasing |
| CohortLock.Lock.DecBatchCount | user-dev/src/autolock-impls/locks/internal/cptltkt-lock-base.h:136 | batch_count is one less than before |
| CohortLock.Lock.StoreSocketGrantOne | user-dev/src/autolock-impls/locks/internal/cptltkt-lock-base.h:137-138 | announces the handoff |
| CohortLock.Lock.StoreGrantHandoff | user-dev/src/autolock-impls/locks/internal/cptltkt-lock-base.h:141-142 | passes the lock to the next local ticket |
| CohortLock.Lock.ResetBatchCount | user-dev/src/autolock-impls/locks/internal/cptltkt-lock-base.h:145 | an empty batch_count becomes 100 |
| CohortLock.Lock.LoadOwnerReqNum | user-dev/src/autolock-impls/locks/internal/cptltkt-lock-base.h:148 | computes the next global ticket modulo 2^32 |
| CohortLock.Lock.StoreGlobalGrant | user-dev/src/autolock-impls/locks/internal/cptltkt-lock-base.h:149-153 | releases the global lock to the next ticket, through the slot of the wrapped ticket |
| CohortLock.Lock.StoreGrantLast | user-dev/src/autolock-impls/locks/internal/cptltkt-lock-base.h:154-155 | grants the next local ticket after the release |
| CohortLock.Lock.StoreGrantFirst | user-dev/src/autolock-impls/locks/internal/cptltkt-lock-base.h:151-155 | grants it before the release, the reordering the source allows |
| ClhInv.InitInv | user-dev/src/autolock-impls/locks/internal/clh-lock-base.h:141-154 | init's single unlocked node satisfies the invariant |
| ClhInv.StepInv | user-dev/src/autolock-impls/locks/internal/clh-lock-base.h:89-221 | every access, with malloc returning any address that is not live, keeps the queue, ownership, heap and kernel-record invariants |
| ClhTheorems.RunMutualExclusion | user-dev/src/autolock-impls/locks/internal/clh-lock-base.h:104-221 | mutual exclusion in every run, whatever the racy test on head reads |
| ClhTheorems.RunRefines | user-dev/src/autolock-impls/locks/internal/clh-lock-base.h:104-221 | the acquisitions and releases of every run are a history of the abstract mutex |
| ClhTheorems.Fifo | user-dev/src/autolock-impls/locks/internal/clh-lock-base.h:161-163 | the lock is acquired exactly in the order of the exchanges on tail |
| ClhTheorems.AccessesAreLive | user-dev/src/autolock-impls/locks/internal/clh-lock-base.h:104-215 | no step of lock, unlock or destroy reads, writes or frees a dead node |
| ClhTheorems.LiveNodesExact | user-dev/src/autolock-impls/locks/internal/clh-lock-base.h:117-130 | the live nodes are the queue's nodes and those allocated and not yet queued, and no others |
| ClhTheorems.FreedOnce | user-dev/src/autolock-impls/locks/internal/clh-lock-base.h:117-130 | over every run allocations and frees balance with the live nodes |
| ClhTheorems.DestroyLeavesNothing | user-dev/src/autolock-impls/locks/internal/clh-lock-base.h:89-93 | destroying the idle lock leaves no node: as many frees as allocations, init's included |
| ClhTheorems.ArmedThread | user-dev/src/autolock-impls/locks/internal/clh-lock-base.h:169-178 | an armed watch_mem points to a live node, and the thread is schedulable exactly if it is the front of the queue and the lock is released |
| ClhTheorems.NoDeadlock | user-dev/src/autolock-impls/locks/internal/clh-lock-base.h:166-215 | the owner, or the front of the queue once the lock is released, is schedulable and moves |
| ClhLock.Lock.constructor | user-dev/src/autolock-impls/locks/internal/clh-lock-base.h:141-154 | tail is the unlocked sentinel, head is NULL |
| ClhLock.Lock.NodeNew | user-dev/src/autolock-impls/locks/internal/clh-lock-base.h:124-127 | a node at any address that is not live, its memory holding whatever the allocator left |
| ClhLock.Lock.StoreNodeLocked | user-dev/src/autolock-impls/locks/internal/clh-lock-base.h:128 | the store hits the thread's own live node, which is not in the queue |
| ClhLock.Lock.ExchangeTail | user-dev/src/autolock-impls/locks/internal/clh-lock-base.h:162-163 | enqueues the node and returns the predecessor's; both are live |
| ClhLock.Lock.LoadPrev | user-dev/src/autolock-impls/locks/internal/clh-lock-base.h:166-206 | the load hits a live node, and finds it unlocked exactly at the front of the queue of a released lock |
| ClhLock.Lock.SetWatchFor | user-dev/src/autolock-impls/locks/internal/clh-lock-base.h:173 | sets watch_for in the thread's record |
| ClhLock.Lock.SetWatchNeq | user-dev/src/autolock-impls/locks/internal/clh-lock-base.h:174 | sets watch_neq in the thread's record |
| ClhLock.Lock.SetWatchMem | user-dev/src/autolock-impls/locks/internal/clh-lock-base.h:175-212 | arms on a live node; disarms only at the front of the queue of a released lock |
| ClhLock.Lock.IsNextInQueue | user-dev/src/autolock-impls/locks/internal/clh-lock-base.h:180 | while a thread is in its critical section the unsynchronised comparison with head tells who is next |
| ClhLock.Lock.NodeFree | user-dev/src/autolock-impls/locks/internal/clh-lock-base.h:215 | the predecessor's node was live and is not any more |
| ClhLock.Lock.SaveHead | user-dev/src/autolock-impls/locks/internal/clh-lock-base.h:219 | head is a live, locked node, and the thread holds the lock |
| ClhLock.Lock.ReadHead | user-dev/src/autolock-impls/locks/internal/clh-lock-base.h:106 | unlock reads the head it stored, a live, locked node |
| ClhLock.Lock.StoreNodeUnlocked | user-dev/src/autolock-impls/locks/internal/clh-lock-base.h:106-107 | the store hits a live node and releases the lock, and the front of the queue can then move |
| ClhLock.Lock.FreeTail | user-dev/src/autolock-impls/locks/internal/clh-lock-base.h:89-93 | frees the last node |
| SpinInv.InitInv | user-dev/src/autolock-impls/locks/internal/lock-base.h:100-116 | the initial state of every build satisfies the invariant |
| SpinInv.StepInv | user-dev/src/autolock-impls/locks/internal/lock-base.h:130-341 | every access and system call of every build keeps it: the word is locked exactly while owned, waiters counts the announced threads, armed records are right, no sleeper is forgotten |
| SpinInv.CounterKept | user-dev/src/autolock-impls/locks/internal/lock-base.h:330-339 | waiters stays the number of threads between the increment and the decrement, and never wraps |
| SpinTheorems.RunMutualExclusion | user-dev/src/autolock-impls/locks/internal/lock-base.h:130-341 | at most one owner, in every run of every build |
| SpinTheorems.RunRefines | user-dev/src/autolock-impls/locks/internal/lock-base.h:130-341 | the acquisitions and releases of every run are a history of the abstract mutex |
| SpinTheorems.NoLostWakeup | user-dev/src/locks/lock-base.h:177-219 | if a thread sleeps, waiters covers the sleepers, every unlocker that loads it wakes, and the lock is owned or a thread in lock or unlock is awake |
| SpinTheorems.OwnerCanRun | user-dev/src/autolock-impls/locks/internal/lock-base.h:181-197 | an owner is never armed: the kernel may always run it |
| SpinTheorems.UnlockedAllRun | user-dev/src/autolock-impls/locks/internal/autolock-common-user-api.h:125-161 | once the word is unlocked every awake thread is schedulable, armed or not |
| SpinTheorems.NoDeadlock | user-dev/src/autolock-impls/locks/internal/lock-base.h:171-341 | whenever a thread uses the lock, the owner is schedulable and moves; if there is no owner, a schedulable thread moves that finds the word free or is still in unlock |
| SpinTheorems.FreeWordIsWon | user-dev/src/autolock-impls/locks/internal/lock-base.h:171-341 | while the word is free an awake contender comes nearer to its exchange with every step, does not fall asleep, and wins with the exchange |
| SpinTheorems.NeverStuck | user-dev/src/autolock-impls/locks/custom-backoff-autolock.h:33-69 | so no run of this loop, or of any build, reaches a state in which all users sleep, are kept off the processor or find the word locked |
| SpinTheorems.ArmedOwnerHangs | user-dev/src/autolock-impls/locks/internal/lock-base.h:181-197 | without clearing watch_mem before the exchange the deadlock of the comment is reached |
| SpinTheorems.LateStoreLosesWakeup | user-dev/src/locks/lock-base.h:203-208 | with the load of waiters before the store of mem a waiter sleeps for ever on an unlocked word |
| SpinCalls.TrylockEnds | user-dev/src/autolock-impls/locks/internal/lock-base.h:130-143 | over every run a trylock ends within two accesses of its own: with the word locked at once, nothing else changed; otherwise its load goes on to the exchange and its exchange acquires the lock |
| SpinCalls.TrylockAnswers | user-dev/src/autolock-impls/locks/internal/autolock-common-user-api.h:100-109 | each access of a trylock that finds the word locked ends the call and leaves word, counter, owner, records and other threads alone; one that finds it free goes on or acquires |
| SpinCalls.LockNeverFails | user-dev/src/locks/lock-base.h:104-196 | over every run a thread in lock stays in lock until it acquires |
| SpinCalls.LockReturnsLocked | user-dev/src/locks/lock-base.h:104-196 | so a thread that has called lock is idle again only after its critical section |
| SpinCalls.InternalRounds | user-dev/src/autolock-impls/locks/internal/lock-base.h:267-325 | iter_count falls below -128, or -4, after the failing round that ends the raw, or the yield, loop, if there is another way to wait |
| SpinCalls.TemplateRounds | user-dev/src/locks/lock-base.h:115-180 | a loop of lock_ops ends with the failing round that reaches its limit, if it has one, and the next way to wait is the yield loop, the futex, or the plain trylock |
| SpinCalls.AfterTheFutex | user-dev/src/autolock-impls/locks/internal/lock-base.h:270-341 | after futex_wait the internal locks go back to the raw loop, lock_ops to the plain trylock |
| SpinSpec.Internal | user-dev/src/autolock-impls/locks/internal/lock-base.h:229-302 | every build of internal/lock-base.h is one the theorems cover; its rounds are those of SpinCalls.InternalRounds |
| SpinSpec.Template | user-dev/src/locks/lock-base.h:104-196 | every instance of lock_ops, whatever its round limits, is one the theorems cover; its rounds are those of SpinCalls.TemplateRounds |
| SpinLock.Lock.constructor | user-dev/src/autolock-impls/locks/internal/lock-base.h:100-116 | word unlocked, no waiters, no record armed |
| SpinLock.Lock.LoadWord | user-dev/src/autolock-impls/locks/internal/autolock-common-user-api.h:102 | finds the word locked exactly while somebody owns the lock; then a trylock is over with nothing changed, and a lock goes on contending |
| SpinLock.Lock.ExchangeWord | user-dev/src/autolock-impls/locks/internal/autolock-common-user-api.h:103-105 | wins exactly if the word was free, and then unarmed; otherwise the word, the owner and the counter stay, a trylock is over with nothing changed, and a lock goes on contending |
| SpinLock.Lock.SetWatchMem | user-dev/src/autolock-impls/sys/autolock-kernel-api.h:116-121 | an armed record waits for the unlocked value; a disarmed thread is schedulable |
| SpinLock.Lock.SetWatchFor | user-dev/src/autolock-impls/sys/autolock-kernel-api.h:122-127 | sets the value waited for |
| SpinLock.Lock.SetWatchNeq | user-dev/src/autolock-impls/sys/autolock-kernel-api.h:128-133 | sets the sense of the comparison |
| SpinLock.Lock.FetchAddWaiters | user-dev/src/locks/lock-base.h:182-183 | the counter goes up by one, without wrapping, to the number of announced threads |
| SpinLock.Lock.FetchSubWaiters | user-dev/src/locks/lock-base.h:192-193 | withdraws it; the counter does not go below zero |
| SpinLock.Lock.FutexSleep | user-dev/src/locks/lock-base.h:187 | sleeps exactly if the word is locked, atomically; then the lock has an owner and the counter is not zero |
| SpinLock.Lock.StoreUnlocked | user-dev/src/locks/lock-base.h:198-201 | the owner releases the word, and every awake thread is schedulable |
| SpinLock.Lock.LoadWaiterCount | user-dev/src/locks/lock-base.h:209-210 | unlock wakes exactly if the counter is not zero, and that it is whenever a thread sleeps |
| ArraySpec.FlagIsOwn | user-dev/src/autolock-impls/locks/internal/aepfl-lock-base.h:194-198 | a waiter finds its slot's flag set exactly when its ticket is served and the lock is free |
| ArraySpec.TicketsFit | user-dev/src/autolock-impls/locks/internal/aepfl-lock-base.h:143-147 | no more tickets are out than threads, hence slots |
| ArraySpec.StepInv | user-dev/src/autolock-impls/locks/internal/aepfl-lock-base.h:121-236 | every access keeps the invariant |
| ArrayTheorems.OneFlag | user-dev/src/autolock-impls/locks/internal/aepfl-lock-base.h:121-135 | at most one flag is set, none while unlock is between its stores, and head is the holder's ticket until unlock raises it |
| ArrayTheorems.RunRefines | user-dev/src/autolock-impls/locks/internal/aepfl-lock-base.h:121-236 | the acquisitions and releases of every run are a history of the abstract mutex |
| ArrayTheorems.Fifo | user-dev/src/autolock-impls/locks/internal/aepfl-lock-base.h:194 | the lock is acquired in the order of the fetch_adds on tail |
| ArrayTheorems.ExactThreadBound | user-dev/src/autolock-impls/locks/internal/aepfl-lock-base.h:39 | all runs exclude if and only if there are no more threads than slots |
| ArrayTheorems.NoDeadlock | user-dev/src/autolock-impls/locks/internal/aepfl-lock-base.h:185-237 | some user of the lock can always move |
| ArrayLock.SlotExact | user-dev/src/autolock-impls/locks/internal/aepfl-lock-base.h:143-147 | slots survive the wrap of the counter since 128 divides 2^32 |
| ArrayLock.GetNextSlot | user-dev/src/autolock-impls/locks/internal/aepfl-lock-base.h:149-152 | the slot after a ticket's is that of the next ticket |
| ArrayLock.Lock.constructor | user-dev/src/autolock-impls/locks/internal/aepfl-lock-base.h:170-183 | counters zero, flag 0 set and no other |
| ArrayLock.Lock.FetchAddTail | user-dev/src/autolock-impls/locks/internal/aepfl-lock-base.h:143-147 | the slot of the unbounded ticket |
| ArrayLock.Lock.LoadFlag | user-dev/src/autolock-impls/locks/internal/aepfl-lock-base.h:197-228 | succeeds exactly if the thread's ticket is served and nobody holds the lock |
| ArrayLock.HintRightExactly | user-dev/src/autolock-impls/locks/internal/aepfl-lock-base.h:209-210 | the waiting hint tells who is within two tickets of head if and only if the wrapped ticket is below 128 or the thread is not that near |
| ArrayLock.HintFails | user-dev/src/autolock-impls/locks/internal/aepfl-lock-base.h:209-210 | for every other ticket, first ticket 128, a run leads to a thread that is next and is told that it is not |
| ArrayLock.Lock.IsNear | user-dev/src/autolock-impls/locks/internal/aepfl-lock-base.h:209-210 | the hint holds exactly if the wrapped ticket is below 128 and at most two past head |
| ArrayLock.Lock.FetchAddHead | user-dev/src/autolock-impls/locks/internal/aepfl-lock-base.h:127 | returns the holder's own slot |
| ArrayLock.Lock.StoreLocked | user-dev/src/autolock-impls/locks/internal/aepfl-lock-base.h:128-129 | clears the holder's flag |
| ArrayLock.Lock.StoreUnlocked | user-dev/src/autolock-impls/locks/internal/aepfl-lock-base.h:131-133 | sets the flag of the next ticket |
| ArrayTry.RightExactlyWhenFree | user-dev/src/autolock-impls/locks/internal/aepfl-lock-base.h:104-118 | a trylock that succeeds keeps the lock's invariant if and only if no ticket is out when it does |
| ArrayTry.FreeSuccessesExclude | user-dev/src/autolock-impls/locks/internal/aepfl-lock-base.h:104-118 | over every run whose trylocks succeed only then, lock, trylock and unlock exclude each other |
| ArrayTry.BothInside | user-dev/src/autolock-impls/locks/internal/aepfl-lock-base.h:105-114 | since both values compared are loads of tail, some run lets a trylock succeed while another thread holds the lock |
| ArrayTry.ExcludesOnlyAlone | user-dev/src/autolock-impls/locks/internal/aepfl-lock-base.h:104-118 | with trylock in use all runs exclude if and only if there is no second thread |
| TicketSpec.StepInv | user-dev/src/autolock-impls/locks/internal/simple-ticket-lock-base.h:42-132 | every access of lock, trylock and unlock keeps the invariant while the counters do not wrap |
| TicketSpec.CasTakesServedTicket | user-dev/src/autolock-impls/locks/internal/simple-ticket-lock-base.h:44-56 | a trylock whose compare_exchange succeeds holds the served ticket, though its two loads are not atomic together |
| TicketTheorems.RunMutualExclusion | user-dev/src/autolock-impls/locks/internal/simple-ticket-lock-base.h:42-132 | lock, trylock and unlock exclude each other in every run |
| TicketTheorems.RunRefines | user-dev/src/autolock-impls/locks/internal/simple-ticket-lock-base.h:42-132 | the acquisitions and releases of every run are a history of the abstract mutex |
| TicketTheorems.Fifo | user-dev/src/autolock-impls/locks/internal/simple-ticket-lock-base.h:92-93 | the lock is acquired in the order in which tickets are drawn, by lock or trylock |
| TicketWrap.WrapsStep | user-dev/src/autolock-impls/locks/internal/simple-ticket-lock-base.h:42-132 | as long as fewer than m tickets are drawn since a trylock's first load, a step on counters of m values is the step on unbounded ones |
| TicketWrap.TimelyRunsExclude | user-dev/src/autolock-impls/locks/internal/simple-ticket-lock-base.h:42-132 | in such runs of fewer than m threads exclusion holds with counters of m values |
| TicketWrap.TimelyCasTakesServed | user-dev/src/autolock-impls/locks/internal/simple-ticket-lock-base.h:44-56 | and a compare_exchange that succeeds takes the served ticket of a free lock |
| TicketWrap.WrappedTrylockFails | user-dev/src/autolock-impls/locks/internal/simple-ticket-lock-base.h:49-56 | with counters of m values and two or more threads some run breaks exclusion |
| TicketWrap.ExactCounters | user-dev/src/autolock-impls/locks/internal/simple-ticket-lock-base.h:49-56 | exclusion holds of all runs if and only if the counters never wrap or there is no second thread |
| TicketTheorems.NoDeadlock | user-dev/src/autolock-impls/locks/internal/simple-ticket-lock-base.h:85-132 | a ticket holder can always move |
| TicketLock.Lock.constructor | user-dev/src/autolock-impls/locks/internal/simple-ticket-lock-base.h:66-82 | both counters zero |
| TicketLock.Lock.FetchAddNext | user-dev/src/autolock-impls/locks/internal/simple-ticket-lock-base.h:92-93 | the wrapped ticket |
| TicketLock.Lock.LoadCur | user-dev/src/autolock-impls/locks/internal/simple-ticket-lock-base.h:96-132 | the 32-bit difference is zero exactly if the ticket is served, and then the thread holds the lock |
| TicketLock.Lock.TryLoadNext | user-dev/src/autolock-impls/locks/internal/simple-ticket-lock-base.h:44-45 | trylock's first load |
| TicketLock.Lock.TryLoadCur | user-dev/src/autolock-impls/locks/internal/simple-ticket-lock-base.h:46-49 | goes on exactly if the two counters agree |
| TicketLock.Lock.TryExchangeNext | user-dev/src/autolock-impls/locks/internal/simple-ticket-lock-base.h:50-55 | wins exactly if next_count is still the value loaded, unless it fails spuriously |
| TicketLock.Lock.ReadCur | user-dev/src/autolock-impls/locks/internal/simple-ticket-lock-base.h:61 | the load of the increment |
| TicketLock.Lock.WriteCur | user-dev/src/autolock-impls/locks/internal/simple-ticket-lock-base.h:61 | the store of the increment serves the next ticket |
| TicketLock.Lock.Excludes | user-dev/src/autolock-impls/locks/internal/simple-ticket-lock-base.h:42-132 | while no trylock is delayed over 2^32 draws one thread at most is inside |
| TicketLock.Lock.CasTakesServed | user-dev/src/autolock-impls/locks/internal/simple-ticket-lock-base.h:49-55 | and a compare_exchange that will succeed before 2^32 draws takes the served ticket |
| BenchPerThread.NoLostUpdate | user-dev/src/locks/lock-bench.h:77-93 | over any mutex history the counter of a finished run is the expected count, although an increment is a load and a store |
| BenchPerThread.ExpectedCountIsProduct | user-dev/src/locks/lock-runner.c:204-206 | the 64-bit products are threads * outer_iter * cs_iter modulo 2^64 |
| BenchPerThread.RunLength | user-dev/src/locks/lock-bench.h:77-93 | no schedule takes more than threads * outer_iter * (2 * cs_iter + 2) steps, and a finished one takes exactly as many |
| BenchPerThread.UnfinishedGoesOn | user-dev/src/locks/lock-bench.h:77-93 | and an unfinished run can go on |
| BenchPerThread.UnlockedUpdateLost | user-dev/src/locks/lock-bench.h:17 | without the lock an update is lost |
| BenchPerThread.Counter.Work | user-dev/src/locks/lock-bench.h:82-84 | the loop over cs_iter adds cs_iter modulo 2^64 and is the run of loads and stores of the holder |
| BenchTotal.BoundaryCount | user-dev/src/locks/lock-bench.h:159-174 | if cs_iter divides the total, the counter is a multiple of cs_iter at every lock boundary, never above the total, and whoever left did so at the total |
| BenchTotal.RunsAreBounded | user-dev/src/locks/lock-bench.h:149-180 | then no schedule takes more than 5 * total + 3 * threads steps |
| BenchTotal.TotalWorkCompletes | user-dev/src/locks/lock-bench.h:149-180 | an unfinished run can go on, and a finished one has the counter at the total |
| BenchTotal.NobodyLeaves | user-dev/src/locks/lock-bench.h:162-166 | if cs_iter does not divide the total no thread leaves, in any run shorter than 2^64 steps |
| BenchTotal.FinishesExactlyWhenItFits | user-dev/src/locks/lock-bench.h:149-180 | in runs shorter than 2^64 steps the benchmark can finish if and only if cs_iter divides the total |
| BenchWrap.LeavingMeets | user-dev/src/locks/lock-bench.h:162-166 | in a run of any length a thread leaves only if the power of two in cs_iter divides the total |
| BenchWrap.CanFinishExactly | user-dev/src/locks/lock-bench.h:149-180 | and some run, however long, finishes if and only if it does; the counter may wrap |
| BenchWrap.MeetsAfterWrap | user-dev/src/locks/lock-bench.h:149-180 | so a total of two in critical sections of three is met, after a wrap |
| BenchClients.LegalCountsRight | user-dev/src/locks/lock-runner.c:194-208 | over any mutex history both benchmarks end at get_expected_count |
| BenchClients.OverCohort | user-dev/src/locks/lock-runner.c:303-305 | over every run of the cohort lock |
| BenchClients.OverClh | user-dev/src/locks/lock-runner.c:303-305 | over every run of the CLH lock |
| BenchClients.OverSpin | user-dev/src/locks/lock-runner.c:303-305 | over every run of every spin, yield and futex build |
| BenchClients.OverArray | user-dev/src/locks/lock-runner.c:303-305 | over every run of the array lock with enough slots |
| BenchClients.OverTicket | user-dev/src/locks/lock-runner.c:303-305 | over every run of the ticket lock |
| CpuSet.Cset.constructor | user-dev/src/thread/cpuset.h:22-27 | the empty set |
| CpuSet.Cset.Zero | user-dev/src/thread/cpuset.h:12-15 | the empty set |
| CpuSet.Cset.Copy | user-dev/src/thread/cpuset.h:17-20 | the other set |
| CpuSet.Cset.Set | user-dev/src/thread/cpuset.h:118 | adds the CPU if it has a bit |
| CpuSet.Cset.Clr | user-dev/src/thread/cpuset.h:123 | removes the CPU |
| CpuSet.Cset.IsSet | user-dev/src/thread/cpuset.h:119 | membership |
| CpuSet.Cset.Count | user-dev/src/thread/cpuset.h:120 | the number of members |
| CpuSet.Cset.Equal | user-dev/src/thread/cpuset.h:121 | equality of the sets |
| CpuSet.Cset.OrEq | user-dev/src/thread/cpuset.h:126-129 | union |
| CpuSet.Cset.And | user-dev/src/thread/cpuset.h:124 | intersection |
| CpuSet.Cset.Empty | user-dev/src/thread/cpuset.h:131-136 | emptiness |
| CpuSet.Cset.Test | user-dev/src/thread/cpuset.h:138-143 | whether the sets meet |
| CpuSet.Cset.First | user-dev/src/thread/cpuset.h:145-156 | the least CPU below ncpus, -1 exactly if there is none |
| CpuSet.Cset.CopyFirst | user-dev/src/thread/cpuset.h:158-164 | the singleton of the least CPU |
| CpuSet.Cset.ClrFirst | user-dev/src/thread/cpuset.h:166-171 | removes the least CPU |
| CpuSet.Cset.All | user-dev/src/thread/cpuset.h:174-183 | exactly the CPUs below nprocs, whole bytes and rest |
| CpuSelect.EightCpusWellFormed | user-dev/src/util/topology/8-conf.h:13-49 | the sibling table of the 8-CPU machine partitions its CPUs |
| CpuSelect.EightCpusTable | user-dev/src/util/topology/8-conf.h:13-49 | CPU c of the 8-CPU machine has core c % 4, and shares it with the CPUs that agree with it modulo 4 |
| CpuSelect.EightCpusChoices | user-dev/src/locks/lock-runner.c:98-175 | there three CPUs of whole cores are 0, 4 and 5, and five with cores first are 0 to 4 |
| CpuSelect.SelectCoresFirst | user-dev/src/locks/lock-runner.c:148-175 | terminates with exactly num_cpus CPUs in range, none left out for a less preferred one |
| CpuSelect.CoresFirst | user-dev/src/locks/lock-runner.c:158-162 | no hyper-thread is used while a core is not |
| CpuSelect.CoresThenThreads | user-dev/src/locks/lock-runner.c:148-175 | in terms of the core numbers alone: with a chosen CPU every core goes before a hyper-thread, and the lower CPU first |
| CpuSelect.CoreByCore | user-dev/src/locks/lock-runner.c:98-146 | in terms of the sibling sets alone: with a chosen CPU every core whose least CPU is lower is chosen whole, and of its own core the higher CPUs |
| CpuSelect.TakeGroup | user-dev/src/locks/lock-runner.c:108-131 | a whole group is added if less than what is wanted, and none of it was there before |
| CpuSelect.SelectWholeCores | user-dev/src/locks/lock-runner.c:98-146 | exactly num_cpus CPUs in range, whole groups in order, and neither assertion trips |
| CpuSelect.Trim | user-dev/src/locks/lock-runner.c:136-143 | drops the lowest CPUs of the last group, as many as are too many |
| CpuSelect.OneSplit | user-dev/src/locks/lock-runner.c:118-145 | at most one core is used in part |
| CpuSelect.LeadingUnique | user-dev/src/locks/lock-runner.c:98-175 | both selections are determined by their size |
| CpuSelect.FromList | user-dev/src/locks/lock-runner.c:8-40 | the listed CPUs that exist; dies exactly if there is none |
| CpuSelect.SetAllowable | user-dev/src/locks/lock-runner.c:42-180 | every branch in terms of the arguments: without a list, with num_cpus not positive and pin_cpus off nothing is pinned; a listed CPU that exists, a positive num_cpus or pin_cpus pins to a nonempty set, which is the list, all CPUs, or the selection of num_cpus |
| Pinning.NextPin | user-dev/src/locks/lock-runner.c:277-284 | the next CPU in ascending cyclic order |
| Pinning.PinTrials | user-dev/src/locks/lock-runner.c:267-295 | the pins of all threads of all trials are the allowed CPUs in turn, carried over between trials |
| Pinning.PinThreads | user-dev/src/locks/lock-runner.c:250-295 | from the arguments to the pins: none by default, otherwise a nonempty set of allowed CPUs, in each case which, and thread k of all trials gets the k-th of them in ascending cyclic order, each the floor or the ceiling of its share |
| Pinning.Balanced | user-dev/src/locks/lock-runner.c:272-289 | after n threads the j-th allowed CPU has had n / m of them, and one more if j < n % m |
| Pinning.FloorOrCeiling | user-dev/src/locks/lock-runner.c:272-289 | every allowed CPU gets the floor or the ceiling of its share and no other CPU any |
| Glob.BuildMatcher | user-dev/src/util/func-decl-utils.c:14-51 | all writes fit the buffer of 2 * len + 3, the C string in it is the translation of the filter, and the flag tells whether it has a '*' |
| Glob.Preserved | user-dev/src/util/func-decl-utils.c:31-49 | the built expression accepts exactly the names the filter stands for; Glob.TextMeans and Glob.StarMeans say what that is, Glob.CaseIgnored that case does not matter |
| Glob.TextMeans | user-dev/src/util/func-decl-utils.c:31-49 | text without '*' stands for itself in any case |
| Glob.StarMeans | user-dev/src/util/func-decl-utils.c:31-49 | '*' stands for any text, the empty one included |
| Glob.PlainExactly | user-dev/src/util/func-decl-utils.c:31-49 | the expression for a filter without '*' and '.' accepts the filter's own text in any case and nothing else |
| Regex.SameLetterExactly | user-dev/src/util/func-decl-utils.c:49 | two characters are the same under REG_ICASE exactly if they are equal or the upper and the lower case of one of the 26 letters |
| Glob.CaseIgnored | user-dev/src/util/func-decl-utils.c:49 | changing the case of letters in a filter or in a name changes no match |
| Glob.NothingMissed | user-dev/src/util/func-decl-utils.c:31-49 | with periods too it misses none |
| Glob.ExactlyWithoutPeriod | user-dev/src/util/func-decl-utils.c:31-49 | it is right for all names if and only if the filter has no period |
| RunDecls.LookAt | user-dev/src/util/func-decl-utils.c:77-94 | one filter's turn: compiled once, not looked at again after its only hit; the debug-only assertion fails exactly at a hit on the first name |
| RunDecls.ShouldRunDecl | user-dev/src/util/func-decl-utils.c:62-97 | says whether some filter selects the name, and the states then stand for the names seen |
| RunDecls.Run | user-dev/src/util/func-decl-utils.c:122-164 | the selected declarations run once each and in declared order, all of them without filters; the report is the filters at the positions, in order, that hit nothing; the debug-only assertion fails exactly if some filter hits the first declaration |
| RunDecls.AssertionFails | user-dev/src/util/func-decl-utils.c:88-91 | as a filter that is the first declaration's name does |
| RunDecls.UnfoundExactly | user-dev/src/util/func-decl-utils.c:150-163 | a reported filter stands for no declared name, and one without a period that stands for none is reported |
| RunDecls.RunsExactly | user-dev/src/util/func-decl-utils.c:139-146 | a declaration runs exactly if there are no filters, or one stands for its name and has a '*' or stands for no earlier name |

## Left out

- CohortFairness.BoundedBypass: the bound counts from the moment the thread has its global ticket. From its call of lock there is a bound only with one socket: CohortArrival.ExactlyOneSocket.
- CohortTheorems.RunMutualExclusion: is about the build without the kernel watch; so are the theorems of the array and the ticket lock. The cohort lock rewrites watch_for while watch_mem still points at the local grant, and the other two set watch_mem before watch_for, so no schedulability is claimed for them.
- SpinTheorems.NoDeadlock: says that some thread goes on, not that every waiter gets the lock: the spin locks promise no order.
- ClhLock.Lock.NodeNew: the NULL of an exhausted allocator is excluded; the source would write through it.
- BenchTotal.FinishesExactlyWhenItFits: is about runs shorter than 2^64 steps; BenchWrap.CanFinishExactly has the condition without that limit.
- CpuSelect.FromList: gets the numbers that strtol reads, not the text of the list.
- Glob.Preserved: filters with a backslash or a bracket are not covered, as the model of regular expressions has neither.
- Glob.NothingMissed: the same.
- Glob.ExactlyWithoutPeriod: the same.
- RunDecls.Run: regexec is a parameter, and a filter that does not compile, at which the source dies, is not modelled.
- RunDecls.UnfoundExactly: filters with a backslash or a bracket are not covered.
- RunDecls.RunsExactly: nor are filters with a period; RunDecls.Run covers all filters in terms of what they match.
- ArrayTry.BothInside: the array lock's trylock is modelled on unbounded tickets, not on the words of ArrayLock.Lock, whose runs are those of lock and unlock.
- CohortBatch.HandsOverExactly: an owner is not said to hand over in every ownership until 101 sections are entered, because what earlier ownerships of its socket spent counts: CohortAttained.CarriedOver.
- The trylocks of the CLH lock, which always fails, and of the cohort lock, which asserts that it is not called.
- The iteration counts of lock_wait, pauses, yields and backoff lengths: waiting is any number of re-checks. The rounds after which the spin locks change their way of waiting are modelled.
- The return value of unlock in the futex locks, which treats the count of woken threads as an error.
- Registers and locals of a thread: the methods of the lock classes take and return them, and their values are tied to the thread's part of the machine's state.
- Weak memory beyond the swap named above, timing, prefetching.
- mcs-lock-base.h, clh-lock-base-hypothesis.h, the built-in allocator, the restartable-sequence lock with its inline assembly, and the 96-CPU table, whose byte-style initialisers fill words.
- The contention mask of the total-work benchmark: both of its uses are instantiated without it.
- Statistics, arguments, printing, files, thread creation and joining, the virtual system call and interposition glue, and the scripts.
