# Verified models of the synchronisation, scheduling, caching and copying exercises

The project models six components of the repository and proves what they keep over every
run. Concurrent code is a step machine: threads with program counters, locks as words or
owner fields, one step per lock operation, load, store, copy, signal or test, and any
schedule as a list of actions. Code that works on linked structures or buffers is a class
or a method that updates them in place; its contract ties the new state to a value function,
and the machines use the same value functions.

| files | component |
|---|---|
| `QueueData`, `QueueHeap`, `QueueMonitor`, `QueueInvariant`, `QueueTheorems`, `QueueRuns`, `QueueHarness`, `QueueHarnessRuns` | the bounded queue in its baseline, condition-variable, mutex, semaphore and spinlock forms, the writer/reader test program, and what both can do |
| `ListHeap`, `ListMachine`, `ListInvariant`, `ListTheorems`, `ListCounts`, `ListRuns`, `Inversions` | the list with one lock per node, its scanners, swappers and printer, what its statistics count and what its threads can do |
| `CustomLock`, `CustomLockRuns`, `CustomLockFinish` | the hand-made spinlock and futex mutex with owner field, the counter clients, and what their runs can come to |
| `UserScheduler` | the user-level round-robin scheduler and its counted loops |
| `CacheValues`, `CacheHeap`, `CacheLru`, `CacheAgreement`, `CacheRuns`, `CacheWritten` | the proxy cache list, its eviction policy, runs of any operations on it, and the runs the code as written completes |
| `CacheEntryProtocol`, `CacheEntryRuns` | the publication of one cache entry to its readers |
| `ReverseFile`, `ReverseTree`, `ReverseOrder`, `ReverseWalk` | the backwards copy of files and directory trees |
| `Counting`, `Wrappers`, `Bytes`, `CStrings` | how many threads satisfy a predicate, optional values, bytes, and strings in buffers |

Some properties one would expect hold only under a condition. Each is proved with its exact
condition, for every start, history or tree:

- no increment under the hand-made locks is lost, and all finished clients leave T times N in
  the counter, if and only if the lock is the futex mutex, or no client unlocks without
  locking, or there is one client at most, or nothing to do
  (`CustomLockRuns.UpdatesSurviveIff`, `CustomLockRuns.FinalCounterIff`);
- a futex waiter can be left asleep with the mutex free and nobody left to wake it if and only
  if there are two clients and something to do, because the wait expects the value 0
  (`CustomLockRuns.CanStrandIff`);
- from any reachable state in which no client is a rogue, all clients can still finish by their
  own steps if and only if the mutex is not free with everybody finished, asleep on it or about
  to fall asleep on it (`CustomLockFinish.CanFinishIff`); that is a larger set than the stranded
  states (`CustomLockFinish.DoomedAwake`), and one spurious return rescues any of them
  (`CustomLockFinish.CanFinishWithSpurious`);
- some run aborts if and only if the lock is the futex mutex and a client unlocks without
  locking, or FUTEX_WAIT can fail and two clients have something to do, or FUTEX_WAKE can fail
  and one client has (`CustomLockRuns.CanAbortIff`);
- every rearrangement of the list comes about in some run if and only if a thread is a swapper
  or the list has one node (`ListRuns.CanRearrangeIff`);
- the writer of the test program comes to add i while the reader expects e if and only if
  0 <= e <= i <= e + capacity, and with no capacity neither gets anywhere
  (`QueueHarnessRuns.PositionsIff`);
- main ends before every created thread if and only if no other loop is shorter than its own
  (`UserScheduler.RunToFirstReturn`);
- a string put into a list node is read back unchanged if and only if it is shorter than 100
  characters (`ListHeap.StoredRoundTripIff`);
- the cache as written gets to the end of a run of requests, deletions and clean-ups if and
  only if never more than five URLs have an entry: at the sixth, `addNewEntry` calls
  `removeOldest`, which locks the mutex already held (`CacheWritten.AsWrittenIff`); without
  deletions that means at most five different URLs in all (`CacheWritten.HistoryIff`);
- the cache holds the most recently requested URLs throughout a history, at any access times,
  if and only if every miss on a full cache evicts the least recent record
  (`CacheAgreement.CachedIff`); with a clock that never goes back, that fails exactly when a
  record nearer the head is as old (`CacheAgreement.TieIff`), as after six URLs within one
  second (`CacheAgreement.SixAtOnce`);
- a cache entry can come to rest with a reader asleep if and only if there is a reader: it
  takes a download given up before its first byte, which never marks the entry complete
  (`CacheEntryRuns.CanStrandIff`); once a download has finished, every reader that arrives is
  served within a bounded number of moves (`CacheEntryRuns.EveryoneIsServed`);
- mirroring a tree twice, the directories read in any order, gives it back if and only if it
  holds only files and directories and no name begins or ends with a dot
  (`ReverseOrder.RoundTripInAnyOrder`);
- a result of 0 from the directory walk guarantees a complete mirror if and only if there is
  nothing to mirror; if listings never end early, if and only if no mirrored file holds a byte
  and no mirrored subdirectory has anything to mirror; if copies are never damaged either, if
  and only if no mirrored subdirectory has. The results of readdir errors, fread, fwrite,
  fclose and the recursive call are dropped (`ReverseWalk.ResultTrustedIff`);
- every walk uses reversed names only, whatever else fails, if and only if every byte behind a
  name buffer was zero already (`ReverseWalk.DefinedIff`, `ReverseFile.NameReadBack`).

## Model

| member | source | states |
|---|---|---|
| QueueHeap.Queue.constructor | sem2/sync/lab2.1/queue.c:20-44 | a new queue is empty, has the given capacity and zero statistics |
| QueueHeap.Queue.Attach | sem2/sync/lab2.2/cond/queue.c:97-102 | a new node is hung behind the last one, whether or not the chain was empty; a freed last is never dereferenced |
| QueueHeap.Queue.Link | sem2/sync/lab2.2/cond/queue.c:88-105 | the new node becomes the last of an acyclic chain of exactly count nodes; a stale or freed last is never dereferenced |
| QueueHeap.Queue.Unlink | sem2/sync/lab2.2/cond/queue.c:123-130 | the first node is removed, its value returned, the node freed once, the rest of the chain kept |
| QueueHeap.Queue.QueueAdd | sem2/sync/lab2.1/queue.c:66-94 | the heap operation is the baseline add: the assertion holds, a full queue is refused, otherwise the value goes to the back |
| QueueHeap.Queue.QueueGet | sem2/sync/lab2.1/queue.c:96-114 | the heap operation is the baseline get: an empty queue is refused, otherwise the front value comes out |
| QueueHeap.Queue.Destroy | sem2/sync/lab2.1/queue.c:57-62 | the walk frees every node of the chain exactly once, in order, reading none after it was freed |
| QueueInvariant.LockKept | sem2/sync/lab2.2/sem/queue.c:70-128 | every step keeps at most one thread inside and the lock word free exactly when nobody is, for owned mutex, semaphore and spinlock |
| QueueInvariant.OwnerKept | sem2/sync/lab2.2/mutex/queue.c:74-132 | the mutex word names the thread inside, so it is released by the thread that took it |
| QueueInvariant.ShapeKept | sem2/sync/lab2.2/cond/queue.c:84-86 | the count never exceeds the capacity, and a thread that passed its full or empty test still finds room or an item when it acts |
| QueueInvariant.GetterWakeKept | sem2/sync/lab2.2/cond/queue.c:107-121 | every step keeps: while a getter sleeps, each item is covered by a getter on the move or a signal about to be sent |
| QueueInvariant.AdderWakeKept | sem2/sync/lab2.2/cond/queue.c:84-86 | the same for sleeping adders and free places |
| QueueInvariant.ReplayKept | sem2/sync/lab2.2/cond/queue.c:78-136 | every step keeps: the commits so far replay on the sequential queue with the same results, and the shared queue is ahead only by attempts under way |
| QueueInvariant.PhaseKept | sem2/sync/lab2.2/cond/queue.c:78-136 | every step keeps: each thread's events alternate call, commit, return with one operation and one result |
| QueueInvariant.AlwaysInv | sem2/sync/lab2.2/cond/queue.c:78-136 | the whole invariant holds in every reachable state, for any number of threads, any capacity, barging and spurious wakeups |
| QueueTheorems.MutualExclusion | sem2/sync/lab2.2/spinlock/queue.c:74-134 | never two threads between lock and unlock, in all four variants |
| QueueTheorems.NoLostWakeup | sem2/sync/lab2.2/cond/queue.c:84-133 | with the mutex free, a sleeping getter means no more items than woken getters, a sleeping adder no more room than woken adders |
| QueueTheorems.RestingIsJustified | sem2/sync/lab2.2/cond/queue.c:84-121 | when nobody is on the move, getters sleep only on an empty queue, adders only on a full one, never both if the capacity is at least one |
| QueueTheorems.Progress | sem2/sync/lab2.2/cond/queue.c:78-136 | some thread can take a step exactly when not all are idle or asleep |
| QueueTheorems.Linearizable | sem2/sync/lab2.2/cond/queue.c:78-136 | in every run the operations in commit order are a sequential baseline run with the same results; values got followed by the contents are the values added |
| QueueTheorems.SequentialWhenFree | sem2/sync/lab2.2/mutex/queue.c:74-132 | in the three non-blocking variants the shared queue with its statistics equals a sequential baseline run whenever the lock is free |
| QueueTheorems.CommitInsideCall | sem2/sync/lab2.2/cond/queue.c:84-110 | every return was committed exactly once, after its call, with the value it returns |
| QueueTheorems.Statistics | sem2/sync/lab2.2/cond/queue.c:138-145 | with the lock free, successes differ by the size, and attempts exceed successes by the refused calls plus the waiting callers |
| QueueTheorems.PrintedLine | sem2/sync/lab2.2/cond/queue.c:138-145 | every line printed in any run shows the size and successes of the operations committed before it, and attempts that exceed the successes by the refusals before it and the callers waiting at that moment, none in the non-blocking variants |
| QueueTheorems.RefuseOrWait | sem2/sync/lab2.2/mutex/queue.c:80-83 | blocking calls are never refused, non-blocking calls never wait |
| QueueTheorems.AssertionsHold | sem2/sync/lab2.2/cond/queue.c:82-117 | neither C assertion can fail: successful adds minus successful gets is between 0 and the capacity at every attempt, positive for a thread about to unlink and below the capacity for one about to link |
| QueueRuns.CompletesAlone | sem2/sync/lab2.2/cond/queue.c:78-145 | whenever the lock is free, in any variant and whatever the others are doing, an idle thread can do a whole call by itself with the result, contents and statistics of the sequential queue; it sleeps exactly if it must and may wait |
| QueueRuns.SleepersCounted | sem2/sync/lab2.2/cond/queue.c:84-133 | in every run the threads asleep are those that fell asleep, less one for each signal sent while somebody slept on that condition and one for each spurious wakeup |
| QueueHarness.FrontIsNext | sem2/sync/lab2.2/cond/queue-threads.c:65-72 | the front of the queue is the integer the reader will expect next |
| QueueHarness.HInvKept | sem2/sync/lab2.2/mutex/queue-threads.c:42-72 | every step of writer, reader, printers or queue keeps the positions, also after a refused call and between return and i++ |
| QueueHarness.ReaderNeverSeesAGap | sem2/sync/lab2.2/cond/queue-threads.c:42-53 | in all four variants the error line is unreachable and the queue holds exactly the integers between the two positions |
| QueueHarnessRuns.ErrorsAreGaps | sem2/sync/lab2.2/cond/queue-threads.c:49-50 | from any state, also unreachable ones, the error lines printed are exactly the checks that found another value than expected |
| QueueHarnessRuns.PositionsIff | sem2/sync/lab2.2/cond/queue-threads.c:42-72 | in all four variants the pairs of positions of writer and reader that are reached are exactly those with the writer at most the capacity ahead |
| QueueHarnessRuns.WriterRetries | sem2/sync/lab2.2/mutex/queue-threads.c:66-70 | a writer refused by a full queue offers the same value again, and only the attempts grow |
| QueueHarnessRuns.ReaderRetries | sem2/sync/lab2.2/mutex/queue-threads.c:45-47 | a reader refused by an empty queue asks again, expecting the same value |
| ListHeap.StoredRoundTripIff | sem2/sync/list/list.c:26-28 | a string of any length stored with strncpy is read back unchanged if and only if it is shorter than 100; otherwise no zero byte ends it inside the buffer |
| ListHeap.StrNCopy | sem2/sync/list/list.c:44-47 | whatever the source buffer holds, its string is copied and the rest zero-padded |
| ListHeap.List.Insert | sem2/sync/list/list.c:26-39 | the first 100 characters of any string stand first, the other nodes keep their strings and order |
| ListHeap.List.Swap | sem2/sync/list/list.c:41-48 | two nodes exchange strings, chain and other strings stay, equal nodes change nothing; for neighbours it is the machine's adjacent swap |
| Inversions.AdjacentSwap | sem2/sync/list/list.c:41-48 | exchanging two different neighbours changes the number of inversions by exactly one |
| ListInvariant.HoldsMoves | sem2/sync/list/list-threads.c:51-83 | at every program point the set of held locks grows by the lock taken and shrinks by the lock freed, no other |
| ListInvariant.OwnerKept | sem2/sync/list/list-threads.c:183-231 | the owner fields of node locks and spinlocks agree with the program counters after every step |
| ListInvariant.TextKept | sem2/sync/list/list-threads.c:183-196 | every node shows the text unless it is inside a locked swap; what a thread has read under its locks stays true |
| ListInvariant.LoadedValue | sem2/sync/list/list-threads.c:81-83 | the value loaded for counter++ is still the counter when it is stored |
| ListInvariant.CounterSum | sem2/sync/list/list-threads.c:190-192 | counter plus updates under way is the number of finished passes or swaps, kept by every step |
| ListInvariant.OrderKept | sem2/sync/list/list-threads.c:188-189 | each swap keeps the multiset of strings and flips the parity of inversions |
| ListInvariant.AlwaysInv | sem2/sync/list/list-threads.c:42-234 | the whole invariant holds after every schedule of any threads on any non-empty list |
| ListTheorems.LocksInOrder | sem2/sync/list/list-threads.c:185-190 | a thread waits only for a lock above every lock it holds, nodes first, then inc, dec, eq, swap |
| ListTheorems.DeadlockFree | sem2/sync/list/list-threads.c:42-234 | from every blocked thread the chain of waiting ends at a lock holder that can move |
| ListTheorems.Conservation | sem2/sync/list/list-threads.c:183-196 | the strings are always a rearrangement of those inserted, and all nodes show them when no swap is between its copies |
| ListTheorems.UntornComparison | sem2/sync/list/list-threads.c:53-62 | every comparison is of two strings adjacent in the text at that moment |
| ListTheorems.PassLength | sem2/sync/list/list-threads.c:49-83 | each pass makes exactly n - 1 comparisons, and count is how many matched |
| ListTheorems.StatisticsExact | sem2/sync/list/list-threads.c:81-192 | no statistics update is lost in any interleaving |
| ListCounts.SwapsCounted | sem2/sync/list/list-threads.c:188-192 | counter 3 plus the swappers between draw and store is the number of odd draws in the schedule |
| ListCounts.PassesCounted | sem2/sync/list/list-threads.c:81-169 | counters 0, 1 and 2, each plus the scanners of its kind that have not stored yet, are the passes that scanners of that kind finish in the schedule |
| ListCounts.CountByLength | sem2/sync/list/list-threads.c:49-145 | the local counter of a scanner is the number of compared pairs whose first string is shorter, longer or as long, by its kind |
| ListTheorems.SwapParity | sem2/sync/list/list-threads.c:188-193 | the sign of the rearrangement is the parity of swap_attempts plus the swappers that have not stored yet |
| ListTheorems.BackInOrderMeansEven | sem2/sync/list/list-threads.c:188-193 | with no swap under way, the original order means an even counter |
| ListTheorems.PrintedSnapshot | sem2/sync/list/list-threads.c:220-231 | while the line is printed nobody else is inside a counter update |
| ListRuns.SwapperAlone | sem2/sync/list/list-threads.c:179-212 | a swapper by itself can make any draws in a pass; exactly the pairs drawn for are exchanged, one after the other, and each is counted |
| ListRuns.ScannerAlone | sem2/sync/list/list-threads.c:44-83 | a scanner by itself compares every two neighbours in order, counts those that stand as its kind asks, and adds one to its own counter and no other |
| ListRuns.CanRearrangeIff | sem2/sync/list/list-threads.c:179-212 | with a swapper among any threads every rearrangement of the list comes about with no swap under way; without one, none but the list itself |
| CustomLock.StepKeepsInv | sem2/sync/castom/mysync.c:15-56 | every atomic step, failed waits, failed wakes and aborts included, keeps flag, owner field and counter consistent, if the form is futex or no client is a rogue |
| CustomLock.OwnerField | sem2/sync/castom/mysync.c:31-56 | mutual exclusion, and tid is 0 or the client holding the flag, even with clients that unlock without locking |
| CustomLock.UnlockChecksOwner | sem2/sync/castom/mysync.c:43-51 | an unlock aborts exactly when its caller did not lock, and the check never touches the flag |
| CustomLock.NoLostUpdate | sem2/sync/castom/main.c:10-18 | when all T clients have done N iterations the counter is T times N, under the futex mutex always and under the spinlock if no client is a rogue |
| CustomLockRuns.UpdatesSurviveIff | sem2/sync/castom/mysync.c:21-56 | for every form, number of clients and iterations and set of rogues: in every reachable state the counter is the number of increments stored, if and only if the form is futex, or no client is a rogue, or there is at most one client, or no iteration |
| CustomLockRuns.FinalCounterIff | sem2/sync/castom/main.c:10-18 | for every start, all runs in which every client finishes end with T times N under the same condition and no other |
| CustomLockRuns.RogueLosesUpdate | sem2/sync/castom/mysync.c:21-24 | from any state with the spinlock free, a rogue and one other client with an iteration left can both iterate and add only one to the counter |
| CustomLock.AbortCause | sem2/sync/castom/mysync.c:33-55 | in every run an abort comes from a FUTEX_WAIT or FUTEX_WAKE that failed or from an unlock without lock, and only in the futex form |
| CustomLockRuns.StrandedOnFreeLock | sem2/sync/castom/mysync.c:33-55 | in every run, when everybody is asleep or finished the mutex is free, and no client has a step of its own left |
| CustomLockRuns.CanAbortWithoutFailureIff | sem2/sync/castom/mysync.c:43-48 | with no failing futex call, some run aborts if and only if a client is a rogue |
| CustomLockRuns.CanAbortIff | sem2/sync/castom/mysync.c:33-55 | for every start and every choice of which futex calls may fail, some run aborts if and only if the form is futex and a client is a rogue, or waits may fail with two clients and an iteration, or wakes may fail with one client and an iteration |
| CustomLockRuns.CanStrandIff | sem2/sync/castom/mysync.c:33-55 | for any numbers of clients and iterations, some run ends with a waiter asleep on a free mutex if and only if there are at least two clients and one iteration |
| CustomLockFinish.CanFinishIff | sem2/sync/castom/mysync.c:15-55 | from every reachable state without rogues, under either lock, some run without failing calls and spurious returns lets all clients finish, if and only if the mutex is not free with everybody finished, asleep or about to fall asleep |
| CustomLockFinish.CanFinishWithSpurious | sem2/sync/castom/mysync.c:33-38 | with spurious returns of FUTEX_WAIT they can finish from every reachable state |
| CustomLockFinish.StrandedIsDoomed | sem2/sync/castom/mysync.c:33-55 | the stranded states are those doomed states in which everybody who waits is asleep already |
| CustomLockFinish.DoomedAwake | sem2/sync/castom/mysync.c:33-52 | with two clients and an iteration, a reachable state that is doomed though nobody is asleep |
| CustomLockFinish.CanOvertake | sem2/sync/castom/mysync.c:33-38 | a client that finds the mutex taken tries again: it can have it before the previous holder has woken anybody, and without a step of anybody else |
| CustomLockFinish.SleepersCounted | sem2/sync/castom/mysync.c:33-52 | in every run the clients asleep are those that fell asleep, less one for each unlock that found somebody asleep and one for each spurious return |
| UserScheduler.Scheduler.constructor | sem2/threads/part3/uthread.c:47-57 | the running thread becomes thread 0 of a table of one |
| UserScheduler.Scheduler.Create | sem2/threads/part3/uthread.c:32-38 | a context is appended while there are fewer than fifteen; otherwise nothing changes and the call fails |
| UserScheduler.Scheduler.Schedule | sem2/threads/part3/uthread.c:59-69 | the running context is saved in its slot and the next in the ring is loaded |
| UserScheduler.Play | sem2/threads/part3/uthread.c:9-69 | any mixture of creations, schedule calls and work of the running thread leaves the scheduler as the run on values says |
| UserScheduler.TableGrows | sem2/threads/part3/uthread.c:32-36 | every creation adds one thread until there are fifteen |
| UserScheduler.DistanceShrinks | sem2/threads/part3/uthread.c:61 | every schedule call that does not reach thread j strictly decreases its distance, across wraparound |
| UserScheduler.BoundedWaiting | sem2/threads/part3/uthread.c:32-62 | however creations and schedule calls are mixed, every thread in the table runs again within fifteen schedule calls |
| UserScheduler.ExactRotation | sem2/threads/part3/uthread.c:59-62 | without creations, after k calls thread (cur + k) mod n runs |
| UserScheduler.ResumesWhereItLeft | sem2/threads/part3/uthread.c:60-64 | when a thread's turn comes again, the context loaded is the one it had when it yielded |
| UserScheduler.Turn | sem2/threads/part3/uthread.c:59-64 | one turn: the running thread is saved inside its schedule call and the next in the ring goes on where it was parked, in the next round after a wrap |
| UserScheduler.RunToFirstReturn | sem2/threads/part3/main.c:6-54 | with loops of any lengths the output is exactly round robin up to the first loop that ends, the shortest, lowest numbered, which is main's if and only if no other is shorter; all others are left suspended |
| UserScheduler.RoundsInOrder | sem2/threads/part3/main.c:50-54 | K rounds of n threads print K times n lines, and line r * n + t is iteration r of thread t |
| UserScheduler.RunEqualLoops | sem2/threads/part3/main.c:29-59 | with equal loops the output is exactly K rounds and main ends with every other thread still inside its last schedule call |
| CacheValues.Oldest | sem2/proxy/cache.c:23-33 | the victim has the least access time and is the first in list order to have it |
| CacheHeap.CacheEntry.InsertData | sem2/proxy/cache.c:130-144 | the chunk stands behind the bytes already stored and the size grows by its length |
| CacheHeap.Cache.Unlink | sem2/proxy/cache.c:35-46 | unlinking through the previous pointer removes exactly entry k, keeps the others in order and the size right |
| CacheHeap.Cache.RemoveOldest | sem2/proxy/cache.c:15-48 | the two-pointer loop removes exactly the oldest entry; an empty cache stays empty |
| CacheHeap.Cache.GetEntry | sem2/proxy/cache.c:50-65 | the first entry with the URL is returned with its time refreshed, null exactly when there is none |
| CacheHeap.Cache.AddNewEntry | sem2/proxy/cache.c:67-101 | the new entry stands first; a full cache has lost its oldest entry, and at most five remain |
| CacheHeap.Cache.DeleteEntry | sem2/proxy/cache.c:103-128 | exactly the given entry goes, or nothing when it is not in the list |
| CacheHeap.Cache.CleanUp | sem2/proxy/cache.c:155-172 | every entry is freed once, none read afterwards, and the cache is empty |
| CacheHeap.Cache.Lookup | sem2/proxy/proxy.c:153-158 | get or add returns an entry of the list with the URL and the current time |
| CacheHeap.Serve | sem2/proxy/proxy.c:153-161 | a history of requests on the linked list gives the cache that the value functions give |
| CacheHeap.Cache.LookupAsWritten | sem2/proxy/cache.c:67-72 | with the relock of the cache mutex in place, a request gets no entry exactly on a miss with a full cache, and the list is untouched then; otherwise it is served without an eviction |
| CacheWritten.AsWrittenIff | sem2/proxy/cache.c:15-72 | the code as written gets to the end of any run of requests, deletions and clean-ups if and only if never more than five URLs are live, computed without list, order, times or limit; the list then holds exactly the live ones |
| CacheWritten.AsWrittenMisses | sem2/proxy/cache.c:67-72 | for any operations, it gets to the end if and only if no request misses while the list is full, and then leaves the list of the value functions |
| CacheWritten.HistoryIff | sem2/proxy/proxy.c:153-158 | without deletions, if and only if at most five different URLs are requested |
| CacheWritten.PerformAsWritten | sem2/proxy/cache.c:15-172 | on the linked list, the operations before the one that blocks are carried out and no more; without a separate eviction, all of them if and only if never more than five URLs are live |
| CacheRuns.ApplyOk | sem2/proxy/cache.c:15-172 | every operation keeps: at most five entries, every URL once, every name of an entry once, at any access times |
| CacheRuns.Perform | sem2/proxy/cache.c:15-172 | any mixture of requests, evictions, deletions through old pointers and clean-ups: the size is the chain length, the list is what the value functions give, every pointer handed out is the entry of its name, and every entry created is in the list or freed |
| CacheRuns.Download | sem2/proxy/cache.c:130-153 | inserting the chunks and marking the entry complete leaves their concatenation behind the old bytes |
| CacheLru.VictimIff | sem2/proxy/cache.c:26-33 | with times that never go back, the evicted record is the least recent one if and only if no record nearer the head is as old |
| CacheAgreement.LruAgreementIff | sem2/proxy/cache.c:50-101 | at any access times: throughout a history the cache is, up to order, the first five of the distinct URLs by recency, each once, with its last request time, if and only if every miss on a full cache evicts the least recent record |
| CacheAgreement.LruAgreement | sem2/proxy/cache.c:50-101 | strictly increasing times are enough for that |
| CacheAgreement.TieIff | sem2/proxy/cache.c:26-33 | with a clock that never goes back, a miss on a full cache breaks the agreement exactly when a record nearer the head than the least recent one is as old |
| CacheAgreement.SixAtOnce | sem2/proxy/cache.c:56-87 | six different URLs within one second break it |
| CacheLru.RankIsSince | sem2/proxy/cache.c:50-101 | a URL's place by recency is made of exactly the URLs requested since its last request |
| CacheAgreement.CachedIff | sem2/proxy/cache.c:50-101 | at any access times: throughout a history a URL is cached exactly when it was requested and fewer than five others have been requested since, if and only if every miss on a full cache evicts the least recent record; no duplicates, at most five entries in any case |
| CacheEntryProtocol.StepKeepsInv | sem2/proxy/cache.c:130-153 | every step keeps lock, data, size and readers consistent, and a complete entry unchanged |
| CacheEntryProtocol.ReadersSendEverything | sem2/proxy/proxy.c:163-171 | whoever has sent has sent the concatenation of all chunks in order, or nothing when it is empty |
| CacheEntryProtocol.SizeMatchesData | sem2/proxy/cache.c:139-143 | the data is always whole chunks in order, and downloadedSize its length whenever the lock is free |
| CacheEntryProtocol.FrozenWhenComplete | sem2/proxy/cache.c:146-153 | nothing that happens after isComplete changes the data or its size |
| CacheEntryProtocol.NoReaderLeftBehind | sem2/proxy/proxy.c:163-276 | after the broadcast no reader sleeps; the machine rests exactly when the download is finished and every reader that arrived has gone, or the download was given up and every reader that arrived sleeps |
| CacheEntryRuns.CanStrandIff | sem2/proxy/proxy.c:163-206 | some run comes to rest with a reader asleep if and only if there is a reader |
| CacheEntryRuns.StepWorks | sem2/proxy/proxy.c:163-276 | every step that changes anything, spurious wakeups apart, uses up some of a bounded amount of work |
| CacheEntryRuns.BoundedWork | sem2/proxy/proxy.c:163-276 | no run makes more moves than the work in its first state plus three for each spurious wakeup |
| CacheEntryRuns.EveryoneIsServed | sem2/proxy/proxy.c:163-276 | from the end of the download at most eight moves per reader are left under any schedule, and at rest every reader that arrived has gone with the whole payload |
| CacheEntryRuns.SleepersCounted | sem2/proxy/proxy.c:163-166 | in every run the readers asleep are those that fell asleep, less those the broadcast found asleep and one for each spurious wakeup |
| ReverseFile.Reverse | 1sem/lab3/part1.c:7-11 | the first len characters come out backwards and the rest of the target is untouched |
| ReverseFile.ReverseName | 1sem/lab3/part1.c:56-62 | the buffer holds the reversed name followed by whatever was there before |
| ReverseFile.NameReadBack | 1sem/lab3/part1.c:97-102 | the name read from the buffer is the reversal if and only if the byte behind it was zero |
| ReverseFile.WriteBackwards | 1sem/lab3/part1.c:26-28 | one block is written from its last byte to its first |
| ReverseFile.ReverseContents | 1sem/lab3/part1.c:13-31 | for every size, the 32-byte blocks from the last to the first give the whole file reversed |
| ReverseFile.ReversedInjective | 1sem/lab3/part1.c:7-11 | different names have different reversals |
| ReverseWalk.StillFree | 1sem/lab3/part1.c:76-104 | the mirrored name of the next entry is still free when it is created |
| ReverseTree.MirrorIff | 1sem/lab3/part1.c:49-122 | one pass: the mirror has the reversed name if and only if the directory has the name, on a file or directory, not beginning with a dot; byte k of a file is byte size - 1 - k of the original |
| ReverseWalk.DamagedOnDisk | 1sem/lab3/part1.c:25-27 | only bytes never written shorten a copy; otherwise byte k is the one to be written or what it was garbled to |
| ReverseWalk.ReverseInside | 1sem/lab3/part1.c:40-133 | with file-system calls failing, listings ending early, bytes lost or damaged and names without a terminator anywhere, the recursive walk leaves the mirror and returns the result that the value function gives, and creates no name twice |
| ReverseWalk.CompleteWhenAllWell | 1sem/lab3/part1.c:40-133 | when nothing goes wrong the walk leaves exactly the mirror image and returns 0 |
| ReverseWalk.ResultIff | 1sem/lab3/part1.c:43-132 | the walk returns 0 if and only if its directory opens and the calls for its own entries that readdir yields succeed, up to the copying, with every name used terminated |
| ReverseWalk.ResultTrustedIff | 1sem/lab3/part1.c:25-125 | for every choice of the failures the walk does not notice, the exact trees for which a result of 0 guarantees the whole mirror: nothing to mirror at all when listings may end early; no mirrored file with a byte and nothing below a mirrored subdirectory when bytes may be lost; only the latter when neither can happen |
| ReverseWalk.DefinedIff | 1sem/lab3/part1.c:56-99 | whatever else happens, every walk uses reversed names only, if and only if the byte behind every name buffer in the tree was zero |
| ReverseWalk.NewName | 1sem/lab3/part1.c:92-99 | the name read back from a buffer with any byte behind it is the reversal, or nothing sensible |
| ReverseTree.MirrorUnique | 1sem/lab3/part1.c:40-133 | the mirror again has unique names in every directory |
| ReverseTree.MirrorTwice | 1sem/lab3/part1.c:40-133 | mirroring twice gives the tree without entries whose name begins or ends with a dot and without other file types |
| ReverseTree.RoundTripIff | 1sem/lab3/part1.c:40-133 | mirroring twice gives the original if and only if nothing of that kind occurs in it |
| ReverseOrder.SameMirror | 1sem/lab3/part1.c:49-131 | the mirror as a set of named entries, at any depth, does not depend on the order of reading |
| ReverseOrder.RoundTripInAnyOrder | 1sem/lab3/part1.c:40-133 | whatever order either pass reads in, mirroring twice gives the original if and only if nothing of that kind occurs in it |

## Left out

- CacheHeap.Cache.RemoveOldest: is the body with the cache mutex already held. `addNewEntry` holds it when it calls `removeOldest`, which takes it again; the code as written is `CacheHeap.Cache.LookupAsWritten`, and what follows for whole runs is in `CacheWritten.AsWrittenIff`.
- CacheHeap.Cache.AddNewEntry: with a full cache, describes the code without that second lock.
- CacheHeap.Cache.Lookup: on a miss with a full cache, describes the code without that second lock.
- CacheHeap.Serve: beyond five different URLs, describes the code without that second lock.
- CacheLru.VictimIff: describes the eviction itself, which the second lock keeps from being reached.
- CacheAgreement.LruAgreementIff: beyond five live URLs, describes the code without that second lock.
- CacheAgreement.LruAgreement: beyond five live URLs, describes the code without that second lock.
- CacheAgreement.TieIff: beyond five live URLs, describes the code without that second lock.
- CacheAgreement.SixAtOnce: beyond five live URLs, describes the code without that second lock.
- CacheAgreement.CachedIff: beyond five live URLs, describes the code without that second lock.
- CacheRuns.Perform: requests on a full cache are those without that second lock (`CacheWritten.PerformAsWritten` has it); an address that malloc hands out again is a new entry.
- CacheEntryProtocol.ReadersSendEverything: is about one entry that is not evicted while in use and allocations that succeed; concurrent requests that add one URL twice, and the entry deleted when its URL cannot be parsed, are not modelled.
- CustomLock.NoLostUpdate: says nothing about finishing under the futex form, because a waiter may sleep with the lock free (`CustomLockRuns.CanStrandIff`) and a failed wait aborts.
- ListTheorems.UntornComparison: one strncpy or strlen is one step; list_swap is three such steps and a comparison two.
- UserScheduler.RunToFirstReturn: a context is the place in the counted loop; stacks, registers and sleep are not modelled.
- ReverseWalk.ReverseInside: what happens after a name without a terminator has been used is not modelled, only that the walk gets there; path buffers are as long as needed, permissions are not modelled, and the root's own stat and mkdir are outside the walk.
- ListTheorems.Conservation: the machine's strings are those a node shows; for a string of 100 characters or more, strlen and strcmp leave the buffer (`ListHeap.StoredRoundTripIff`), which is not modelled.
- Thread cancellation, queue_destroy while the queue is in use, and shutting down the printing threads.
- The unsynchronised queue under concurrent use; it serves as the sequential specification.
- Liveness under unfair scheduling: progress says that somebody can move, not that everybody does.
- Machine-integer overflow of counters and failing malloc, mmap, clone and thread creation.
- URL parsing, header scanning, sockets and logging of the proxy: the chunks are whatever it inserts.
- The threads exercises other than part3 and the laboratory exercises other than the backwards copy: they have little state of their own.
