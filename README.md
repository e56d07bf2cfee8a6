# mnthr and mrkthr bookkeeping in Dafny

mnthr is a C library of cooperative "micro threads". Each thread is a context with its own stack. A central poller resumes a context when its sleep time has expired or when the event it waits for arrives. mrkthr is the older variant of the library and has the same design. Under the context switches, the event loops and the socket I/O is a layer of sequential bookkeeping. This project models that layer and proves properties of it.

That layer consists of:

- the sleep queue, an ordered map from `expire_ticks` to a bucket host context, where the host carries a FIFO bucket of the other contexts with the same key;
- the wait queues of joiners and condition variables;
- the free list and `ctxes` array of the context pool, with the `abac` gate that delays reuse;
- the semaphore, inverted semaphore, read/write lock and condition counters;
- the stack-size clamp;
- the kevent change list and its helpers;
- the libev item key, its comparator and the single-waiter rule;
- the tick arithmetic and the kevent timeout;
- the bytestream helpers;
- the state and return-code constants;
- the latency harness of `test/testco.c`.

The modules, one per source file or component:

- `Wrappers` (wrappers.dfy): Option.
- `Machine` (machine.dfy): `uint64_t` wrap-around, `int64_t` reinterpretation, C's truncating `/` and `%`.
- `CoStates` (states.dfy): `CO_STATE_*` bits, the resumable sets, `CO_STATE_STR`, the expire-ticks sentinels, `STACKSIZE` (src/mnthr_private.h).
- `Api` (api.dfy): `MNTHR_CO_RC_STR`, the `MNTHR_GET_NOW_*` macros, `MNTHR_WAIT_EVENT_*`, `MNTHRET` (src/mnthr.h).
- `SleepQueue` (sleepq.dfy): the sleep queue as a value, `map<nat, seq<CtxId>>` with the host at index 0, with insert, append, insert-once and remove, and the drain orders of both libraries.
- `MnthrModel` (mnthr_model.dfy): the fields of an mnthr context and the invariants that tie the sleep queue, the wait queues and the free list together.
- `CtxPool` (ctx_pool.dfy): the free list and `ctxes` on values: `mnthr_ctx_pop_free` and the compaction of `mnthr_gc`.
- `Mnthr` (mnthr.dfy): class `Scheduler`, the scheduler state of src/mnthr.c and its operations as methods.
- `Sync` (sync.dfy): classes `Sema`, `InvertedSema` and `RwLock`; the condition operations are `Scheduler` methods.
- `Poller` (poller.dfy): `poller_resume` and `poller_sift_sleepq` (src/poller.c).
- `MrkSleepq` (mrkthr_sleepq.dfy): class `LinkedSleepQueue`, mrkthr's trie of owners with doubly linked buckets, proved to implement the queue value of `SleepQueue`.
- `Mrkthr` (mrkthr.dfy): class `Threads`, mrkthr's contexts, `waitq` arrays with the `MAP_FAILED` sentinel, the LIFO `free_ctxes` stack, resume and the drain loop.
- `KeventUtil` (kevent.dfy): the helpers of src/kevent_util.c: the empty sentinel, the filter and flag names, the read/write clamps.
- `KeventPoller` (kevent_poller.dfy): class `KeventTable`, the `kevents0` change list (`new_event`, `clear_event`, `discard_event`, the trailing-empty count), the tick conversions and the timeout of `mrkthr_loop`.
- `EvTicks` (ev_ticks.dfy): the tick conversions and clocks of src/ev_poller.c.
- `EvPoller` (ev_poller.dfy): classes `EvStrBuffer`, `EvItem` and `EvTable` of src/ev_poller.c: `ev_str`, the item key and `ev_item_cmp`, the cached hash, the single-waiter protocol of the wait functions.
- `Bytes` (bytestream.dfy): class `Stream` with `mrkthr_bytestream_read_more` and `mrkthr_bytestream_write`.
- `LatencyHarness` (testco.dfy): class `Harness`, `r`, `baz`, `bar` and `shut_me_down` of test/testco.c.

Where the C code works in place, the model does too. Each method is proved against a function of the old state. The sleep-queue methods of both libraries are stated as `sleepq == InsertQ(old(sleepq), ...)` and so on, and the properties of those functions are proved as lemmas. The mrkthr pointer structure (`prev`/`next`, `head`/`tail`, the trie of owners) is a set of maps over context ids. A ghost field gives the queue value it stands for.

Several things are inputs to the model:

- A context switch is abstract. A method stops where `swapcontext` would run the other context, with `me` set to it. Once control is back, what that context did is given as parameters, such as its new state and `co.rc`.
- The clocks (`timecounter_now`, `tsc_now`) are inputs.
- What the reader and the writer deliver is an input.
- So are the results of `bytestream_grow` and of the array allocations.

## Model

| member | source | states |
|---|---|---|
| CoStates.StatesAreDistinctBits | src/mnthr_private.h:83-96 | the fourteen CO_STATE_* values are bits 0 to 13, each a single bit, pairwise disjoint |
| CoStates.ResumableSet | src/mnthr_private.h:98-112 | CO_STATE_RESUMABLE is 0x3FFC: it holds READ, WRITE, OTHER_POLLER and the externally resumable set, and excludes DORMANT and RESUMED |
| CoStates.StateStr | src/mnthr_private.h:115-130 | CO_STATE_STR gives each state its own name and "<unknown>" exactly for values that are not one of the fourteen states |
| CoStates.StateStrRoundTrip | src/mnthr_private.h:115-130 | the state is recovered from its CO_STATE_STR name, so the names are pairwise different |
| CoStates.SentinelsDistinct | src/mnthr_private.h:181-183 | UNDEFINED = 0 < RESUME_NOW = 1 < FOREVER = 2^64 - 1 |
| CoStates.DefaultStack | src/mnthr_private.h:43-52 | with PAGE_SIZE 4096 the default STACKSIZE is 8 pages, a page multiple inside the stack-size clamp range |
| Api.CoRcStr | src/mnthr.h:164-172 | MNTHR_CO_RC_STR names 0 "OK" and each thread return code by its name, and gives "UD" exactly for every other code |
| Api.CoRcStrInjective | src/mnthr.h:164-172 | different named codes get different names, none of them "UD" |
| Api.WaitEventBitsDisjoint | src/mnthr.h:215-216 | MNTHR_WAIT_EVENT_READ and _WRITE are non-zero disjoint bits |
| Api.NowSec | src/mnthr.h:328-329 | the seconds reading r is the floor of the nanosecond clock over 10^9 (r·10^9 <= ns < (r+1)·10^9); the PRECISE form at src/mnthr.h:338-339 is the same on its own clock |
| Api.NowMsec | src/mnthr.h:332-333 | the milliseconds reading is the floor of the nanosecond clock over 10^6 (also the PRECISE form at src/mnthr.h:342-343) |
| Api.NowUsec | src/mnthr.h:334-335 | the microseconds reading is the floor of the nanosecond clock over 10^3 (also the PRECISE form at src/mnthr.h:344-345) |
| Api.NowUnitsNest | src/mnthr.h:328-335 | the three readings of one clock value agree: seconds = milliseconds / 1000 and milliseconds = microseconds / 1000 |
| EvTicks.Usec2TicksAbsolute | src/ev_poller.c:388-392 | now + usec·1000, equal to the exact sum when it fits in 64 bits and congruent to it modulo 2^64 otherwise |
| EvTicks.Msec2TicksAbsolute | src/ev_poller.c:395-399 | now + msec·10^6 with uint64 wrap-around; the non-TSC poller_msec2ticks_absolute of src/kevent_poller.c:122-132 is the same formula |
| EvTicks.Msec2Ticks | src/ev_poller.c:402-406 | msec·10^6, a duration, with uint64 wrap-around; so is the non-TSC mrkthr_msec2ticks of src/kevent_poller.c:142-150 |
| EvTicks.TicksAbsolute | src/ev_poller.c:409-413 | now + ticks, exact when it fits and reduced by 2^64 when it does not; src/kevent_poller.c:135-139 is the same |
| EvTicks.MsecAbsoluteIsNowPlusDuration | src/ev_poller.c:395-413 | the absolute millisecond deadline is now plus the millisecond duration, wrap-around included |
| EvTicks.MsecIsThousandUsec | src/ev_poller.c:388-399 | a millisecond deadline equals the microsecond deadline of a thousand times as many microseconds |
| EvTicks.DeadlineNotBeforeNow | src/ev_poller.c:409-413 | without wrap-around a deadline is never earlier than now |
| EvTicks.NowClocksAgree | src/ev_poller.c:432-457 | mnthr_get_now_nsec, _nsec_precise, _ticks and _ticks_precise all return timecounter_now |
| Mnthr.Scheduler.Ret | src/mnthr.h:52 | MNTHRET(rv) stores rv as the thread's return value and returns rv |
| EvPoller.WriteNames | src/ev_poller.c:53-79 | the appending branch of ev_str writes "READ" when READ is set, then "\|NAME" for each other set mask in table order (the reference function Written) |
| EvPoller.EvStrBuffer.EvStr | src/ev_poller.c:42-82 | the static buffer holds and the call returns "NONE" for 0, "UNDEF" for EV_UNDEF, and otherwise the appended names; a mask with no named bit leaves the buffer as the previous call left it |
| EvPoller.ListedExactly | src/ev_poller.c:61-78 | a table mask is listed exactly when it is set, each once, in table order |
| EvPoller.EvTextShape | src/ev_poller.c:47-79 | 0 gives "NONE" and EV_UNDEF "UNDEF"; any other text starts with "READ" exactly when READ is set and otherwise with the bar of its first set mask; nothing is written exactly when no named bit is set |
| EvPoller.EvTextUnnamed | src/ev_poller.c:51-79 | a mask with only unnamed bits (0x04) writes nothing into the buffer |
| EvPoller.Unset | src/ev_poller.c:144 | `events & ~EV__IOFDSET` clears the bit and changes nothing else |
| EvPoller.UnsetIofdset | src/ev_poller.c:144 | setting and clearing EV__IOFDSET undo each other, and clearing is idempotent |
| EvPoller.HashIgnoresIofdset | src/ev_poller.c:138-146 | two io keys whose masks differ only in EV__IOFDSET hash alike |
| EvPoller.EvItem.constructor | src/ev_poller.c:191-208 | a new io item has its key, a zero hash and no waiter |
| EvPoller.EvItem.Hash | src/ev_poller.c:127-159 | ev_item_hash computes the hash once when the field is 0, stores it, and afterwards returns the cached value |
| EvPoller.MnCmp | src/ev_poller.c:168 | MNCMP is 0 exactly on equal values and negative exactly when the first is smaller |
| EvPoller.BytesCmpEq | src/ev_poller.c:182 | the path comparison (standing for bytes_cmp) is 0 exactly on equal paths and antisymmetric |
| EvPoller.ItemCmpIsKeyEquality | src/ev_poller.c:161-188 | with each hash computed from its key, ev_item_cmp returns 0 exactly on equal keys (type with fd and mask, or path) and is antisymmetric; the ordering is by hash, then type, then fd, then mask |
| EvPoller.Registered | src/ev_poller.c:269-287 | ev_io_item_get finds the registered item or adds one with no waiter, leaving every other item as it was |
| EvPoller.Claim | src/ev_poller.c:529-539 | a free item is claimed by the caller; one the caller holds is kept; one another thread holds is refused with CO_RC_SIMULTANEOUS and left to its holder |
| EvPoller.ClaimKeepsOneEach | src/ev_poller.c:529-539 | a claim never takes an item from its holder, it succeeds exactly when the caller ends up the holder, and claims and releases keep every thread waiting for at most one item |
| EvPoller.ClaimRelease | src/ev_poller.c:555-556 | claiming a free item and releasing it after the wake-up leaves the table as registered |
| EvPoller.KindState | src/ev_poller.c:548 | each wait function waits in a resumable state: READ, WRITE or OTHER_POLLER |
| EvPoller.EvTable.Wait | src/ev_poller.c:522-539 | the wait functions set `me->pdata.ev` to the item, then claim it or fail with CO_RC_SIMULTANEOUS; the other wait functions repeat this at src/ev_poller.c:581-597, 629-645, 692-708 and 738-754 |
| EvPoller.EvTable.Woken | src/ev_poller.c:551-556 | after the yield the item's waiter and `me->pdata.ev` are both reset to NULL, keeping one item per thread |
| EvPoller.RbuflenResult | src/ev_poller.c:558-570 | mnthr_get_rbuflen returns -1 when the yield or FIONREAD failed and the byte count otherwise |
| EvPoller.WbuflenResult | src/ev_poller.c:666-681 | without FIONSPACE mnthr_get_wbuflen returns -1 exactly when the yield failed and 1 MiB otherwise |
| EvPoller.AddBitsExact | src/ev_poller.c:774-779 | the OR steps keep the caller's bits and add READ and WRITE exactly when asked |
| EvPoller.EventsResultBits | src/ev_poller.c:774-779 | mnthr_wait_for_events reports the caller's bits plus READ and WRITE exactly as the registered mask has them |
| EvPoller.WaitForEventsReportsBoth | src/ev_poller.c:731-781 | the item is registered with EV_READ\|EV_WRITE, so both bits are always reported |
| KeventUtil.IdentOf | src/kevent_poller.c:243 | `(uintptr_t)fd` is the descriptor for a non-negative fd and 2^64 + fd for a negative one |
| KeventUtil.FdRoundTrip | src/kevent_poller.c:243-260 | widening an `int` descriptor to an ident and narrowing it back gives the descriptor again, and the other way round for idents made from descriptors |
| KeventUtil.InitIsEmpty | src/kevent_util.c:81-93 | kevent_init leaves a slot kevent_isempty accepts (ident -1), with filter, flags, fflags, data and udata cleared |
| KeventUtil.Copy | src/kevent_util.c:95-99 | kevent_copy copies ident, filter, flags, fflags, data and udata unchanged, so emptiness is kept |
| KeventUtil.FilterStrTable | src/kevent_util.c:52-63 | kevent_filter_str gives each known filter its own name and "<UNKNOWN>" exactly for every other value |
| KeventUtil.PickedExactly | src/kevent_util.c:33-43 | a flag's name is written exactly when the flag is set, in table order |
| KeventUtil.TerminatedJoin | src/kevent_util.c:37-42 | the loop's comma after every name is the names joined by commas plus one trailing comma |
| KeventUtil.FlagsStr | src/kevent_util.c:9-50 | kevent_flags_str returns "<", the names of the set flags in table order separated by commas, then ">" (the trailing comma is overwritten) |
| KeventUtil.FlagsStrNone | src/kevent_util.c:32-47 | with no table flag set the result is "<>" |
| KeventUtil.WriteCount | src/kevent_util.c:105-111 | kev_write hands at most `kev->data` bytes to write(2): navail when sz exceeds it, else sz |
| KeventUtil.KevWrite | src/kevent_util.c:101-116 | kev_write returns -1 on a short write, navail when it had to clamp, else 0 |
| KeventUtil.ReadCount | src/kevent_util.c:122-130 | kev_read asks read(2) for sz bytes when sz < navail, else for navail |
| KeventUtil.KevRead | src/kevent_util.c:118-136 | kev_read returns -1 on a short read, sz when more data remain, else 0 |
| KeventUtil.ClampsComplete | src/kevent_util.c:101-136 | with full transfers kev_write returns 0 or navail and kev_read 0 or sz, each exactly in its own case |
| KeventPoller.Placed | src/kevent_poller.c:252-261 | new_event writes ident and filter into the chosen slot, appending a kevent_init slot when none was chosen, and leaves every other slot as it was |
| KeventPoller.PlacedUnique | src/kevent_poller.c:228-264 | new_event keeps (ident, filter) unique among used slots and the returned slot now registers (fd, filter) |
| KeventPoller.KeventTable.Scan | src/kevent_poller.c:234-247 | the scan returns the first used slot registering (fd, filter) when there is one, even after an empty slot, else the first empty slot, else none |
| KeventPoller.KeventTable.NewEvent | src/kevent_poller.c:228-264 | new_event's index is the one the scan chose (or the new last slot) and the table becomes Placed, keeping the uniqueness invariant; new_event of src/mrkthr.c:1074-1110 is the same routine |
| KeventPoller.KeventTable.DiscardEvent | src/kevent_poller.c:269-278 | discard_event turns the slot new_event picks into an EV_DELETE change for (fd, filter) |
| KeventPoller.FirstHit | src/kevent_poller.c:309-318 | the index of the first slot whose ident and filter match, or the length when there is none |
| KeventPoller.FirstHitUnique | src/kevent_poller.c:309-318 | only one index has the properties of the scan's stopping point |
| KeventPoller.KeventTable.FindHit | src/kevent_poller.c:309-318 | clear_event's scan loop finds FirstHit |
| KeventPoller.Cleared | src/kevent_poller.c:292-323 | clear_event resets the slot at idx when it matches (fd, filter), else the first match found by the scan, else nothing |
| KeventPoller.ClearedRemoves | src/kevent_poller.c:292-323 | after clear_event no used slot registers (fd, filter), uniqueness is kept, and every slot that did not match is unchanged |
| KeventPoller.KeventTable.ClearEvent | src/kevent_poller.c:292-323 | the table becomes Cleared and keeps its invariant; clear_event of src/mrkthr.c:994-1026 is the same routine, returning 0 |
| KeventPoller.KeventTable.PollerClearEvent | src/kevent_poller.c:325-335 | poller_clear_event does nothing for index -1 and otherwise re-initialises the slot it names |
| KeventPoller.TrailingCoversUsed | src/kevent_poller.c:488-506 | the count of trailing empty slots is unique, and no used slot lies beyond the nkev slots handed to kevent(2) |
| KeventPoller.KeventTable.CountTrailing | src/kevent_poller.c:488-506 | nempty counts the empty slots at the end of the array, backwards from the last one, and nkev is the length minus nempty |
| KeventPoller.KeventTable.Arm | src/kevent_poller.c:345-359 | mrkthr_get_rbuflen finds the slot; if its udata is set the caller gets CO_RC_SIMULTANEOUS and -1; otherwise the slot becomes an EV_ADD\|EV_ONESHOT change owned by the caller; mrkthr_get_wbuflen repeats this at src/kevent_poller.c:383-397 |
| KeventPoller.WbufLen | src/kevent_poller.c:408 | mrkthr_get_wbuflen reports the event's data, or 1 MiB when it is 0 |
| KeventPoller.WbufLenPositive | src/kevent_poller.c:408 | the reported write space is never 0 and never below the event's data |
| KeventPoller.TimeoutAsWritten | src/kevent_poller.c:442-475 | as written: no timeout for an empty sleep queue, zero for an expired head, else the `int64_t` distance split with C's truncating `/` and `%` |
| KeventPoller.TimeoutAsWrittenSmall | src/kevent_poller.c:457-462 | while the distance fits an `int64_t`, tv_sec·10^9 + tv_nsec is the distance, with 0 <= tv_nsec < 10^9 |
| KeventPoller.TimeoutForeverNegative | src/kevent_poller.c:457-462 | a head key of 2^64 - 1 at now = 1 gives a negative timeout (0 s, -2 ns) |
| KeventPoller.Timeout | src/kevent_poller.c:442-475 | the timeout with the distance kept unsigned: none exactly for an empty sleep queue |
| KeventPoller.TimeoutSplits | src/kevent_poller.c:442-475 | the corrected timeout is never negative, and it is tv_sec·10^9 + tv_nsec = distance for a future head and zero for an expired one |
| Sync.Sema.constructor | src/mnthr.c:2420-2425 | mnthr_sema_init empties the queue and sets i = n, so 0 <= i <= n holds for n >= 0 |
| Sync.Sema.Acquire | src/mnthr.c:2429-2448 | with a free unit i goes down by one and nothing else changes; with none the caller waits in the queue in CONDWAIT; 0 <= i <= n is kept |
| Sync.Sema.TryAcquire | src/mnthr.c:2452-2464 | i goes down by one iff i > 0; otherwise SEMA_TRY_ACQUIRE_FAIL with i unchanged; 0 <= i <= n is kept |
| Sync.Sema.Release | src/mnthr.c:2468-2476 | from 0 <= i < n the first waiter is woken and i goes up by one, keeping 0 <= i <= n |
| Sync.Sema.Fini | src/mnthr.c:2480-2485 | every waiter is woken, the queue is dropped and both counters become -1 |
| Sync.InvertedSema.constructor | src/mnthr.c:2492-2497 | an empty queue, the given n and a zero count |
| Sync.InvertedSema.Acquire | src/mnthr.c:2501-2506 | from 0 <= i <= n the count goes up by one and the first waiter is woken |
| Sync.InvertedSema.Release | src/mnthr.c:2510-2514 | the count goes down by one and stays inside [0, n] |
| Sync.InvertedSema.Wait | src/mnthr.c:2518-2531 | the caller goes on without any change once i has reached n, and otherwise waits in the queue |
| Sync.InvertedSema.Fini | src/mnthr.c:2535-2540 | every waiter is woken, the queue is dropped and both counters become -1 |
| Sync.RwLock.constructor | src/mnthr.c:2548-2553 | an empty queue, no readers and no writer |
| Sync.RwLock.AcquireRead | src/mnthr.c:2557-2573 | without a writer the reader count goes up by one (modulo 2^32) and nothing else changes; with one the caller waits; "writer and readers" never holds |
| Sync.RwLock.TryAcquireRead | src/mnthr.c:2577-2588 | fails with RWLOCK_TRY_ACQUIRE_READ_FAIL exactly when a writer holds the lock, otherwise counts one reader more |
| Sync.RwLock.ReleaseRead | src/mnthr.c:2592-2600 | one reader fewer (an unsigned decrement); the last one out wakes the first waiter |
| Sync.RwLock.AcquireWrite | src/mnthr.c:2604-2621 | takes the lock exactly when there is no writer and no reader, otherwise waits in the queue |
| Sync.RwLock.TryAcquireWrite | src/mnthr.c:2625-2636 | succeeds exactly with no writer and zero readers, otherwise RWLOCK_TRY_ACQUIRE_WRITE_FAIL with nothing changed |
| Sync.RwLock.ReleaseWrite | src/mnthr.c:2640-2646 | from a writer and no readers the lock becomes free and every waiter is woken |
| Sync.RwLock.Fini | src/mnthr.c:2650-2655 | every waiter is woken, the queue is dropped, no readers and no writer |
| Poller.Resume | src/poller.c:43-53 | a context that is not resumable leaves the sleep queue, goes to the free list and gets TRRET(RESUME + 1) without a switch; any other takes state RESUMED and becomes `me`, nothing else changing |
| Poller.Resumed | src/poller.c:81-98 | once control is back, a thread in a resumable state reports its co.rc with nothing changed; one still RESUMED has exited, leaves the sleep queue, goes to the free list and reports its co.rc |
| Poller.RunOrder | src/poller.c:155-231 | the run queue read out bucket by bucket, host first (an empty run queue reads out empty) |
| Poller.RunOrderStep | src/poller.c:141 | enqueuing a bucket at the back of the run queue appends it to the read-out order |
| Poller.DropExpiredKey | src/poller.c:143-144 | removing an expired key leaves the unexpired part of the queue alone |
| Poller.Collect | src/poller.c:128-153 | the first loop takes every key below now out of the queue; what remains is exactly the unexpired part (every key >= now, buckets untouched), and the run queue reads out in DrainOrder: ascending keys, each host before its members in bucket order |
| Poller.CollectExpired | src/poller.c:124-153 | on the scheduler only the sleep queue changes, to its unexpired part, and the run queue is as Collect says |
| Poller.Unexpire | src/poller.c:159-210 | corrected (see Findings): a collected host or member gets expire_ticks UNDEFINED and leaves the sleep queue if it was requeued during the walk; a context not queued sees no queue change, and nothing else changes |
| Poller.UnexpireAsWrittenIncoherent | src/poller.c:166 | as written: a collected context that set_resume requeues during the walk is queued at RESUME_NOW, and clearing its expire_ticks then breaks the match between the queue and expire_ticks |
| Poller.ResumeExpired | src/poller.c:166-195 | corrected as Unexpire is: each collected context has expire_ticks UNDEFINED and is in no bucket when it is handed to poller_resume, with poller_resume's two outcomes |
| SleepQueue.RemoveFirst | src/mnthr.c:351 | the bucket without the context: unchanged when absent, one shorter when present, nothing else lost or added, and duplicate-free buckets stay so without it |
| SleepQueue.EnqueueNewKey | src/mnthr.c:395-436 | with no node at the key, sleepq_insert and sleepq_append both make the context the host of a new node and change nothing else |
| SleepQueue.EnqueueOrdering | src/mnthr.c:395-502 | at an occupied key the host stays host, sleepq_insert puts the context first in the bucket and sleepq_append last, and other keys are unchanged |
| SleepQueue.PrioRunsFirst | src/mnthr.c:506-509 | a context inserted with priority runs before one appended earlier at the same key (the choice mnthr_set_prio makes) |
| SleepQueue.RemoveHostPromotes | src/mnthr.c:322-343 | removing a host with a non-empty bucket makes the first member host, and it inherits the rest of the bucket in order |
| SleepQueue.RemoveLoneHost | src/mnthr.c:360-366 | removing a lone host deletes its key |
| SleepQueue.RemoveMember | src/mnthr.c:345-357 | removing a bucket member unlinks exactly that member; the host and every other member stay |
| SleepQueue.RemoveIgnored | src/mnthr.c:289-391 | sleepq_remove changes nothing for expire_ticks UNDEFINED, for an absent key, or for a context that is neither host nor member at its key |
| SleepQueue.InsertOnceHost | src/mnthr.c:449-452 | sleepq_insert_once changes nothing when the context already hosts the key |
| SleepQueue.EnqueueRemoveRoundTrip | src/mnthr.c:289-502 | enqueueing a context that is not queued and removing it again at the same key gives the queue back |
| SleepQueue.EnqueueKeepsNoDup | src/mnthr.c:395-502 | enqueueing a context that is not queued keeps every context queued at most once and adds exactly that context |
| SleepQueue.RemoveKeepsNoDup | src/mnthr.c:289-391 | sleepq_remove keeps the queue duplicate-free, takes the context out, and keeps every other context queued or not as before |
| SleepQueue.RemoveAtKeepsNoDup | src/mrkthr.c:329-379 | the same for a removal at any key, key 0 included (mrkthr's queue has no UNDEFINED key) |
| SleepQueue.RemoveSubset | src/mnthr.c:289-391 | removal only takes entries away |
| SleepQueue.EnqueueSubset | src/mnthr.c:395-502 | enqueueing adds the context at its key and nothing else |
| SleepQueue.LeastKey | src/poller.c:128 | BTRIE_MIN finds the least key of a non-empty trie |
| SleepQueue.Unexpired | src/poller.c:128-153 | the queue without its expired keys has every key >= now |
| SleepQueue.MembersFirst | src/mrkthr.c:1153-1179 | mrkthr's run order within a key: every bucket member in order, then the owner last |
| SleepQueue.DrainStep | src/poller.c:128-153 | the least expired key drains first and the rest drains after it |
| SleepQueue.DrainNone | src/poller.c:128-153 | nothing drains once the least key is not expired |
| SleepQueue.DrainOrderContents | src/poller.c:128-231 | the drain order holds exactly the contexts of the expired keys |
| SleepQueue.DrainOrderAscending | src/poller.c:128-155 | every context of the least expired key comes before any context of a larger key |
| MrkSleepq.LinkedSleepQueue.constructor | src/mrkthr.c:1113-1129 | an empty trie: the queue it stands for is empty and no context is tracked |
| MrkSleepq.LinkedSleepQueue.Track | src/mrkthr.c:562-567 | a new context gets expire_ticks 0 and NULL links; the queue is unchanged and the linked invariant holds |
| MrkSleepq.LinkedSleepQueue.BucketRemove | src/mrkthr.c:304-327 | sleepq_bucket_remove links the neighbours to each other, lets the owner's head or tail take the place of a missing one, and clears the context's own links |
| MrkSleepq.UnlinkOk | src/mrkthr.c:304-327 | unlinking a member of a bucket keeps every list linked and the structure well formed |
| MrkSleepq.LinkedSleepQueue.Enqueue | src/mrkthr.c:400-447 | sleepq_enqueue makes a context with no node at its key the owner of a new node, and otherwise appends it at the tail of the owner's bucket with prev, next, head and tail updated: the queue becomes AppendQ and stays linked |
| MrkSleepq.AppendOk | src/mrkthr.c:423-437 | the tail append keeps the lists linked |
| MrkSleepq.LinkedSleepQueue.HandleRemove | src/mrkthr.c:329-379 | as intended, a removed owner hands the node and the rest of its bucket to the bucket head, a lone owner takes the node out of the trie, a member is only unlinked, and a context that is neither changes nothing: the queue becomes RemoveAtQ |
| MrkSleepq.LinkedSleepQueue.HandOver | src/mrkthr.c:348-361 | the bucket head is unlinked, takes the rest of the bucket and replaces the owner in the trie node |
| MrkSleepq.HandOverOk | src/mrkthr.c:343-361 | the take-over keeps the structure linked and removes exactly the owner from the queue |
| MrkSleepq.MemberRemoveOk | src/mrkthr.c:364-367 | unlinking a member keeps the structure linked and removes exactly that member |
| MrkSleepq.LoneRemoveOk | src/mrkthr.c:369-377 | a lone owner's node leaves the trie and its key the queue |
| MrkSleepq.StrangerRemoveNoop | src/mrkthr.c:364-367 | for a context that is neither owner nor member the intended removal changes nothing |
| MrkSleepq.MemberTest | src/mrkthr.c:307-323 | a context is in the owner's bucket exactly when it is the bucket head or has a predecessor, the test the corrected removal uses |
| MrkSleepq.UnlinkStrangerDropsBucket | src/mrkthr.c:366 | unlinking a context that is in no bucket from a non-empty bucket reads its NULL links as first and last, so the owner's head and tail both become NULL |
| MrkSleepq.RemoveAsWritten | src/mrkthr.c:343-379 | sleepq_handle_remove as written, on the queue: it agrees with the intended removal whenever the context is queued at its key |
| MrkSleepq.RemoveAsWrittenLosesMember | src/mrkthr.c:364-367 | removing context 3 at key 5 where 1 owns [2] loses 2 as written, so the drain resumes only 1, while the intended removal keeps the queue |
| MrkSleepq.LinkedSleepQueue.Remove | src/mrkthr.c:381-398 | sleepq_remove with a node at the key goes through the node's owner and otherwise changes nothing; afterwards the context is nowhere in the queue |
| MrkSleepq.RemoveUnqueues | src/mrkthr.c:381-398 | after the removal at its own key a context is not queued anywhere |
| MrkSleepq.LinkedSleepQueue.SetExpire | src/mrkthr.c:957 | setting expire_ticks of a context out of the queue keeps the queue and the linked invariant |
| MrkSleepq.LinkedSleepQueue.Detach | src/mrkthr.c:1149 | trie_node_remove takes only the node out of the trie; the owner keeps its bucket |
| MrkSleepq.LinkedSleepQueue.DrainBucket | src/mrkthr.c:1158-1170 | the bucket is unlinked head first and its members come back in bucket order; once it is empty the owner's key is out of the queue |
| MrkSleepq.LinkedSleepQueue.Drain | src/mrkthr.c:1113-1185 | process_sleep_resume_list resumes exactly the contexts of the keys below now, smallest key first, each bucket's members before their owner, and stops at the first unexpired key, leaving exactly the unexpired part |
| Mrkthr.Vacants | src/mrkthr.c:865 | a waitq of n slots that are all MAP_FAILED |
| Mrkthr.FirstVacantIndex | src/mrkthr.c:832-840 | the first MAP_FAILED slot, or the length when there is none: every slot before it is taken |
| Mrkthr.Joined | src/mrkthr.c:842-848 | the caller takes the first MAP_FAILED slot, every other slot keeps its entry, and only a full array grows, by one slot at the end |
| Mrkthr.FirstVacant | src/mrkthr.c:832-840 | the scan stops at the first MAP_FAILED slot, or runs off the end when every slot is taken |
| Mrkthr.JoinedAt | src/mrkthr.c:832-848 | the index the scan stops at is the only one with its properties, so storing there is Joined |
| Mrkthr.VacantStep | src/mrkthr.c:859-867 | clearing slot i of a walk that has cleared the slots before it leaves the first i + 1 slots cleared |
| Mrkthr.Requeued | src/mrkthr.c:957-959 | the context moves to key 0 of the sleep queue; the co fields and the set of contexts stay |
| Mrkthr.Woken | src/mrkthr.c:943-960 | set_resume as intended: a context without a function is left alone, any other is in state EVENT_RESUME at key 0 (WokenOk) |
| Mrkthr.Interrupted | src/mrkthr.c:966-983 | set_interrupt corrected with the removal the source leaves out (see Findings): rc becomes CO_RC_USER_INTERRUPTED and the context moves to key 0 (InterruptedOk) |
| Mrkthr.InterruptedAsWritten | src/mrkthr.c:980-982 | set_interrupt as written: rc CO_RC_USER_INTERRUPTED, expire_ticks 0 and an enqueue at key 0 with no removal from the old key |
| Mrkthr.InterruptedAsWrittenResumesTwice | src/mrkthr.c:966-983 | a thread asleep until tick 7 that another interrupts is queued at 7 and at 0 as written, and the drain at tick 8 resumes it twice |
| Mrkthr.InterruptedResumesOnce | src/mrkthr.c:966-983 | with the removal the same thread is only at key 0 and the drain at tick 8 resumes it once |
| Mrkthr.QueuedTwiceDrainsTwice | src/mrkthr.c:1113-1185 | a context queued at two expired keys is a duplicate, and the drain resumes it once per key |
| Mrkthr.WokenAsWritten | src/mrkthr.c:956-959 | set_resume as written: expire_ticks 0 and an enqueue at key 0 with no removal from the old key |
| Mrkthr.WokenAsWrittenResumesTwice | src/mrkthr.c:943-960 | a thread asleep until tick 7 that another wakes is queued at 7 and at 0 as written, and the drain at tick 8 resumes it twice |
| Mrkthr.WokenResumesOnce | src/mrkthr.c:943-960 | with the removal the same thread is only at key 0 and the drain at tick 8 resumes it once |
| Mrkthr.DrainOne | src/mrkthr.c:1127-1184 | a queue with one context at one key drains to exactly that context once the clock is past the key |
| Mrkthr.RequeuedOk | src/mrkthr.c:957-959 | requeueing keeps each context in the queue at most once and at its own expire_ticks, puts the context at key 0 and leaves every other where it was |
| Mrkthr.WokenOk | src/mrkthr.c:943-960 | set_resume changes exactly the context it is given: EVENT_RESUME and key 0 when it has a function, nothing otherwise; the queue stays sane |
| Mrkthr.InterruptedOk | src/mrkthr.c:966-983 | set_interrupt changes only the given context's rc and queue place, and leaves a context without a function alone |
| Mrkthr.WakeAll | src/mrkthr.c:854-868 | resume_waitq_all on values: set_resume for each joiner in array order; the contexts stay the same |
| Mrkthr.WakeAllOk | src/mrkthr.c:854-868 | every joiner with a function ends in EVENT_RESUME at key 0, every other context keeps its co, expire_ticks and queue place, and the queue stays sane |
| Mrkthr.WakeAllStep | src/mrkthr.c:859-867 | the walk from slot i is set_resume of slot i's joiner followed by the walk from i + 1 |
| Mrkthr.PushBook | src/mrkthr.c:607-616 | pushing a known context on the free stack keeps the bookkeeping |
| Mrkthr.FreshBook | src/mrkthr.c:631-633 | a context added at the end of the list is new and keeps the bookkeeping |
| Mrkthr.CoBook | src/mrkthr.c:902-904 | a new co value for a known context keeps the bookkeeping |
| Mrkthr.ClearBook | src/mrkthr.c:865 | clearing a waitq slot keeps the bookkeeping |
| Mrkthr.JoinedWaiters | src/mrkthr.c:848 | after the join the waitq still holds only known contexts |
| Mrkthr.JoinBook | src/mrkthr.c:848 | the join keeps the bookkeeping |
| Mrkthr.SchedBook | src/mrkthr.c:943-983 | set_resume and set_interrupt keep the bookkeeping |
| Mrkthr.Finalized | src/mrkthr.c:538-552 | co_fini leaves the context DORMANT with rc 0 and no function, and changes nothing else |
| Mrkthr.Threads.WorldSane | src/mrkthr.c:382-447 | in a valid state the sleep queue holds each context once, at its expire_ticks |
| Mrkthr.Threads.constructor | src/mrkthr.c:453-505 | mrkthr_init: no contexts, no free stack, an empty sleep queue and no running thread |
| Mrkthr.Threads.PushFree | src/mrkthr.c:607-616 | the context goes on top of the free stack and nothing else changes |
| Mrkthr.Threads.PopTop | src/mrkthr.c:625-629 | the most recently pushed context comes off the free stack |
| Mrkthr.Threads.AddCtx | src/mrkthr.c:555-574 | a new context at the end of the list, DORMANT with rc 0, no function and an empty waitq |
| Mrkthr.Threads.Fresh | src/mrkthr.c:630-633 | list_incr with mrkthr_ctx_init: a new context with expire_ticks 0, out of the sleep queue |
| Mrkthr.Threads.PopFree | src/mrkthr.c:619-636 | the top of the free stack when there is one, otherwise a new context |
| Mrkthr.Threads.SetCo | src/mrkthr.c:681 | stores a new co value for one context and changes nothing else |
| Mrkthr.Threads.New | src/mrkthr.c:644-702 | mrkthr_new: the context pop_free_ctx gives gets its function and stays DORMANT |
| Mrkthr.Threads.Enlist | src/mrkthr.c:832-848 | the caller is stored in the first MAP_FAILED slot of the target's waitq, or in a new one |
| Mrkthr.Threads.JoinWaitq | src/mrkthr.c:825-851 | the running thread is in the target's waitq with state EVENT_JOINWAITQ |
| Mrkthr.Threads.Join | src/mrkthr.c:872-879 | CO_RC_JOIN_INVALID and no change for a target that is DORMANT or RESUMED, otherwise join_waitq |
| Mrkthr.Threads.Requeue | src/mrkthr.c:957-959 | the context leaves its key and is appended at key 0 |
| Mrkthr.Threads.SetResume | src/mrkthr.c:943-960 | mrkthr_set_resume with the removal: the state becomes Woken of the old one |
| Mrkthr.Threads.SetInterrupt | src/mrkthr.c:966-983 | mrkthr_set_interrupt corrected with the removal: the state becomes Interrupted of the old one |
| Mrkthr.Threads.ClearSlot | src/mrkthr.c:865 | one waitq slot becomes MAP_FAILED and nothing else changes |
| Mrkthr.Threads.ResumeSlot | src/mrkthr.c:863-866 | a joiner in the slot is set to resume and the slot is cleared; an empty slot changes nothing |
| Mrkthr.Threads.ResumeWaitqAll | src/mrkthr.c:854-868 | the state becomes WakeAll of the old one over the waitq, and every slot is MAP_FAILED with the array keeping its length |
| Mrkthr.Threads.Retire | src/mrkthr.c:895-898 | the joiners are woken, the context is finalized and goes on top of the free stack |
| Mrkthr.Threads.SwitchTo | src/mrkthr.c:902-904 | the context is RESUMED and becomes `me` |
| Mrkthr.Threads.SwitchOut | src/mrkthr.c:916 | `me` is cleared and nothing else changes |
| Mrkthr.Threads.Resume | src/mrkthr.c:882-906 | a thread not waiting on an event is retired and refused with RESUME + 1; any other is RESUMED and runs as `me` |
| Mrkthr.Threads.ResumeReturn | src/mrkthr.c:914-932 | back from the thread, `me` is cleared; a waiting thread gives 0, and a thread still RESUMED has exited, is retired, and gives RESUME + 2 |
| Mnthr.Scheduler.constructor | src/mnthr.c:516-553 | mnthr_init: no contexts, empty sleep and wait queues, an empty free list and `ctxes`, the default stack size and co_id 0 |
| Mnthr.Scheduler.SetStacksize | src/mnthr.c:239-256 | the previous size is returned and the new one is the clamped and page-rounded request; nothing else changes |
| Mnthr.Scheduler.SleepqInsert | src/mnthr.c:395-436 | the context becomes host of a new key or goes to the front of the host's bucket (InsertQ) |
| Mnthr.Scheduler.SleepqAppend | src/mnthr.c:473-502 | the context becomes host of a new key or goes to the back of the host's bucket (AppendQ) |
| Mnthr.Scheduler.SleepqInsertOnce | src/mnthr.c:440-469 | no change when the context already hosts its key, otherwise as sleepq_insert (InsertOnceQ) |
| Mnthr.Scheduler.SleepqEnqueue | src/mnthr.c:506-509 | the context's own discipline is used: front insertion after mnthr_set_prio with a flag, back insertion otherwise |
| Mnthr.Scheduler.SleepqRemove | src/mnthr.c:289-391 | nothing for an UNDEFINED key or a key without a node; otherwise the context leaves its key, a host handing its bucket on (RemoveQ) |
| Mnthr.Scheduler.SetPrio | src/mnthr.c:506-509 | only the context's enqueue discipline changes, and the invariant is kept |
| Mnthr.Scheduler.SetResume | src/mnthr.c:1429-1456 | set_resume is ResumeCtxs, ResumeExpire and ResumeQ of the old state, which ResumeCoherent shows keep the sleep queue coherent |
| Mnthr.Scheduler.SetInterrupt | src/mnthr.c:1493-1530 | as set_resume, with state SET_INTERRUPT and rc USER_INTERRUPTED (InterruptCtxs) |
| Mnthr.Scheduler.SwitchOut | src/mnthr.c:1145-1170 | yield: control goes back to the loop and no bookkeeping changes |
| Mnthr.Scheduler.SleepAt | src/mnthr.c:1186-1248 | the running thread takes the state, leaves its old key, is enqueued at the new key by its own discipline and yields; nobody else changes queue membership |
| Mnthr.Scheduler.Sleep | src/mnthr.c:1250-1256 | mnthr_sleep: state SLEEP, the key MNTHR_SET_EXPIRE_TICKS gives for msec, enqueued there, then yield |
| Mnthr.Scheduler.SleepUsec | src/mnthr.c:1260-1266 | the same with the microsecond conversion |
| Mnthr.Scheduler.SleepTicks | src/mnthr.c:1270-1276 | the same with the tick conversion |
| Mnthr.Scheduler.Yield | src/mnthr.c:1280-1286 | mnthr_yield: state SLEEP at the absolute key 1 (RESUME_NOW), then yield |
| Mnthr.Scheduler.Giveup | src/mnthr.c:1290-1296 | mnthr_giveup: state SLEEP at key FOREVER, then yield |
| Mnthr.Scheduler.AppendMeToWaitq | src/mnthr.c:1300-1308 | the running thread leaves the queue it was in, if any, names the new queue as its hosting_waitq and stands at its back |
| Mnthr.Scheduler.JoinBack | src/mnthr.c:1306-1307 | a thread in no queue joins the back of one and the queues stay coherent |
| Mnthr.Scheduler.RemoveMeFromWaitq | src/mnthr.c:1312-1318 | the running thread leaves the queue it waits in and its hosting_waitq is cleared |
| Mnthr.Scheduler.LeaveWaitq | src/mnthr.c:1312-1318 | any waiting context leaves its queue, the queue shrinks by one and hosting_waitq is cleared |
| Mnthr.Scheduler.WaitqMemberNotFree | src/mnthr.c:1300-1318 | a context that waits in a queue names that queue and is not on the free list |
| Mnthr.Scheduler.ResumeWaitqOne | src/mnthr.c:1361-1372 | an empty queue changes nothing; otherwise its head leaves it and is set for resume (WakeStep) |
| Mnthr.Scheduler.WakeHead | src/mnthr.c:1350-1355 | the head leaves the queue and the book becomes WakeStep of the old one |
| Mnthr.Scheduler.PopWaiter | src/mnthr.c:1350-1354 | the head of the queue is returned, leaves it, and its hosting_waitq is cleared |
| Mnthr.Scheduler.MembersTracked | src/mnthr.c:1346-1357 | every member of a wait queue has a record |
| Mnthr.Scheduler.ResumeWaitqAll | src/mnthr.c:1346-1357 | the queue is emptied and the book becomes WakeAll of the old one over the old members, head first |
| Mnthr.Scheduler.WaitIn | src/mnthr.c:1300-1330 | the running thread takes the state, stands at the back of the queue (never its own) and yields |
| Mnthr.Scheduler.Join | src/mnthr.c:1334-1342 | JOIN_FAILURE and no change for a target that is not resumable (dormant, or the caller); otherwise the caller is in state JOIN at the back of the target's queue |
| Mnthr.Scheduler.SetInterruptAndJoin | src/mnthr.c:1534-1546 | the same check; then the target is interrupted and the caller waits for it in state JOIN_INTERRUPTED |
| Mnthr.Scheduler.Run | src/mnthr.c:1376-1391 | mnthr_run of a DORMANT context is set_resume |
| Mnthr.Scheduler.CondInit | src/mnthr.c:2379-2382 | the condition variable's queue is empty and nothing else changes |
| Mnthr.Scheduler.CondWait | src/mnthr.c:2386-2390 | the caller takes state CONDWAIT, stands at the back of the queue and yields |
| Mnthr.Scheduler.CondSignalAll | src/mnthr.c:2394-2397 | every waiter is set for resume in queue order and the queue is emptied |
| Mnthr.Scheduler.CondSignalOne | src/mnthr.c:2401-2404 | the first waiter, if any, is set for resume |
| Mnthr.Scheduler.CondFini | src/mnthr.c:2408-2412 | every waiter is set for resume and the queue goes away |
| Mnthr.Scheduler.DropCondQueue | src/mnthr.c:2408-2412 | an empty condition-variable queue goes away and the invariant holds |
| Mnthr.Scheduler.SetRetval | src/mnthr.c:1080-1087 | the running thread's previous rc is returned and the new one stored |
| Mnthr.Scheduler.Exit | src/mnthr.c:943 | the thread function returns to main_uc: control goes back to the loop with the thread still RESUMED |
| Mnthr.Scheduler.Incabac | src/mnthr.c:1127-1130 | the context's holder count goes up by one |
| Mnthr.Scheduler.Decabac | src/mnthr.c:1134-1138 | the holder count, which must be positive, goes down by one |
| Mnthr.Scheduler.FinalizeCtx | src/mnthr.c:748-754 | expire_ticks UNDEFINED and the record finalized, nothing else changes |
| Mnthr.Scheduler.FinalizeAndWake | src/mnthr.c:748-758 | the context is finalized and everybody joined on it is woken in order (WakeAll over its own queue) |
| Mnthr.Scheduler.DetachAndPush | src/mnthr.c:760-764 | a finalized context leaves the queue it waits in and goes to the back of the free list |
| Mnthr.Scheduler.PushFreeCtx | src/mnthr.c:146-152 | push_free_ctx: finalized, its joiners woken, out of the queue it waits in, at the back of the free list |
| Mnthr.Scheduler.Unsleep | src/mnthr.c:289-391 | sleepq_remove with the invariant kept: the context is no longer in the sleep queue |
| Mnthr.Scheduler.Discard | src/poller.c:43-47 | what the poller does to a thread it gives up on: sleepq_remove, then push_free_ctx, both stated against the state before |
| Mnthr.Scheduler.FindIdle | src/mnthr.c:814-822 | the scan stops at the first free context nobody holds, or at the end (FirstIdle) |
| Mnthr.Scheduler.PopFree | src/mnthr.c:810-828 | the first free context with abac 0 leaves the free list with rc 0; without one a new context is made |
| Mnthr.Scheduler.CtxNew | src/mnthr.c:799-806 | a new slot at the end of `ctxes` holding a context as mnthr_ctx_init leaves it |
| Mnthr.Scheduler.New | src/mnthr.c:960-972 | mnthr_new: a context from the pool gets the next co_id and its function, and stays DORMANT |
| Mnthr.Scheduler.Number | src/mnthr.c:913-944 | the context takes co_id, which is incremented, and its function |
| Mnthr.Scheduler.Spawn | src/mnthr.c:1395-1408 | mnthr_spawn: a new numbered thread in state SET_RESUME queued at RESUME_NOW; no other record changes |
| Mnthr.Scheduler.Gc | src/mnthr.c:833-896 | the free contexts nobody holds are destroyed and counted, the held ones form the new free list (the corrected requeue, see Findings), and the array is compacted keeping the survivors' order |
| Mnthr.Scheduler.Reclaim | src/mnthr.c:884-893 | the destroyed contexts' records and queues go; every kept one is on the free list, as the corrected requeue puts them |
| MnthrModel.ClampRound | src/mnthr.c:239-256 | the adjusted stack size lies in [2, 2048] pages, is a whole number of pages, and is the least page multiple at or above the clamped request |
| MnthrModel.ClampRoundIdempotent | src/mnthr.c:239-256 | an in-range size is kept, so adjusting twice is adjusting once |
| MnthrModel.ClampRoundMonotone | src/mnthr.c:239-256 | a larger request never gives a smaller stack |
| MnthrModel.LiveNotFree | src/mnthr.c:742-768 | a context with a function is not on the free list, since a free one is finalized |
| MnthrModel.ResumableNotFree | src/mnthr.c:1336-1341 | a context in a resumable state is not on the free list, so no free context owns the queue a joiner waits in |
| MnthrModel.RemoveIgnoredNotQueued | src/mnthr.c:289-391 | sleepq_remove of a context that is neither host nor member anywhere changes nothing |
| MnthrModel.RemoveCoherent | src/mnthr.c:289-391 | taking a context out at its own key leaves it unqueued, everybody else in place, and the queue coherent with expire_ticks |
| MnthrModel.RequeueCoherent | src/mnthr.c:1186-1195 | removing a context and enqueueing it at a defined key keeps the queue coherent, with it queued once |
| MnthrModel.UnqueuedRekey | src/mnthr.c:1177-1182 | a context out of the queue may take any key |
| MnthrModel.UndefinedNotQueued | src/mnthr.c:299-301 | a context whose expire_ticks is UNDEFINED is in no bucket |
| MnthrModel.InterruptKeepsResumable | src/mnthr.c:1493-1530 | an interrupted context keeps a resumable state, rc becomes USER_INTERRUPTED when it has a function, and no other record changes |
| MnthrModel.ResumeQ | src/mnthr.c:1450-1455 | the sleep queue after set_resume: out of the old place, in at RESUME_NOW by the context's own discipline |
| MnthrModel.ResumeCoherent | src/mnthr.c:1429-1456 | set_resume keeps the queue coherent; a context with a function ends at RESUME_NOW in state SET_RESUME, one without is untouched, and nobody else changes membership |
| MnthrModel.WakeStep | src/mnthr.c:1350-1355 | one iteration of resume_waitq_all: hosting_waitq cleared, then set_resume |
| MnthrModel.WakeAll | src/mnthr.c:1346-1357 | resume_waitq_all over the members, head first |
| MnthrModel.WakeAllCons | src/mnthr.c:1350 | waking a queue is waking its head, then the rest |
| MnthrModel.WakeAllClears | src/mnthr.c:1346-1357 | every member's hosting_waitq is cleared and each member with a function is in SET_RESUME; other contexts keep their records |
| MnthrModel.WakeStepAppends | src/mnthr.c:1350-1355 | waking an unqueued head with a function and the append discipline puts it at the back of RESUME_NOW |
| MnthrModel.WakeAllFifo | src/mnthr.c:1346-1357 | unqueued members with a function and the append discipline land at the back of RESUME_NOW in wait-queue order |
| MnthrModel.WakeAllOtherKeys | src/mnthr.c:1346-1357 | a FIFO wake-up leaves every key other than RESUME_NOW as it was |
| MnthrModel.WakeAllCoherent | src/mnthr.c:1346-1357 | waking everybody keeps the sleep queue coherent with expire_ticks |
| MnthrModel.ExpireTicksFor | src/mnthr.c:1173-1183 | FOREVER stays FOREVER, 0 becomes RESUME_NOW, anything else becomes fn(v) |
| MnthrModel.ExpireTicksDefined | src/mnthr.c:1173-1183 | the key is never UNDEFINED unless fn(v) is |
| MnthrModel.Without | src/mnthr.c:1316 | DTQUEUE_REMOVE on the queue: the context is gone, and a queue without it is unchanged |
| MnthrModel.WithoutMem | src/mnthr.c:1316 | the removal keeps every other member |
| MnthrModel.WithoutDistinct | src/mnthr.c:1316 | the removal keeps a queue duplicate-free |
| MnthrModel.WithoutMember | src/mnthr.c:1316 | removing a member of a duplicate-free queue shortens it by one |
| MnthrModel.MovedWaitqs | src/mnthr.c:1300-1308 | append_me_to_waitq on the queues: out of the old queue, into the back of the new one |
| MnthrModel.MovedToBack | src/mnthr.c:1300-1308 | the mover ends at the back of the target, wherever it was before |
| MnthrModel.JoinBackCoherent | src/mnthr.c:1306-1307 | a context in no queue that joins the back of one keeps the queues coherent with hosting_waitq |
| MnthrModel.PopCoherent | src/mnthr.c:1350-1354 | taking the head off and clearing its hosting_waitq keeps the queues coherent |
| MnthrModel.PopFreeIdle | src/mnthr.c:1350-1354 | a free context's queue is empty, so changing a non-empty one leaves the free list idle |
| MnthrModel.LeaveCoherent | src/mnthr.c:1312-1318 | remove_me_from_waitq keeps the queues coherent and shortens the queue by one |
| MnthrModel.LeaveMembers | src/mnthr.c:1312-1318 | after the leave every queued context still names its queue |
| MnthrModel.LeaveHosted | src/mnthr.c:1312-1318 | after the leave every waiting context is in the queue it names |
| MnthrModel.AddEmptyCoherent | src/mnthr.c:2379-2382 | a new empty queue keeps the queues coherent |
| MnthrModel.DropEmptyCoherent | src/mnthr.c:2408-2412 | an empty condition-variable queue can go |
| MnthrModel.ResumableIsRunnable | src/mnthr.c:1120-1123 | every resumable state is runnable (above DORMANT); DORMANT and RESUMED are not resumable |
| CtxPool.FirstIdle | src/mnthr.c:814-822 | the first free context whose abac is zero: every one before it is held, and with none every free context is held |
| CtxPool.RemoveAt | src/mnthr.c:819 | the free list without the chosen entry: one shorter, the entries before it in place, the later ones moved up, and one copy of the chosen context gone |
| CtxPool.FreeRemoveAt | src/mnthr.c:819-820 | taking a context off the free list keeps the rest finalized and idle, and it is no longer there |
| CtxPool.AbsentNotQueued | src/mnthr.c:799-806 | a context without a record is nowhere in the sleep queue |
| CtxPool.FreshWaitqsCoherent | src/mnthr.c:654-700 | a new context brings an empty join queue and waits nowhere |
| CtxPool.FreshFree | src/mnthr.c:799-806 | a new record does not disturb the free list |
| CtxPool.SlotsAppend | src/mnthr.c:802 | a new slot at the end of `ctxes` adds its context once |
| CtxPool.Finalized | src/mnthr.c:742-768 | mnthr_ctx_finalize on the record: id -1, no function, DORMANT, append discipline; abac and rc stay |
| CtxPool.FreePush | src/mnthr.c:146-152 | a finalized context with an empty join queue may go to the back of the free list |
| CtxPool.Cleared | src/mnthr.c:842-858 | `ctxes` after the first pass of mnthr_gc: the slots of free contexts nobody holds are cleared |
| CtxPool.DropsReclaimed | src/mnthr.c:845-856 | a slot is cleared exactly when its context is one mnthr_gc destroys |
| CtxPool.ClearedMem | src/mnthr.c:842-858 | the cleared array is occupied by everyone but the unheld free contexts |
| CtxPool.ClearedUnique | src/mnthr.c:842-858 | clearing slots keeps every context in at most one slot |
| CtxPool.ClearedSlots | src/mnthr.c:842-858 | the cleared array holds everyone but the reclaimed, each once |
| CtxPool.DroppedMem | src/mnthr.c:852-856 | the cleared slots held exactly the destroyed contexts |
| CtxPool.KeptMembers | src/mnthr.c:846-851 | the temporary list holds exactly the held free contexts, each once |
| CtxPool.DropCountIsReclaimed | src/mnthr.c:852-856 | the count mnthr_gc returns is the number of contexts it destroys |
| CtxPool.ReclaimedMember | src/mnthr.c:845-856 | a context is destroyed exactly when its slot is cleared |
| CtxPool.ClearPass | src/mnthr.c:842-858 | the first loop computes the cleared array, the kept list in `ctxes` order, the destroyed set and their count |
| CtxPool.PresentConcat | src/mnthr.c:863-882 | who is present in two pieces is who is present in each, in order |
| CtxPool.PresentNone | src/mnthr.c:877-880 | a run of cleared slots holds nobody |
| CtxPool.SwapPresent | src/mnthr.c:868-875 | moving the next occupied slot into a cleared one keeps who is present and in what order |
| CtxPool.TrailingNone | src/mnthr.c:877-880 | cutting the array at a tail of cleared slots keeps who is present |
| CtxPool.SlotsPresent | src/mnthr.c:863-882 | the contexts in the slots are those present |
| CtxPool.UniquePresent | src/mnthr.c:863-882 | slots are unique exactly when the present sequence has no duplicate |
| CtxPool.SamePresent | src/mnthr.c:863-882 | arrays with the same contexts present in the same order have the same slots |
| CtxPool.GcSleepq | src/mnthr.c:833-896 | no destroyed context is in the sleep queue, so dropping their records keeps it coherent |
| CtxPool.GcWaitqs | src/mnthr.c:833-896 | destroyed contexts wait nowhere and nobody waits for them, so their queues can go |
| CtxPool.NextOf | src/mnthr.c:886 | DTQUEUE_NEXT of the last element of a list is none, and any next element is on the list |
| CtxPool.RequeueAsWritten | src/mnthr.c:884-893 | the requeue loop as written only appends to the free list it starts from, at most one context per element of tmp_list |
| CtxPool.GcFreeAsWrittenFirstOnly | src/mnthr.c:884-893 | as written the loop leaves only the first kept context on the free list, or none when nothing is kept |
| CtxPool.GcFreeAsWrittenLosesSecond | src/mnthr.c:884-893 | with kept contexts 1 and 2 the free list as written is [1], and 2 is not on it |
| CtxPool.GcFree | src/mnthr.c:884-891 | the kept contexts form a finalized, idle free list once the destroyed ones are gone |
| CtxPool.GcDropped | src/mnthr.c:842-858 | every free context has a slot, so the count is the number destroyed |
| CtxPool.GcCore | src/mnthr.c:833-896 | mnthr_gc keeps the invariant: the records, queues and slots of the destroyed contexts are gone |
| CtxPool.GcKeepsLive | src/mnthr.c:845 | a context that is not free is neither destroyed nor put on the new free list |
| CtxPool.CompactSlots | src/mnthr.c:863-882 | the compaction leaves no cleared slot and keeps the survivors in their order |
| CtxPool.FinalBook | src/mnthr.c:748-754 | the book after the first steps of mnthr_ctx_finalize: the record finalized, expire_ticks UNDEFINED |
| CtxPool.NotInOwnQueue | src/mnthr.c:1336-1341 | a context never waits in its own join queue |
| CtxPool.RecordCore | src/mnthr.c:1080-1138 | rewriting the record of a context that is not free keeps the invariant |
| CtxPool.DropCondCore | src/mnthr.c:2408-2412 | dropping an empty condition-variable queue keeps the invariant |
| CtxPool.UnsleepCore | src/mnthr.c:289-391 | sleepq_remove keeps the invariant and leaves the context unqueued |
| CtxPool.FreshCore | src/mnthr.c:799-806 | mnthr_ctx_new keeps the invariant |
| CtxPool.SleepCore | src/mnthr.c:1186-1248 | a sleep path's state, key and requeueing keep the invariant |
| CtxPool.SubQueueCore | src/poller.c:128-153 | taking whole keys out of the sleep queue keeps the invariant |
| CtxPool.UnexpireCore | src/poller.c:166 | setting expire_ticks of an unqueued live context keeps the invariant |
| Bytes.GrowBy | src/bytestream_helper.c:18-24 | no grow when eod + sz fits the buffer; otherwise the amount is max(need, BLOCKSZ) |
| Bytes.AfterRead | src/bytestream_helper.c:13-33 | a failed grow gives -1 with nothing changed; otherwise the buffer has room for sz bytes after eod, the bytes read land at eod and move it on, and a read error gives -1 with eod kept |
| Bytes.ReadAppends | src/bytestream_helper.c:26-30 | what read_more reads is appended to the bytes read before |
| Bytes.Sent | src/bytestream_helper.c:44 | the writer is handed the sz bytes from pos |
| Bytes.WroteAsWritten | src/bytestream_helper.c:35-48 | as written: pos + sz beyond eod gives -1 and no write; otherwise pos moves by what mrkthr_write_all returns, which is 0 on success |
| Bytes.WroteAsWrittenResends | src/bytestream_helper.c:44-45 | after a successful write of two ready bytes pos is still 0, so the next write hands the writer the same bytes again |
| Bytes.Wrote | src/bytestream_helper.c:35-48 | as intended: a successful write moves pos past the sz bytes and returns sz, a failed one leaves pos and returns the code, and pos + sz beyond eod gives -1 |
| Bytes.WritesConsecutive | src/bytestream_helper.c:35-48 | two successful writes hand the writer consecutive bytes of the stream, each once |
| Bytes.Stream.constructor | src/bytestream_helper.c:18 | a stream with an n-byte buffer and nothing read or written |
| Bytes.Stream.ReadMore | src/bytestream_helper.c:13-33 | mrkthr_bytestream_read_more in place: the new fields and the return value are AfterRead of the old ones |
| Bytes.Stream.Write | src/bytestream_helper.c:35-48 | mrkthr_bytestream_write corrected (see Findings) so that pos moves on by the bytes written: Wrote of the old fields, and the writer gets Sent |
| LatencyHarness.DepthAsWritten | test/testco.c:49-66 | the nested calls r(n) makes as written before its yield loop, within a call budget |
| LatencyHarness.DepthAsWrittenUnbounded | test/testco.c:49 | with `_shutdown` set the test `n >= nrecur && !_shutdown` never holds, so r recurses past any budget |
| LatencyHarness.Depth | test/testco.c:49-66 | as intended r(n) recurses down to depth nrecur: nrecur - n calls below nrecur, none at or above it |
| LatencyHarness.DepthAgrees | test/testco.c:49-66 | without a shutdown the written test and the intended one give the same depth |
| LatencyHarness.Yields | test/testco.c:50-64 | at most niter yields, none once `_shutdown` is up, at least one when it is down, and an early stop only after a yield that raised it |
| LatencyHarness.Monitor | test/testco.c:98-108 | the polling ends at once with `_shutdown` up, ends only after at least one poll when it settles, and never uses more polls than given |
| LatencyHarness.OldTotalStep | test/testco.c:100-107 | a poll with ntotal 0 leaves oldtotal alone; any other sets it to the poll's total |
| LatencyHarness.MonitorSettled | test/testco.c:98-108 | the polling settles at poll k exactly when that is the first poll with a non-zero oldtotal equal to its total and no earlier poll saw the flag |
| LatencyHarness.Harness.constructor | test/testco.c:17-22 | `_shutdown` 0, total 0, ntotal 0 |
| LatencyHarness.Harness.ShutMeDown | test/testco.c:170-180 | `_shutdown` becomes 1, 0 is returned and the totals stay |
| LatencyHarness.Harness.Yield | test/testco.c:57 | the flag after mrkthr_yield is the old flag or whatever another thread raised meanwhile |
| LatencyHarness.Harness.R | test/testco.c:40-68 | r(n), with the depth test corrected: depth Depth(n), Yields(...) yields, the flag as the environment raised it, the totals unchanged |
| LatencyHarness.Harness.Baz | test/testco.c:70-84 | exactly one sample is added: ntotal + 1 and total + (n2 - n1) as a 64-bit difference; 0 is returned |
| LatencyHarness.Harness.Sleep | test/testco.c:99 | after mrkthr_sleep the monitor sees the totals and flag the other threads left |
| LatencyHarness.Harness.Bar | test/testco.c:86-110 | nthreads tasks are spawned unless `_shutdown` is already up, and the polling ends as Monitor says |
| Poller.ActiveNotFree | src/mnthr.c:146-152 | push_free_ctx finalizes a context before it queues it on the free list, so under the scheduler invariant a context in any state but DORMANT is not on the free list |
| KeventPoller.KeventTable.constructor | src/kevent_poller.c:735-739 | poller_init starts from an empty kevent array, which already has at most one registration per (fd, filter) |

## Left out

- Machine contexts: `getcontext`/`makecontext`/`swapcontext`, `yield`, and the stacks that VNEW_BODY and `mrkthr_new` allocate with mmap/mprotect. A switch is an abstract event and the stack memory is not modelled.
- Socket and file I/O, the `read`/`write` calls inside `kev_read`/`kev_write`, and ioctl FIONREAD/FIONSPACE. Their results are parameters.
- The kqueue and libev event loops themselves (`kevent()`, `ev_run`, the watchers, `nanosleep`) and EINTR handling. These are calls into the operating system or into libev.
- TSC and floating-point clocks: `rdtsc`, `update_now`, `wallclock_init`, `ev_now() * 1e9`, the `*ticks2sec` functions, and the `long double` arithmetic of `mrkthr_sleep`. The tick clock is an input.
- The foreign containers: btrie, DTQUEUE, STQUEUE, `array`, `hash`, fasthash and `bytestream_grow`. They are maps and sequences with their obvious contracts. The bytes that `bytestream_grow` adds are taken to be zero.
- The hash function of `ev_item_hash` is a parameter. Only its input, and the caching in the `hash` field, are modelled.
- The blocking paths: what a semaphore, rwlock or condition waiter does once it is woken, `mnthr_wait_for`, `mnthr_peek`, the join-with-timeout calls and the generators. A call that would wait ends as `Blocked`, after the caller has gone into the queue.
- `set_resume_fast` (src/mnthr.c:1460) is not modelled, because nothing in the core calls it.
- `mnthr_is_dead` is not modelled.
- Debug output (`mnthr_dump`, `mrkthr_dump`, `kevent_dump`, CTRACE) and `mnthr_set_name`.
- src/ev_poller.c, as shipped, does not compile at lines 128-130 and 171-183. The model follows the evident intent of `ev_item_cmp` and of the hash input there.
- The mrkthr `CO_STATE_EVENT_*` values and mrkthr's `CO_RC_*` values are not in the headers that come with src/mrkthr.c, so they are symbolic. The same holds for CO_RC_JOIN_INVALID.
- The co.id that `mrkthr_new` assigns is read through an iterator that is not initialized on every path, so mrkthr context ids are not modelled.
- The printed average latency of test/testco.c is a `long double` division, and the signal handler of test/testco.c only sets `_shutdown`. Neither is modelled.
- Other threads run between two resumes of the poller. So `poller_sift_sleepq`'s walk over the run queue is a sequence of `ResumeExpired` calls, with one tick value `now`, rather than one method. The run queue and `sleepq_bucket_tmp` are sequences, so a requeued bucket mate linked into two lists through one `sleepq_link` is not modelled; only its effect on the sleep queue is (see Findings).
- Poller.Unexpire: models the walk with the `sleepq_remove` it leaves out. A collected context requeued during the walk by `mnthr_set_resume` or `mnthr_set_interrupt` is taken out of the queue again. As written it stays queued with expire_ticks UNDEFINED, as `Poller.UnexpireAsWrittenIncoherent` states.
- Poller.ResumeExpired: the same correction as `Poller.Unexpire`, for the same case.
- Mnthr.Scheduler.New: `co_id` is an unbounded integer; the 32-bit counter of the source wrapping around is not modelled.
- Mnthr.Scheduler.SleepAt: the computed key must not be 0. A sleep whose sum of now and the delay wraps around to exactly 0 (UNDEFINED) is excluded.
- Mnthr.Scheduler.SetInterrupt: `poller_clear_event`, which `mnthr_set_interrupt` calls for a thread waiting on an event, is not part of this method. On the kqueue side it is modelled by `KeventPoller.KeventTable.PollerClearEvent`.
- The libev `poller_clear_event` (src/ev_poller.c:465-489) only stops the item's `ev_io` or `ev_stat` watcher. Watchers are not modelled, so it is not modelled either.
- Mnthr.Scheduler.Gc: the length `ctxes` is cut to after compaction is not stated, only the contexts the array holds, in order.
- Mnthr.Scheduler.Gc: the free list is rebuilt from every kept context in `ctxes` order. This is the corrected requeue, not the code as written. The loop at src/mnthr.c:884-893 steps with `DTQUEUE_NEXT` of a context it has just put at the tail of the emptied free list, so it stops after the first kept context and the others are on no list (see Findings). This reading takes `DTQUEUE_ENTRY_FINI` to clear the link; the DTQUEUE macros are not part of this model.
- Mnthr.Scheduler.Reclaim: states the corrected free list of `Mnthr.Scheduler.Gc`. `CtxPool.GcFreeAsWritten` is the loop as written.
- Mrkthr.Threads.New: the free stack is required to hold no context twice and to hold only finalized contexts on top, which `push_free_ctx` does not check itself.
- Poller.ResumeExpired: for a context that is refused, the contract states the free-list push and the finalized context, but not that the sleep queue and the wait queues are unchanged. `Poller.Resume` states the refused branch in full.
- Bytes.Stream.ReadMore: the reader is required to deliver at most `sz` bytes. This is the reader of the `USE_EV` build (src/bytestream_helper.c:7-10), bounded by `sz` as `mnthr_read_allb_et` is (src/mnthr.c:1950-1977). The `mrkthr_read_allb` of src/mrkthr.c:1577-1599 takes no size and reads every available byte, so it can write past `eod + sz`. That case is excluded, not modelled.
- Bytes.AfterRead: the same requirement on the bytes read, for the same reason.
- Bytes.Stream.ReadMore: `sz` is a natural number. The `ssize_t sz` of `mrkthr_bytestream_read_more` could be negative, and that case is not modelled.
- Bytes.Stream.Write: `sz` is a natural number, so the `(ssize_t)sz` cast of a size above 2^63 is not modelled.
- LatencyHarness.Harness.Baz: what the other threads do during the yield of `r` comes in as the `env` input.
- LatencyHarness.Harness.Baz: `total` (the `static long` of test/testco.c:21) is an unbounded sum. Its signed 64-bit overflow is not modelled.
- Mnthr.Scheduler.Incabac: `abac` (the `unsigned` of src/mnthr_private.h:81) is unbounded. Its 32-bit wrap-around is not modelled.
- EvPoller.WbuflenResult: models only the build without FIONSPACE. The FIONSPACE branch of `mnthr_get_wbuflen` is an ioctl and is not modelled.
- MrkSleepq.LinkedSleepQueue.Drain: uses one clock value for the whole drain. The source calls `update_now()` on every pass (src/mrkthr.c:1139) and reads `TRIE_MIN` again, which this does not model. Each bucket is also unlinked in full before any of its contexts is resumed, whereas the source resumes each one right after its unlink (src/mrkthr.c:1161-1166). So what resumed threads do to the queue during the drain is not modelled.
- MrkSleepq.LinkedSleepQueue.DrainBucket: unlinks the whole bucket before any resume, where the source resumes each member right after its unlink and then reads the bucket head again (src/mrkthr.c:1161-1166). Threads that change the bucket while they run are not modelled.

## Findings

| source | as written | input that shows it | evidently intended | confidence | as-written member | corrected member |
|---|---|---|---|---|---|---|
| test/testco.c:49 | `r` stops recursing only when `n >= nrecur && !_shutdown`, so with `_shutdown` set it never stops | `_shutdown` = 1 when `baz` starts: `r(0)` recurses past any depth and runs off its stack | recurse down to depth nrecur, then leave the yield loop early on shutdown | not executed | LatencyHarness.DepthAsWrittenUnbounded | LatencyHarness.Depth |
| src/kevent_poller.c:458-462 | the distance to the least key is `int64_t diff = expire_ticks - timecounter_now` | least key FOREVER (2^64 - 1) at now = 1: diff is -2, so the timeout is 0 s and -2 ns | an unsigned distance that gives a non-negative timeout | not executed | KeventPoller.TimeoutForeverNegative | KeventPoller.TimeoutSplits |
| src/bytestream_helper.c:44-45 | `pos += nwritten`, where `mrkthr_write_all` returns 0 after writing every byte | two ready bytes at pos 0: after a successful write pos is still 0, and the next write sends the same two bytes | pos moves past the `sz` bytes written | not executed | Bytes.WroteAsWrittenResends | Bytes.WritesConsecutive |
| src/mrkthr.c:364-367 | `sleepq_handle_remove` unlinks the context from its key's bucket without checking that it is a member there | 1 owns key 5 with 2 in its bucket, and context 3 carries key 5 without being queued: removing 3 loses 2 | a context that is neither owner nor member changes nothing | not executed | MrkSleepq.RemoveAsWrittenLosesMember | MrkSleepq.LinkedSleepQueue.HandleRemove |
| src/mrkthr.c:956-959 | `mrkthr_set_resume` enqueues at key 0 without `sleepq_remove` first | a thread asleep until tick 7 is woken: it is queued at 7 and at 0, and the drain at tick 8 resumes it twice | remove the old entry, then enqueue at 0 | not executed | Mrkthr.WokenAsWrittenResumesTwice | Mrkthr.WokenResumesOnce |
| src/mrkthr.c:966-983 | `mrkthr_set_interrupt` enqueues at key 0 without `sleepq_remove` first | a thread asleep until tick 7 is interrupted: it is queued at 7 and at 0, and the drain at tick 8 resumes it twice | remove the old entry, then enqueue at 0 | not executed | Mrkthr.InterruptedAsWrittenResumesTwice | Mrkthr.InterruptedResumesOnce |
| src/mnthr.c:884-893 | the requeue loop steps with `DTQUEUE_NEXT(free_link, tmp)` after moving `tmp` to the tail of the emptied free list | kept contexts 1 and 2 in `tmp_list`: the free list ends as [1], and 2 is on no list | every kept context back on the free list, in order | not executed | CtxPool.GcFreeAsWrittenLosesSecond | Mnthr.Scheduler.Gc |
| src/poller.c:166-205 | the walk sets `expire_ticks` to UNDEFINED with no `sleepq_remove`, although a thread resumed earlier in the walk may have requeued the context | host 1 at key 5 is collected; the thread resumed before it calls `mnthr_set_resume(1)`, whose `sleepq_remove` finds no node at 5, so 1 is queued at RESUME_NOW; the walk then clears its expire_ticks while it is queued | take the context out of the sleep queue before clearing its expire_ticks and resuming it | not executed | Poller.UnexpireAsWrittenIncoherent | Poller.Unexpire |
