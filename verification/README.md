# A verified model of the fiber runtime

This project models the parts of the Polyphony fiber runtime that hold most of its state: the
libev event loop it embeds, the io_uring operation contexts, the fiber scheduler, the blocking
queue and what is built on it, and the loops that move bytes. Each part is a Dafny model that
follows the branches of the C or Ruby code, and theorems about every run of it.

`dafny verify dfyconfig.toml` checks everything.

## How it is built

Where the source updates an object, there is a class (`RingBuffer`, `Backend`, `Queue`,
`ContextStore`, `TimerLoop`, `IoLoop`, `PollTable`, `FiberThread`) whose methods are proved
equal to a function on plain values. Protocols are step machines over these values: a step is
what runs between two switch points, or one load or store where threads share memory. The
theorems are about those values, for all runs. Kernel results, poll results, timestamps and the
scripts of callbacks are parameters, so the theorems hold for all of them. Times are exact reals.

| file | part |
|---|---|
| `AsyncWakeup.dfy` | the `pipe_write_wanted`/`pipe_write_skipped` handshake |
| `Heap4.dfy`, `Timers.dfy`, `Periodics.dfy` | the 4-ary heap, timers, periodics |
| `Dispatch.dfy` | pending queues and `ev_invoke_pending` |
| `FdTable.dfy` | lazy descriptor updates and the `poll` table |
| `IoUring.dfy`, `ContextStore.dfy` | operation contexts: the protocol, and the linked lists |
| `RingBuffer.dfy` | both ring buffers, as one generic class |
| `Scheduler.dfy`, `Backend.dfy` | run queues and switching: rules, and the object |
| `BlockingQueue.dfy`, `QueueObject.dfy` | the queue: protocol, and the object |
| `Mutex.dfy` | the token discipline |
| `FiberTree.dfy`, `FiberThread.dfy` | `Fiber.await`, structured shutdown, and their loops |
| `Bytes.dfy`, `Writev.dfy`, `Chunked.dfy`, `GzipHeader.dfy` | byte-exact transfer |
| `Options.dfy` | a shared datatype |

## Where the code falls short of the simple property

Each failure is shown by a lemma; the lemmas that give the exact condition are named after it.

- Deleting the first entry of a full ring buffer of more than one slot drops the last entry
  instead (`DeletingFrontOfFullDropsBack`; `DeleteAtIsRemovalIff`). Through it a rescheduled
  fiber can push another fiber out of the run queue (`RescheduleAtFullHeadLosesFiber`;
  `RescheduleIsExactIff`, `Scheduler.SafeIsExact`), and a sleeping fiber can vanish from a wait
  queue (`FullWaitQueueLosesSleeper`; `BlockingQueue.SafeIsExact`).
- A poll that reschedules the fiber just taken from the run queue leads to two entries for it
  (`PollReschedulingTakenFiberDuplicates`; `Scheduler.SafeIsExact`).
- A woken queue waiter that is resumed with an exception takes the wake-up with it
  (`ExceptionLosesWakeup`), and lifting the cap strands blocked pushers
  (`UncappingStrandsPushers`); both are covered by `BlockingQueue.SafeIsExact`.
- A chunked splice that is given up can leave a string the kernel still reads attached to
  nothing: any affix if it is resumed with a plain value, and after an exception the string a
  callable affix returned, because the callable is attached in its place
  (`CallableAffixIsLost`; `BuffersKeptIff`).
- A callable chunk postfix that raises leaves its context taken for good, and the strings of the
  SQEs under way attached to nothing (`RaisingPostfixLeaks`, `LeakOutlivesCompletions`).
- A reference count that reaches the multishot value frees its context too early, or lets a
  completion go uncounted (`SentinelFreesTooEarlyIff`, `AccountSurvivesIff`).
- Structured shutdown interrupts itself: ending a fiber sends `Terminate` to a child that is
  already waiting for its own children; the child gives up the wait, informs its monitors and is
  dead while its children live on (`ShutdownInterruptsShutdown`, reached by
  `ShutdownUnderWay`; `SafeMeansOrderly`). A child attached to a fiber that is shutting down is
  not waited for (`LateChildOutlivesItsParentIff`). `FiberTree.SafeIsExact` gives the exact
  condition for every kind of step.
- `try_lock` can wait: on a free mutex it goes through the store like `lock`, and a fiber that
  was waiting there before takes the token first (`TryLockWaits`; `TryLockFindsTokenIff`).
- An exception that finds a fiber taking the lock back after a condition wait inside
  `synchronize` ends with a second token in the store (`InterruptedWaitInSynchronize`,
  `EndingWithoutLockMintsToken`; `AccountIsExact`, `Mutex.SafeIsExact`). One that finds it
  waiting for the signal does not (`InterruptedBeforeSignal`).
- The gzip header reader ignores the flags for an extra field and a header checksum, and the
  reserved ones; it agrees with section 2.3 of RFC 1952 exactly when none of them is set
  (`FollowsStandardIff`), and names come back exactly when they hold no zero byte
  (`RoundTripIff`).

## Model

| member | source | states |
|---|---|---|
| `AsyncWakeup.StepKeepsInv` | ext/libev/ev.c:2480-2593 | every single load or store of a sender, of `pipecb` or of the blocking part of the loop keeps the handshake invariant |
| `AsyncWakeup.RunKeepsInv` | ext/libev/ev.c:3717-3829 | the invariant holds in every state of every interleaving of the loop with any number of senders |
| `AsyncWakeup.NoLostWakeup` | ext/libev/ev.c:2480-2593 | if the loop sits in a blocking poll and all senders have returned, a raised active source implies a nonzero eventfd counter |
| `AsyncWakeup.QuietRun` | ext/libev/ev.c:2530-2593 | with no sender at work, what remains to be delivered stays on its way through poll and `pipecb` |
| `AsyncWakeup.DeliveredWithinOneIteration` | ext/libev/ev.c:5089-5094 | a send that returned before an iteration starts is delivered by its end |
| `AsyncWakeup.SendIsDelivered` | ext/libev/ev.c:5089-5094 | every send that has returned before a pass begins, to a source that stays active, is fed by the end of that pass |
| `AsyncWakeup.NoLostSend` | ext/libev/ev.c:2480-2593 | a blocking poll after a returned send that has not been fed finds the eventfd readable |
| `AsyncWakeup.FeedsAnswerSends` | ext/libev/ev.c:2530-2593 | no source is fed more often than it was sent |
| `AsyncWakeup.OverlappingSendMarksAgain` | ext/libev/ev.c:5089-5094 | two overlapping sends may be fed twice with no send beginning between the feeds |
| `AsyncWakeup.FeedFollowsMark` | ext/libev/ev.c:2530-2593 | a marked source was marked by a sender since it was last fed |
| `AsyncWakeup.CounterCountsWrites` | ext/libev/ev.c:2530-2556 | the eventfd counts the writes since it was read, and is read only when the poll reported it |
| `AsyncWakeup.StartThenStop` | ext/libev/ev.c:5048-5087 | a started source is active and unmarked until it is stopped |
| `Heap4.Upheap` | ext/libev/ev.c:2372-2392 | restores the heap order of the first m entries from a key that is too small at k; same entries, indices in step, nothing moves beyond |
| `Heap4.MinChild` | ext/libev/ev.c:2301-2325 | the smallest of the up to four children |
| `Heap4.Downheap` | ext/libev/ev.c:2293-2338 | restores the heap order from a key that is too large at k; same entries, indices in step |
| `Heap4.Adjustheap` | ext/libev/ev.c:2394-2402 | restores the order after any change of one key |
| `Heap4.Reheap` | ext/libev/ev.c:2404-2414 | builds the order from arbitrary keys, keeping every entry and its back index |
| `Heap4.SwapKeeps` | ext/libev/ev.c:3187-3201 | exchanging two entries with their back indices keeps `active == index` and the set of entries |
| `Heap4.RootIsMinimal` | ext/libev/ev.c:3187-3201 | the parent-child order makes the root the minimum of the whole heap |
| `Timers.Insert` | ext/libev/ev.c:4046-4070 | adds exactly one timer with the given key; order, back indices and cached keys hold |
| `Timers.Remove` | ext/libev/ev.c:4072-4100 | removes exactly that timer, from any place |
| `Timers.Change` | ext/libev/ev.c:4102-4128 | rekeys exactly that timer |
| `Timers.Again` | ext/libev/ev.c:4102-4128 | starts, moves or stops the timer depending on `repeat` and activity |
| `Timers.ExpireRoot` | ext/libev/ev.c:3418-3441 | a repeating root moves to max(at + repeat, now), another one stops |
| `Timers.Expire` | ext/libev/ev.c:3410-3446 | the loop ends; what it collects is in deadline order, and no key stays below now |
| `Timers.TimerLoop.TimerStart` | ext/libev/ev.c:4046-4070 | an inactive timer runs with deadline at + now, an active one is left alone |
| `Timers.TimerLoop.TimerStop` | ext/libev/ev.c:4072-4100 | the timer is gone, its pending event cleared, its `at` made relative again |
| `Timers.TimerLoop.TimerAgain` | ext/libev/ev.c:4102-4128 | the running timers after `ev_timer_again`, in all four cases |
| `Timers.TimerLoop.CollectExpired` | ext/libev/ev.c:3410-3442 | the expired timers in deadline order, each once, and the running timers after it |
| `Timers.TimerLoop.TimersReify` | ext/libev/ev.c:3410-3446 | feeds exactly the timers overdue at entry, each once; repeating ones stay at max(at + repeat, now); every key is at least now |
| `Timers.ExpiredTimersRunInDeadlineOrder` | ext/libev/ev.c:3410-3446 | of two expired timers of equal priority that were not pending, the one with the earlier deadline is invoked first, whatever callbacks do, unless one clears either of the two or runs a nested loop before that one is invoked |
| `Dispatch.FeedKeeps` | ext/libev/ev.c:2033-2049 | feeding keeps every pending index pointing at its own entry and touches no other watcher |
| `Dispatch.ClearKeeps` | ext/libev/ev.c:3939-3965 | clearing empties exactly one watcher's entry and shrinks no queue |
| `Dispatch.RunCallback` | ext/libev/ev.c:3362-3383 | whatever a callback feeds or clears, the loop goes on with nothing pending above its priority |
| `Dispatch.EffectsKeep` | ext/libev/ev.c:2033-2049 | a callback keeps the queues consistent, and leaves what is pending in its place unless it clears it or runs a nested loop |
| `Dispatch.InvokePending` | ext/libev/ev.c:3362-3383 | the log is the run: each invocation is from the highest non-empty priority in the state the one before it left; the loop returns only when all queues are empty; quiet callbacks run in the order of the queues |
| `Dispatch.FeedReversedOrder` | ext/libev/ev.c:2051-2066 | of two watchers collected one after the other, the first ends up later in its queue |
| `Dispatch.HigherIndexRunsFirst` | ext/libev/ev.c:3362-3383 | in every run, of two watchers pending at one priority the one further back is invoked first, whatever callbacks do, unless one is cleared or a nested loop runs before it is invoked |
| `Dispatch.PendingIsInvoked` | ext/libev/ev.c:3362-3383 | when the loop returns, what was pending and not cleared before its turn has been invoked |
| `Dispatch.CollectedFirstRunsFirst` | ext/libev/ev.c:2051-2066 | of two watchers of equal priority collected one after the other, the first is invoked first, in every run |
| `Dispatch.InvocationCarriesWhatWasFed` | ext/libev/ev.c:2033-2049 | in every run an invocation carries exactly the events fed to its watcher since it was last invoked or cleared |
| `Dispatch.FeedReversedCarries` | ext/libev/ev.c:2051-2066 | every collected watcher is pending afterwards with the given events added |
| `Periodics.EvFloor` | ext/libev/ev.c:1624-1658 | the libm-free floor is the floor, for every real |
| `Periodics.PeriodicRecalc` | ext/libev/ev.c:3450-3473 | the next occurrence lies in (now, now + interval], on the grid when the interval exceeds the minimum |
| `Periodics.NextOccurrenceIsUnique` | ext/libev/ev.c:3450-3473 | only one grid point lies there |
| `Periodics.Recalculate` | ext/libev/ev.c:3517-3536 | every running periodic gets its next occurrence in key and cache; places unchanged |
| `Periodics.PeriodicsReschedule` | ext/libev/ev.c:3517-3539 | the same, with the heap in order again after arbitrary key changes |
| `FdTable.ToPollIsInjective` | ext/libev/ev_poll.c:77-79 | no two event masks map to the same poll flags |
| `FdTable.PollTable.Modify` | ext/libev/ev_poll.c:54-89 | `polls` and `pollidxs` stay inverse, the descriptor gets the new events or leaves, all others keep theirs |
| `FdTable.Removed` | ext/libev/ev_poll.c:80-88 | the swap-remove takes out exactly one descriptor and keeps the bijection |
| `FdTable.IoLoop.FdChange` | ext/libev/ev.c:2173-2187 | a descriptor is queued for update at most once |
| `FdTable.IoLoop.IoStart` | ext/libev/ev.c:3993-4021 | the watcher is started, listed once with its descriptor, and the descriptor queued |
| `FdTable.IoLoop.IoStop` | ext/libev/ev.c:4023-4044 | the watcher is stopped and unlisted, the descriptor queued |
| `FdTable.WlistDel` | ext/libev/ev.c:3924-3937 | unlinks exactly the given watcher |
| `FdTable.IoLoop.ListEvents` | ext/libev/ev.c:2156-2160 | the union over the list is the union over the started watchers |
| `FdTable.IoLoop.FdReify` | ext/libev/ev.c:2112-2170 | the poll table is the map from descriptors to the union of the events of their started watchers: the kernel is asked about reading exactly if one wants to read, about writing exactly if one wants to write |
| `FdTable.IoLoop.RunAndReify` | ext/libev/ev.c:2112-2170 | so it is after every sequence of set, start, stop and update calls |
| `FdTable.IoLoop.FdEvent` | ext/libev/ev.c:2078-2103 | exactly the started watchers with matching events are fed, each once; none if the descriptor changed since |
| `IoUring.StepKeepsInv` | ext/polyphony/backend_io_uring.c:215-235 | every start, completion, resumption, chain, splice and shared wait keeps the account of references |
| `IoUring.RunKeepsInv` | ext/polyphony/backend_io_uring.c:386-417 | the account holds in every reachable state below the sentinel |
| `IoUring.RefCountsAccount` | ext/polyphony/backend_io_uring_context.c:39-99 | `ref_count` is the outstanding CQEs plus the waiting fibers, and a context is on `available` exactly when that is 0 |
| `IoUring.NeverReusedInFlight` | ext/polyphony/backend_io_uring_context.c:39-68 | what `context_store_acquire` hands out has no completion outstanding and no holder |
| `IoUring.WokenAtMostOnce` | ext/polyphony/backend_io_uring.c:226-234 | a completion resumes the fiber of a single operation at most once, and never after it was given up |
| `IoUring.CompletionWakesIff` | ext/polyphony/backend_io_uring.c:226-234 | in every run a completion wakes the fiber of a single operation exactly when it was not cancelled and the fiber still waits |
| `IoUring.ResumptionAbandonsIff` | ext/polyphony/backend_io_uring.c:386-417 | a fiber that comes back gives its operation up exactly when the completion is still outstanding |
| `IoUring.AbandonedBuffersStayReachable` | ext/polyphony/backend_io_uring_context.c:116-138 | in every run an abandoned operation stays on `taken` until its last CQE, with every buffer its outstanding SQEs refer to attached, under the condition below |
| `IoUring.ChainIsAttached` | ext/polyphony/backend_io_uring.c:1664-1680 | what a chain attaches covers every buffer its SQEs refer to |
| `IoUring.CallableAffixIsLost` | ext/polyphony/backend_io_uring.c:1888-1928 | a string a callable affix returned is outstanding and attached to nothing after an exception |
| `IoUring.BuffersKeptIff` | ext/polyphony/backend_io_uring.c:1817-1835 | giving up an operation keeps all its buffers, whatever it started with, if and only if it is no chunked splice, or an exception ends it and no affix is callable, or it has no affix |
| `IoUring.WaitersShareOneContext` | ext/polyphony/backend_io_uring.c:1579-1621 | a fiber in `Backend_wait_event` always finds its context in `event_fd_ctx` |
| `IoUring.SentinelFreesTooEarlyIff` | ext/polyphony/backend_io_uring_context.c:70-99 | a release frees a context that has other references exactly at 65535, and lowers the count by one exactly otherwise |
| `IoUring.AccountSurvivesIff` | ext/polyphony/backend_io_uring.c:204-235 | the account of references survives a completion, a resumption or the end of a shared wait exactly below 65535 |
| `IoUring.RaisingPostfixLeaks` | ext/polyphony/backend_io_uring.c:1902-1907 | when a callable chunk postfix raises, the context keeps a reference nobody gives back, and its buffers are attached exactly if no SQE refers to any |
| `IoUring.LeakOutlivesCompletions` | ext/polyphony/backend_io_uring.c:226-234 | no completion frees such a context |
| `ContextStore.BypassLinks` | ext/polyphony/backend_io_uring_context.c:80-84 | unlinking a node from anywhere leaves a doubly linked list of the others |
| `ContextStore.MoveOver` | ext/polyphony/backend_io_uring_context.c:76-98 | moving a node between the lists keeps both linked and changes no context |
| `ContextStore.ContextStore.Acquire` | ext/polyphony/backend_io_uring_context.c:39-68 | the pointers implement the pool's acquire |
| `ContextStore.ContextStore.Release` | ext/polyphony/backend_io_uring_context.c:70-99 | the pointers implement the pool's release, and the result says whether the context was freed |
| `ContextStore.ContextStore.AttachBuffers` | ext/polyphony/backend_io_uring_context.c:125-138 | attaches to one context and disturbs no list |
| `ContextStore.ContextStore.MarkTakenBuffers` | ext/polyphony/backend_io_uring_context.c:116-123 | marks the buffers of the taken contexts, in order, and nothing else |
| `ContextStore.AttachedIsMarked` | ext/polyphony/backend_io_uring_context.c:116-123 | a buffer attached to a taken context is marked |
| `RingBuffers.StepBackLands` | ext/polyphony/ring_buffer.c:40-46 | `(x - 1) % size` on 32-bit unsigned numbers is the previous slot, because sizes are powers of two |
| `RingBuffers.PowersDivide` | ext/polyphony/ring_buffer.c:31-38 | a power of two divides every larger one |
| `RingBuffers.DeleteAtIsRemovalIff` | ext/polyphony/ring_buffer.c:76-82 | deletion removes logical entry i unless it is the first of a full buffer, where it does so only if all entries are equal |
| `RingBuffers.DeletingFrontOfFullDropsBack` | ext/polyphony/runqueue_ring_buffer.c:73-79 | a full buffer of four loses its last entry when its first is deleted |
| `RingBuffers.CloseGap` | ext/polyphony/ring_buffer.c:76-82 | the exact effect of the shifting loop on the logical contents |
| `RingBuffers.RingBuffer.Shift` | ext/polyphony/ring_buffer.c:21-29 | the first entry leaves |
| `RingBuffers.RingBuffer.Resize` | ext/polyphony/ring_buffer.c:31-38 | the contents survive growth wherever the head was |
| `RingBuffers.RingBuffer.Push` | ext/polyphony/ring_buffer.c:48-54 | appends, growing when full |
| `RingBuffers.RingBuffer.Unshift` | ext/polyphony/ring_buffer.c:40-46 | prepends, growing when full |
| `RingBuffers.RingBuffer.Delete` | ext/polyphony/ring_buffer.c:84-92 | deletes the first match, with the effect given above |
| `RingBuffers.RingBuffer.ShiftAll` | ext/polyphony/ring_buffer.c:68-74 | returns the contents in order and empties the buffer |
| `RingBuffers.RingBuffer.Clear` | ext/polyphony/ring_buffer.c:94-95 | the buffer is empty and keeps its size |
| `RingBuffers.RingBuffer.IndexOf` | ext/polyphony/runqueue_ring_buffer.c:104-111 | the first logical index that matches |
| `Scheduler.ExceptionSurvives` | ext/polyphony/runqueue_ring_buffer.c:91-102 | a queued exception outlives any number of plain values |
| `Scheduler.StepKeepsInv` | ext/polyphony/backend_common.c:131-162 | schedule, park, unpark, unschedule and take keep the run queue invariant |
| `Scheduler.RunKeepsInv` | ext/polyphony/backend_common.c:82-162 | it holds in every state of every run without the excluded steps |
| `Scheduler.OneEntryHoldingTheFold` | ext/polyphony/backend_common.c:82-129 | each fiber has at most one entry, in the queue its parked flag selects, and is resumed with the fold of the calls since its last run |
| `Scheduler.CallPutsFiber` | ext/polyphony/runqueue.c:17-36 | a prioritised call puts the fiber before all others, a plain one behind them, a queued exception stays in place, and the others keep their order |
| `Scheduler.PrioritisedRunsNext` | ext/polyphony/backend_common.c:131-154 | a fiber scheduled with priority is resumed by the next switch, with that value |
| `Scheduler.MovesPutFiber` | ext/polyphony/runqueue_ring_buffer.c:113-122 | parking and unparking move the entry behind those of the other queue, unscheduling removes it, and the others keep their order |
| `Scheduler.DeadStaysOut` | ext/polyphony/backend_common.c:131-154 | a dead fiber is not scheduled |
| `Scheduler.SafeIsExact` | ext/polyphony/backend_common.c:82-162 | schedule, park, unpark, unschedule and a switch with its poll keep the run queue invariant if and only if no deletion hits the head of a full buffer and the poll does not reschedule the fiber just taken, unless that one is dead |
| `Scheduler.RescheduleIsExactIff` | ext/polyphony/runqueue.c:17-36 | rescheduling, prioritised or not, replaces exactly the fiber's entry if and only if no deletion hits the head of a full buffer |
| `Scheduler.RescheduleAtFullHeadLosesFiber` | ext/polyphony/runqueue.c:17-29 | otherwise another fiber is lost |
| `Scheduler.PollReschedulingTakenFiberDuplicates` | ext/polyphony/backend_common.c:104-116 | a poll that reschedules the taken fiber gives it two entries |
| `Scheduler.SwitchDecomposes` | ext/polyphony/backend_common.c:82-129 | every switch is some calls its polls found followed by one take, with calls one of its polls found |
| `Scheduler.BoundedWaiting` | ext/polyphony/backend_common.c:82-129 | without prioritised calls a fiber at place i is resumed by the (i+1)-th switch |
| `Scheduler.NoStarvation` | ext/polyphony/backend_common.c:58-80 | any 64 consecutive switches with pending operations include a poll, also across the 32-bit wrap |
| `Scheduler.SwitchOutcome` | ext/polyphony/backend_common.c:82-129 | which fiber a switch resumes, and that it polls exactly when the count is due or the fiber is the current one, and is idle exactly when nothing is runnable or pending |
| `Scheduler.SwitchToSelfPolls` | ext/polyphony/backend_common.c:58-80 | a switch back to the current fiber with pending operations polls |
| `Backend.DeleteIfNotException` | ext/polyphony/runqueue_ring_buffer.c:91-102 | deletes the fiber's entry unless it holds an exception, and says which |
| `Backend.RunqueuePush` | ext/polyphony/runqueue.c:17-29 | the ring implements the reschedule rule |
| `Backend.RunqueueUnshift` | ext/polyphony/runqueue.c:31-36 | a prioritised call always replaces, in front (see `CallPutsFiber`) |
| `Backend.RunqueueMigrate` | ext/polyphony/runqueue_ring_buffer.c:113-122 | the entry moves to the other queue |
| `Backend.Backend.ScheduleFiber` | ext/polyphony/backend_common.c:131-154 | the object implements the schedule step |
| `Backend.Backend.ParkFiber` | ext/polyphony/backend_common.c:156-158 | the object implements the park step |
| `Backend.Backend.UnparkFiber` | ext/polyphony/backend_common.c:160-162 | the object implements the unpark step |
| `Backend.Backend.UnscheduleFiber` | ext/polyphony/backend_io_uring.c:321-326 | the object implements the unschedule step |
| `Backend.Backend.SwitchFiber` | ext/polyphony/backend_common.c:82-129 | the loop implements the switch: who is resumed with what, whether it polled, and the new state |
| `BlockingQueue.StepKeepsInv` | ext/polyphony/queue.c:83-207 | every safe step of every operation keeps the wake-up invariant |
| `BlockingQueue.SafeIsExact` | ext/polyphony/queue.c:104-207 | a step keeps it if and only if it is safe |
| `BlockingQueue.RunKeepsInv` | ext/polyphony/queue.c:83-294 | it holds in every state of every safe run |
| `BlockingQueue.WakeupSafety` | ext/polyphony/queue.c:83-294 | a sleeping shifter implies woken shifters >= stored values, a sleeping pusher woken pushers >= free slots, and sleepers are queued |
| `BlockingQueue.PushRespectsCapacity` | ext/polyphony/queue.c:104-166 | a push that stores leaves at most `capacity` values |
| `BlockingQueue.FirstInFirstOut` | ext/polyphony/queue.c:133-207 | values stored are the values taken followed by those still there, in order |
| `BlockingQueue.QueueIsDeque` | ext/polyphony/queue.c:133-332 | in every run the calls and their results are those of a plain double-ended queue, errors and closing included |
| `BlockingQueue.FirstInLineIsWoken` | ext/polyphony/queue.c:83-88 | a push that stores wakes the first shifter in line, a shift that makes room the first pusher |
| `BlockingQueue.ClosedQueueHasNoSleepers` | ext/polyphony/queue.c:338-434 | once the queue is closed, and after a flush, no shifter sleeps |
| `BlockingQueue.StrayWakes` | ext/polyphony/queue.c:179-207 | a waiting fiber scheduled by other code looks at the queue again |
| `BlockingQueue.ExceptionLosesWakeup` | ext/polyphony/queue.c:179-207 | an interrupted woken shifter leaves a sleeper and a value |
| `BlockingQueue.FullWaitQueueLosesSleeper` | ext/polyphony/queue.c:179-207 | a full wait queue loses a sleeper |
| `BlockingQueue.UncappingStrandsPushers` | ext/polyphony/queue.c:258-270 | a pusher resumed after the cap was lifted goes back to sleep |
| `QueueObject.WaitQueue.WakeUpTo` | ext/polyphony/queue.c:97-102 | wakes as many waiters as there are free slots |
| `QueueObject.Queue.ShiftCall` | ext/polyphony/queue.c:179-207 | the first part of a blocking shift is the model's step, errors included |
| `QueueObject.Queue.ShiftResume` | ext/polyphony/queue.c:179-207 | a resumed shift takes the first value, blocks again or ends |
| `QueueObject.Queue.ShiftNonblock` | ext/polyphony/queue.c:168-177 | takes the first value or raises |
| `QueueObject.Queue.PushCall` | ext/polyphony/queue.c:133-166 | push and unshift up to where they may block |
| `QueueObject.Queue.PushResume` | ext/polyphony/queue.c:104-131 | a resumed push stores or blocks again |
| `QueueObject.Queue.Delete` | ext/polyphony/queue.c:240-250 | delete is the model's step |
| `QueueObject.Queue.Cap` | ext/polyphony/queue.c:258-270 | cap is the model's step |
| `QueueObject.Queue.Clear` | ext/polyphony/queue.c:287-297 | clear is the model's step |
| `QueueObject.Queue.ShiftAll` | ext/polyphony/queue.c:322-332 | all values in order, and the model's step |
| `QueueObject.Queue.Close` | ext/polyphony/queue.c:419-434 | close is the model's step |
| `Mutex.SafeIsExact` | lib/polyphony/core/sync.rb:21-133 | a step keeps the invariant (one token, stored or with the noted holder, and every fiber in `synchronize` inside, in a condition wait or taking the lock back) if and only if it is safe |
| `Mutex.AccountIsExact` | lib/polyphony/core/sync.rb:31-126 | the account of the token itself breaks exactly when a fiber that is not inside waits on a condition or ends a `synchronize` |
| `Mutex.MutualExclusion` | lib/polyphony/core/sync.rb:21-133 | in every safe run at most one fiber is inside, and the token is stored exactly when none is |
| `Mutex.ExclusionFromTheStart` | lib/polyphony/core/sync.rb:10-13 | in particular from a new mutex |
| `Mutex.LockRoundTrip` | lib/polyphony/core/sync.rb:63-82 | lock and unlock, and a whole `synchronize`, leave a free mutex as it was; in between the fiber is inside, alone |
| `Mutex.TokenIsGivenBack` | lib/polyphony/core/sync.rb:117-126 | after `unlock`, the end of `synchronize` or the start of a condition wait the token is back and nobody is inside |
| `Mutex.CallsUnderHolder` | lib/polyphony/core/sync.rb:63-93 | what the calls do while another fiber, or the caller, holds the lock |
| `Mutex.DeadHolderIsRelieved` | lib/polyphony/core/sync.rb:128-133 | the token of a dead holder is recovered by the next `lock` |
| `Mutex.TryLockFindsTokenIff` | lib/polyphony/core/sync.rb:87-93 | `try_lock` on a free mutex finds the token when its turn comes, in every run, if and only if no other fiber was waiting for the token at the call; fibers in a condition wait do not count |
| `Mutex.TryLockWaits` | lib/polyphony/core/sync.rb:87-93 | a run in which it does not |
| `Mutex.EndingWithoutLockMintsToken` | lib/polyphony/core/sync.rb:117-126 | a `synchronize` that ends without the lock lets two fibers in |
| `Mutex.InterruptedWaitInSynchronize` | lib/polyphony/core/sync.rb:205-216 | a condition wait that is signalled and then interrupted while it takes the lock back gets there |
| `Mutex.InterruptedBeforeSignal` | lib/polyphony/core/sync.rb:205-216 | an exception while waiting for the signal is followed by taking the lock back, which restores the state before the wait |
| `FiberTree.AwaitLoop` | lib/polyphony/extensions/fiber.rb:576-589 | the loop stops at the first message after which every awaited fiber has sent one, whatever else arrives |
| `FiberTree.TakeAllMeans` | lib/polyphony/extensions/fiber.rb:576-589 | after any messages: who is still awaited, what was noted, and which exception came first |
| `FiberTree.AwaitOutcome` | lib/polyphony/extensions/fiber.rb:590-592 | the results are the first messages' values in argument order, or the first exception received is raised |
| `FiberTree.KeysOfDistinct` | lib/polyphony/extensions/fiber.rb:566-568 | for distinct fibers argument order is the order of the hash |
| `FiberTree.StepKeepsLocal` | lib/polyphony/extensions/fiber.rb:462-593 | every step whatsoever keeps mailboxes true and await frames in accord with what they heard |
| `FiberTree.RunKeepsLocal` | lib/polyphony/extensions/fiber.rb:462-593 | so it is in every run, orderly or not |
| `FiberTree.StepKeepsInv` | lib/polyphony/extensions/fiber.rb:303-316 | every safe spin, attach, monitor, await, message, shutdown and interruption keeps the tree invariant |
| `FiberTree.RunKeepsInv` | lib/polyphony/extensions/fiber.rb:462-507 | the tree invariant holds in every state of every safe run |
| `FiberTree.MonitorsInformedLast` | lib/polyphony/extensions/fiber.rb:462-507 | in every safe run a fiber informs its monitors only when all its descendants are finalised |
| `FiberTree.MessagesAreTrue` | lib/polyphony/extensions/fiber.rb:495-507 | in every run a message in a mailbox is from a finalised fiber with that result |
| `FiberTree.MessagesTellOfWholeTrees` | lib/polyphony/extensions/fiber.rb:495-507 | in every safe run the descendants of that fiber are finalised too |
| `FiberTree.AwaitReturnsAfterAll` | lib/polyphony/extensions/fiber.rb:557-593 | in every run, when `Fiber.await` returns or raises, every given fiber is finalised, the values are theirs in argument order, and the exception is the first one received |
| `FiberTree.EndsAsFinished` | lib/polyphony/extensions/fiber.rb:462-489 | in every run a fiber ends with what its block finished with, or the first exception its shutdown heard, or the one that broke the shutdown off |
| `FiberTree.AwaitReturnsWhatWasFinished` | lib/polyphony/extensions/fiber.rb:557-593 | the values an await returns are those its fibers finished with |
| `FiberTree.FinishedFiberIsHeard` | lib/polyphony/extensions/fiber.rb:564-579 | in every run in which no waiting fiber is unmonitored, an await can go on: the message of a finalised fiber it waits for is in its mailbox |
| `FiberTree.LeavesMonitorsIsExact` | lib/polyphony/extensions/fiber.rb:523-526 | that condition is exact |
| `FiberTree.MonitorHears` | lib/polyphony/extensions/fiber.rb:495-518 | a monitor that is not taken off finds the outcome in its mailbox when the fiber ends |
| `FiberTree.EndingInforms` | lib/polyphony/extensions/fiber.rb:495-499 | every monitor gets one message, nobody else any |
| `FiberTree.UncaughtExceptionReachesParent` | lib/polyphony/extensions/fiber.rb:501-504 | an uncaught exception reaches the parent, as a message if it is a monitor and as an exception exactly otherwise |
| `FiberTree.EndingLeavesParent` | lib/polyphony/extensions/fiber.rb:470-475 | an ended fiber is no child any more |
| `FiberTree.MonitorThenUnmonitor` | lib/polyphony/extensions/fiber.rb:514-526 | becoming a monitor and ceasing to be one |
| `FiberTree.AwaitEnds` | lib/polyphony/extensions/fiber.rb:577-592 | a returned or interrupted await is over, and the exception used up |
| `FiberTree.FailingChildDoesNotDisturbShutdown` | lib/polyphony/extensions/fiber.rb:501-504 | an uncaught exception is not scheduled on a parent that is shutting down |
| `FiberTree.EndingIsOrderlyIff` | lib/polyphony/extensions/fiber.rb:462-476 | ending a fiber leaves no orphan if and only if no other fiber below it is alive |
| `FiberTree.SafeIsExact` | lib/polyphony/extensions/fiber.rb:303-376 | for every kind of step, the tree invariant is kept if and only if the step is safe |
| `FiberTree.SafeMeansOrderly` | lib/polyphony/extensions/fiber.rb:303-316 | an exception, a shutdown or a failing await is safe if and only if no interruption it causes leaves orphans |
| `FiberTree.ShutdownInterruptsShutdown` | lib/polyphony/extensions/fiber.rb:303-316 | ending the parent of a fiber that is shutting down makes that fiber inform early |
| `FiberTree.ShutdownUnderWay` | lib/polyphony/extensions/fiber.rb:483-488 | such a state is reached by spinning three fibers and ending one |
| `FiberTree.LateChildOutlivesItsParentIff` | lib/polyphony/extensions/fiber.rb:343-348 | a child attached while a closing fiber waits for its last message is left behind exactly when it is alive |
| `FiberThread.FiberThread.AwaitFibers` | lib/polyphony/extensions/fiber.rb:564-575 | dead fibers are answered at once, the others monitored, in argument order |
| `FiberThread.FiberThread.TerminateChildren` | lib/polyphony/extensions/fiber.rb:306-313 | exactly the children that are not dead are terminated and awaited, in order |
| `FiberThread.FiberThread.ShutdownAllChildren` | lib/polyphony/extensions/fiber.rb:303-316 | the loops together are the shutdown step |
| `FiberThread.FiberThread.InformMonitors` | lib/polyphony/extensions/fiber.rb:495-507 | every monitor gets one message, and the parent is scheduled exactly if it is none of them |
| `FiberThread.FiberThread.Finalize` | lib/polyphony/extensions/fiber.rb:462-476 | the end of `finalize` is the finalising step |
| `Writev.Advance` | ext/polyphony/backend_libev.c:591-602 | the cursor moves over exactly the written bytes and stays within the vector, empty buffers included |
| `Writev.WriteAll` | ext/polyphony/backend_libev.c:577-604 | for all call results the bytes written are a prefix of the buffers in order, and all of them on return |
| `Chunked.HexReadsBack` | ext/polyphony/io_extensions.c:684-684 | a chunk size is printed in lower-case hex and reads back as itself |
| `Chunked.HexIsShort` | ext/polyphony/io_extensions.c:676-684 | a 32-bit size has at most eight digits, so the line fits its buffer |
| `Chunked.RoundTrip` | ext/polyphony/io_extensions.c:679-693 | decoding by section 7.1 of RFC 9112 gives back the chunks and stops at the end of the message |
| `Chunked.SpliceChunked` | ext/polyphony/io_extensions.c:672-700 | for every source, maximum and partial splice the output decodes to the source, and the 128-byte buffer is never exceeded |
| `Chunked.SendAll` | ext/polyphony/backend_libev.c:1402-1422 | partial writes add up to the whole buffer |
| `Chunked.SpliceChunks` | ext/polyphony/backend_libev.c:1512-1550 | prefix, framed chunks and postfix, for every split; the total is the length of the source |
| `Chunked.SameBytes` | ext/polyphony/backend_libev.c:1512-1550 | with hex size lines it writes the same bytes as the HTTP writer for the same split |
| `GzipHeader.Get32Set32` | ext/polyphony/io_extensions.c:225-239 | the four bytes read back as the low 32 bits |
| `GzipHeader.Get32IsLittleEndian` | ext/polyphony/io_extensions.c:232-239 | the number is read lowest byte first |
| `GzipHeader.PrepareHeader` | ext/polyphony/io_extensions.c:248-277 | the header, refused exactly when it does not fit the buffer |
| `GzipHeader.WrittenBytes` | ext/polyphony/io_extensions.c:248-277 | the header byte by byte, as section 2.3 of RFC 1952 lays it out |
| `GzipHeader.ReadHeaderString` | ext/polyphony/io_extensions.c:317-329 | the bytes up to the first zero byte, or an error |
| `GzipHeader.ReadHeader` | ext/polyphony/io_extensions.c:331-371 | the parse of a string source |
| `GzipHeader.RoundTripIff` | ext/polyphony/io_extensions.c:188-199 | a written header followed by any payload reads back, up to the payload, if and only if its strings hold no zero byte |
| `GzipHeader.FollowsStandardIff` | ext/polyphony/io_extensions.c:331-371 | an accepted header is read as RFC 1952 says if and only if no ignored flag is set |
| `GzipHeader.RefusalsFollowStandard` | ext/polyphony/io_extensions.c:331-371 | and under the same flags the two agree on every input |

## Left out

- System calls, the virtual machine lock, garbage collection, zlib, sockets, processes and forks: only their results appear, as parameters.
- The epoll, kqueue, linuxaio, port, select and win32 backends of libev; `poll` is modelled.
- Weak memory: every load and store is a step, in program order.
- The eventfd poll of `Backend_wait_event` is taken never to be signalled: it completes only after it was cancelled.
- Multishot accept, `Backend_double_splice`, the invalid-argument path of `Backend_chain`, submission queue exhaustion, `Backend_timeout` contexts and `context_store_free`: their contexts follow other rules.
- Resumption of a chain whose last CQE is cancelled: only the life cycle of its context is modelled.
- `periodics_reify`, `ev_periodic_start/stop`, the fork, child, stat, idle, prepare and check watchers.
- Tracing, statistics, idle tasks and the high watermark of the run queue.
- `Queue#flush_waiters`, `Queue#cap(0)` as a liveness question, `ConditionVariable#broadcast` and timed condition waits.
- `Monitor#enter/exit` counts; `Mutex#sleep` is an unlock and a lock.
- `Fiber.select`, `supervise` beyond its use of the mailbox, `restart`, fibers of other threads, raw and out-of-band fibers.
- The gzip footer, reading a header from an IO, and the choice of the time stamp.
- Chunk extensions and trailer fields in the reference decoder; the writers make none.
- RingBuffers.RingBuffer.Push: needs fewer than 2^31 entries, because the counters are 32-bit and the code does not check them.
- RingBuffers.RingBuffer.Unshift: needs fewer than 2^31 entries, for the reason given for Push.
- RingBuffers.RingBuffer.Resize: needs fewer than 2^31 slots, beyond which the doubled size wraps to 0; and the buffer that `realloc` moves is a sequence field, so its address and aliasing are not modelled.
- Heap4.MinChild: leaves out the last comparison of the slow path, which can never apply there.
- Timers.TimerLoop.TimerStop: `active` is cleared together with the heap update and not after it; nothing reads it in between.
- FdTable.WlistDel: watcher lists are sequences, not nodes linked through `next`.
- GzipHeader.ReadHeader: needs at least ten bytes, because the code does not check the length of a short string source.
- FiberTree.LateChildOutlivesItsParentIff: the last message and the return are two steps, though no other fiber runs between them in the code.
- FiberTree.StepKeepsInv: a fiber that raises in itself and one that is raised in by others are not told apart.
- Backend.RunqueuePush: needs room below 2^31 entries in the queues it pushes to, because the code does not check its 32-bit counters.
- Backend.RunqueueUnshift: needs room below 2^31 entries in the queues it pushes to, because the code does not check its 32-bit counters.
- Backend.RunqueueMigrate: needs room below 2^31 entries in the queues it pushes to, because the code does not check its 32-bit counters.
- Backend.Backend.ScheduleFiber: needs room below 2^31 entries in the queues it pushes to, because the code does not check its 32-bit counters.
- Backend.Backend.ParkFiber: needs room below 2^31 entries in the queues it pushes to, because the code does not check its 32-bit counters.
- Backend.Backend.UnparkFiber: needs room below 2^31 entries in the queues it pushes to, because the code does not check its 32-bit counters.
- Backend.Backend.SwitchFiber: needs room below 2^31 entries in the queues it pushes to, because the code does not check its 32-bit counters.
- QueueObject.Queue.ShiftCall: needs room below 2^31 entries in the queues it pushes to, because the code does not check its 32-bit counters.
- QueueObject.Queue.ShiftResume: needs room below 2^31 entries in the queues it pushes to, because the code does not check its 32-bit counters.
- QueueObject.Queue.PushCall: needs room below 2^31 entries in the queues it pushes to, because the code does not check its 32-bit counters.
- QueueObject.Queue.PushResume: needs room below 2^31 entries in the queues it pushes to, because the code does not check its 32-bit counters.
- AsyncWakeup.DeliveredWithinOneIteration: takes the kernel to report a readable eventfd when the loop polls it, and no new send to start meanwhile.
- Periodics.PeriodicRecalc: needs an interval that is not negative, as `ev_periodic_start` asserts.
- Chunked.SpliceChunked: needs a positive maximum that fits a C int; a splice moves at least one byte unless its source has ended.
- Mutex.SafeIsExact: a blocking call is two steps, one up to the shift from the store and one after it.
- IoUring.AbandonedBuffersStayReachable: buffers are Ruby strings; what else the kernel may write, such as the address of an accept on the C stack, is not counted, and runs in which a callable affix raises are covered by `RaisingPostfixLeaks` alone.
- IoUring.StepKeepsInv: holds below 65535 references to a context, the value that marks multishot contexts; see `AccountSurvivesIff`.
- Mutex.TryLockFindsTokenIff: takes fibers that begin to wait for the token after the call to have their turn after it, as the run queue does without prioritised calls.
- Timers.ExpiredTimersRunInDeadlineOrder: a nested loop run by a callback is one step that drains the queues; the order inside it is not followed.
