# A verified model of the FreeRTOS kernel and the esix TCP layer

This project models two parts of the firmware and proves what they promise.

**The kernel** (`demo/FreeRTOS`): the intrusive circular list of `list.c`, the scheduler of `tasks.c` with its
ready, delayed, suspended, pending and event lists, the queues and their lock counts of `queue.c`, and the
best-fit allocator `heap_2.c`.

**The TCP layer** (`esix`): the socket queue, the calls and the retransmission timer of `socket.c`, the segment
processing of `tcp6.c`, and the checksum of `ip6.c`.

Each part comes twice. A module of values says what every operation does (`Rings`, `Worlds`, `Kernel`, `Queues`,
`Heaps`, `SocketQueues`, `Endpoints`, `Checksums`), and the theorems about all runs are about it. A module of
classes has the same operations in the source's own form, as fields, links, buffers and loops that change in place
(`Lists`, `Tasks`, `QueueBuffers`, `HeapBlocks`, `Sockets`, `SocketTables`), and every method is proved to do what
the value module says.

| files | content |
|---|---|
| Rings, Lists | `list.c`: the rotation queue, and the pointer list that refines it |
| Worlds, Kernel, Tasks | the scheduler: task blocks and lists, one function per critical section, and the class |
| KernelInvariant, KernelRuns | the invariant of the scheduler and why every step keeps it |
| KernelTheorems, KernelRanks | what holds in every run: membership, time, wake-up, rotation, priority order |
| KernelReach | runs from the start to the states in which giving back or inheriting a priority goes wrong |
| KernelDeletion | the account of deleted tasks over all runs |
| KernelYields | preemption: yields that are remembered, and which task runs when none is outstanding |
| Timing | 32-bit tick arithmetic against absolute time |
| Queues, QueueBuffers | `queue.c`: lock protocol, lock counts, conservation, mutex holders, and the ring buffer of bytes |
| Heaps, HeapBlocks | `heap_2.c`: tiling, best fit, splitting and the account of bytes, and the linked block headers |
| Bytes, SocketQueues, Endpoints | one socket: its queue, its calls, its segments, its timer |
| Streams, Retransmission, Delivery | two sockets and a network; how long a socket keeps trying; how long data can be under way |
| Lifecycles | one socket from opening to closing, over all runs |
| Sockets, SocketTables | the linked socket queue with its allocations, and the table of sockets: handshakes, and which segment finds which socket |
| Checksums | `esix_ip_upper_checksum` |

Conventions. Interrupts are steps of their own between the critical sections that the source marks. A yield is a
separate step (`SwitchContext`). History that the source does not keep, such as the absolute time, the bytes ever
accepted or the elements ever queued, is in ghost fields or in fields that the documentation of the type calls
history; no decision depends on it. `overflows` is `xNumOfOverflows` before it is cut to 32 bits. Allocation
failure is a parameter (`memory`). In `Streams` the network is the set of all segments ever sent, of which any may
arrive at any time and any number of times.

Where the code and its comments differ, the model follows the code:

- The comment at `esix/socket.c:26` says that no more than `ESIX_QUEUE_DEPHT` packets are queued; the loop admits
  one more.
- `esix/socket.c:566` says that entries below the acknowledgement expire; the code expires those at it too, and
  stops at the first one above it.
- `esix/socket.c:641` says exponential backoff; the expression `^2` flips a bit.
- `pvPortMalloc` refuses a request that comes to the whole heap although the heap is one free block
  (`demo/FreeRTOS/portable/MemMang/heap_2.c:190`).
- `demo/FreeRTOS/tasks.c:2177` says that only the running task gives a mutex back. Nothing in `queue.c` makes sure of
  it, and another giver breaks the lists, wakes a sleeping holder or revives a deleted one
  (`KernelReach.DisinheritDoesBreak`, `DisinheritDoesWake`, `DisinheritDoesRevive`).
- `demo/FreeRTOS/queue.c:918` lends a priority to the holder of a mutex without asking whether there is one
  (`Queues.HolderIsMissingExactlyWhen`).
- `esix/include/socket.h:107-115` documents the address argument of `accept`; the code fills in the listening socket's
  own remote address (`esix/socket.c:260-261`), not that of the connection handed out (`SocketTables.ServeOne`).
- A SYN from a sender that is connected already makes another connection (`esix/tcp6.c:53-69`), which takes the first
  one's segments if it comes earlier in the table (`SocketTables.ConnectionIsKeptExactlyWhen`).
- `esix_socket_create_child` queues children without the depth test of `esix_queue_data` (`esix/socket.c:285-297`).
- `vTaskDelayUntil` called by a task that something else resumed before its previous wake time may run on although
  the wake time is still to come (`demo/FreeRTOS/tasks.c:573-594`).
- Giving a mutex back lowers the giver's priority without asking for a yield (`demo/FreeRTOS/tasks.c:2169-2188`); if
  nobody waits for the mutex any more, a task of lower priority than a ready one runs on until the next yield
  (`KernelYields.DisinheritKeepsExactlyWhen`, `GivingBackDoesSink`).
- `connect` sends a SYN with its own number plus one, from a local address that it has not set, and then waits for an
  acknowledgement of its own number (`esix/socket.c:127-136`, `esix/tcp6.c:81`); and it takes the number that it expects
  from the wrong field of the answer (`esix/tcp6.c:86`; `Lifecycles.ConnectNeverCompletes`,
  `FirstDataQueuedExactlyWhen`).
- The FIN branch compares the acknowledgement number where its comment asks whether the segment is in order
  (`esix/tcp6.c:159-160`; `Lifecycles.FinOvertakesExactlyWhen`), what waits for `recv` can no longer be read afterwards
  (`NothingAfterFin`), and a lost answer is never repeated (`RepeatedFinIsIgnored`).
- The checksum adds an odd last byte as it stands (`esix/ip6.c:124-125`), which is right on the little-endian
  configuration only.

## Model

| member | source | states |
|---|---|---|
| Rings.InsertEndAppends | demo/FreeRTOS/list.c:88-108 | an item inserted at the end is met last by the walk |
| Rings.RemoveDeletes | demo/FreeRTOS/list.c:168-187 | removal takes the item out of the walking order and disturbs nothing else, even when the index rests on it |
| Rings.NextRotates | demo/FreeRTOS/include/list.h:185-196 | a step of the walk serves the first in turn and sends it to the back |
| Rings.WalkFollowsTurn | demo/FreeRTOS/include/list.h:185-196 | n steps serve the first n in turn |
| Rings.WalkServesEachOnce | demo/FreeRTOS/include/list.h:185-196 | as many steps as items serve each item exactly once |
| Rings.SortedInsertSorts | demo/FreeRTOS/list.c:119-129 | sorted insertion keeps the list sorted and goes behind every equal value |
| Rings.WithoutSorted | demo/FreeRTOS/list.c:168-187 | removal keeps a sorted list sorted |
| Rings.InsertThenRemove | demo/FreeRTOS/list.c:88-187 | inserting an item anywhere and removing it again changes nothing |
| Rings.RemoveThenInsertEnd | demo/FreeRTOS/list.c:88-187 | removing an item and inserting it at the end sends it to the back of the walking order |
| Lists.ListItem.constructor | demo/FreeRTOS/list.c:81-85 | a new item is on no list |
| Lists.List.constructor | demo/FreeRTOS/list.c:61-78 | an initialised list is a closed circle of its end marker alone, which is all that later links may touch |
| Lists.List.InsertEnd | demo/FreeRTOS/list.c:88-108 | any item that is on no list, whatever lists it was on before, is appended to the rotation queue; both link directions, count, container and index agree |
| Lists.List.FindSpot | demo/FreeRTOS/list.c:126-153 | the search ends for every value up to portMAX_DELAY, the marker's own value included, at the place of stable sorted insertion |
| Lists.List.Insert | demo/FreeRTOS/list.c:111-165 | the relinked circle holds the item, which may have been on any list before, at that place |
| Lists.ListRemove | demo/FreeRTOS/list.c:168-187 | the relinked circle lacks the item, whose container is cleared and which no link reaches any more; the index moves off it |
| Lists.List.OwnerOfNextEntry | demo/FreeRTOS/include/list.h:185-196 | the index skips the marker and the owner returned is the next in rotation |
| Lists.List.OwnerOfHeadEntry | demo/FreeRTOS/include/list.h:215 | the owner of the first item, or null for an empty list |
| Lists.List.Length | demo/FreeRTOS/include/list.h:159-164 | the count is the number of linked items |
| Lists.MoveSorted | demo/FreeRTOS/tasks.c:664-683 | an item is taken off one list and inserted by its new value into another, and both stay sound and apart |
| Lists.MoveToEnd | demo/FreeRTOS/tasks.c:254-272 | an item is taken off one list and put at the end of another |
| Lists.DelayOnce | demo/FreeRTOS/tasks.c:254-272 | a task's item that leaves its ready list for a delayed list and comes back is last in turn, and the delayed list is as it was |
| Lists.DelayAgainAndAgain | demo/FreeRTOS/tasks.c:640-694 | so it is however often that happens, on the same two lists of pointers |
| Lists.FillAndRequeue | demo/FreeRTOS/list.c:61-187 | a new list is filled with two items, and the first taken off and put back behind the second |
| Worlds.World.Put | demo/FreeRTOS/list.c:88-108 | filing an item keeps containers and lists in agreement and every other list as it was |
| Worlds.World.PutSorted | demo/FreeRTOS/list.c:111-165 | the same by value; every ordered list stays ordered |
| Worlds.World.Take | demo/FreeRTOS/list.c:168-187 | taking an item off the list its container names keeps the agreement and the order |
| Worlds.HeadIsLeast | demo/FreeRTOS/tasks.c:249-252 | the head of an ordered list has the least value on it |
| Timing.DelaysExactlyWhenInFuture | demo/FreeRTOS/tasks.c:563-599 | vTaskDelayUntil blocks exactly when the wake time lies in the absolute future, wherever the counters wrap |
| Timing.EarlyCallerDelaysExactlyWhen | demo/FreeRTOS/tasks.c:573-594 | what it decides for a caller resumed before its previous wake time: exactly when it delays |
| Timing.EarlyCallerMayNotDelay | demo/FreeRTOS/tasks.c:573-594 | such a caller may run on although its wake time is ahead: a concrete case |
| Timing.WakeTimesNeverDrift | demo/FreeRTOS/tasks.c:571-597 | after k calls the stored wake time is the first plus k increments modulo 2^32, whatever the lateness |
| Timing.CheckIsExactWhen | demo/FreeRTOS/tasks.c:1676-1723 | a check reports expiry exactly when the wait has run out and otherwise takes off the elapsed ticks, if and only if at most one wrap lies between or a comparison still catches it |
| Timing.TwoWrapsHideAnExpiry | demo/FreeRTOS/tasks.c:1702-1717 | two wraps between set and check can hide an expiry: a concrete case |
| Timing.WaitIsConserved | demo/FreeRTOS/queue.c:489-545 | through any number of retries elapsed plus remaining ticks are the original wait, and it expires at the first check not before its end |
| Timing.WaitForEverNeverExpires | demo/FreeRTOS/tasks.c:1682-1692 | a wait for ever never expires, however often it is checked |
| Kernel.CheckDelayedKeeps | demo/FreeRTOS/tasks.c:254-272 | the check of the delayed tasks ends, and changes nothing but lists and uxTopReadyPriority |
| Kernel.DrainKeeps | demo/FreeRTOS/tasks.c:1060-1079 | moving the pending tasks ends, and changes nothing else |
| Kernel.OutrankedByHeadOrRest | demo/FreeRTOS/tasks.c:1072-1078 | whether a pending task outranks the running one can be judged one task at a time |
| KernelInvariant.CheckDelayedExact | demo/FreeRTOS/tasks.c:254-272 | the check wakes exactly the tasks whose absolute wake time has come |
| KernelInvariant.SwappedOutIsEmpty | demo/FreeRTOS/tasks.c:1324-1338 | when the tick count wraps, the delayed list that is swapped out is empty |
| KernelInvariant.AdvancedCore | demo/FreeRTOS/tasks.c:1319-1338 | one more tick keeps each delayed list in its own turn of the counter |
| KernelInvariant.TickExact | demo/FreeRTOS/tasks.c:1319-1342 | one processed tick wakes exactly the tasks that are due |
| KernelInvariant.ReplayExact | demo/FreeRTOS/tasks.c:1083-1093 | replaying missed ticks is as good as having taken them one by one |
| KernelInvariant.DrainExact | demo/FreeRTOS/tasks.c:1060-1079 | every pending task is made ready and no other task changes |
| KernelInvariant.ResumeAllExact | demo/FreeRTOS/tasks.c:1044-1113 | ending the suspension readies exactly the pending tasks and those whose time came, and keeps the invariant |
| KernelRuns.DelayDue | demo/FreeRTOS/tasks.c:660-683 | a wait of d ticks is filed to end at absolute tick now + d |
| KernelRuns.BlockUntilCore | demo/FreeRTOS/tasks.c:664-683 | blocking files the running task under its wake time, changes no other task and keeps the invariant |
| KernelRuns.WaitBlocks | demo/FreeRTOS/tasks.c:1585-1604 | a timed wait puts the event item on the event list and the generic item on the delayed list that fits the wake time |
| KernelRuns.WaitForEverBlocks | demo/FreeRTOS/tasks.c:1576-1584 | a wait for ever puts the generic item on the suspended list instead |
| KernelRuns.WaitCore | demo/FreeRTOS/tasks.c:1559-1626 | either wait keeps the invariant |
| KernelRuns.SignalCore | demo/FreeRTOS/tasks.c:1629-1673 | an event readies the head of the list, or leaves it pending while the scheduler is suspended, changes no other task and keeps the invariant |
| KernelRuns.SuspendCore | demo/FreeRTOS/tasks.c:828-864 | suspending takes a task off its lists to the suspended list, changes no other task and keeps the invariant |
| KernelRuns.Resumed | demo/FreeRTOS/tasks.c:902-936 | a suspended task comes to its ready list and nothing else changes |
| KernelRuns.ResumeFromIsrCore | demo/FreeRTOS/tasks.c:944-971 | resuming from an interrupt readies a suspended task, or leaves it pending, does nothing to any other, and keeps the invariant |
| KernelRuns.CreateCore | demo/FreeRTOS/tasks.c:372-492 | a new task is ready, and both its priorities are the smaller of the one asked for and the highest there is; the invariant holds |
| KernelRuns.DeleteCore | demo/FreeRTOS/tasks.c:497-548 | deleting moves a task off its lists to those that await termination and keeps the invariant |
| KernelRuns.ReapCore | demo/FreeRTOS/tasks.c:1894-1926 | the idle task forgets exactly the first deleted task, which is on no other list |
| KernelRuns.ReadyGoesLast | demo/FreeRTOS/tasks.c:230-243 | a task that becomes ready goes behind all others of its priority, and no other list changes |
| KernelRuns.InheritCore | demo/FreeRTOS/tasks.c:2137-2162 | inheriting a priority keeps the invariant, whatever the holder is doing |
| KernelRuns.DisinheritCore | demo/FreeRTOS/tasks.c:2169-2188 | giving it back keeps it when the giver waits for no event, whatever else it does |
| KernelRuns.SearchStops | demo/FreeRTOS/tasks.c:1544-1548 | the downward search ends, because the idle task is always ready, at the highest list that is not empty |
| KernelRuns.SwitchPicksHighest | demo/FreeRTOS/tasks.c:1515-1552 | the task chosen has the highest priority of all ready tasks and the turn among its equals, and goes to their back |
| KernelTheorems.NextGood | demo/FreeRTOS/tasks.c:1036-1113 | every operation, of tasks and of interrupts, keeps the invariant |
| KernelTheorems.Run | demo/FreeRTOS/tasks.c:1319-1556 | every state that any interleaving reaches satisfies the invariant |
| KernelTheorems.Boot | demo/FreeRTOS/tasks.c:983-1003 | the state in which the scheduler starts satisfies it |
| KernelTheorems.EqualsTakeTurns | demo/FreeRTOS/tasks.c:1550-1552 | as many switches as there are ready tasks of the highest priority run each once, in waiting order |
| KernelTheorems.EachTaskOnItsLists | demo/FreeRTOS/tasks.c:236-243 | in every reachable state a task's generic item is on exactly one list, that of its current priority when ready; its event item is on at most one, and on none while ready; uxTopReadyPriority bounds every ready task |
| KernelTheorems.DisinheritBreaksExactlyWhen | demo/FreeRTOS/tasks.c:2169-2188 | lowering the holder's priority puts its generic item on the ready list of its base priority; that keeps the whole invariant, and its event item off every event list, exactly when the holder does not wait for an event itself |
| KernelTheorems.InheritThenDisinherit | demo/FreeRTOS/tasks.c:2137-2188 | a ready holder that inherits and gives back is as it was |
| KernelTheorems.TicksConserved | demo/FreeRTOS/tasks.c:1319-1346 | in every reachable state the tick interrupts taken are xTickCount plus uxMissedTicks, modulo 2^32 |
| KernelTheorems.SuspendedListsAreStill | demo/FreeRTOS/tasks.c:1647-1657 | while the scheduler is suspended, interrupts change no ready, delayed or suspended list |
| KernelTheorems.ResumeLosesNothing | demo/FreeRTOS/tasks.c:1044-1113 | when the outermost resume ends, nothing is pending, no tick is missed, no task sleeps past its time, and exactly the pending and due tasks have become ready |
| KernelTheorems.SuspendThenResume | demo/FreeRTOS/tasks.c:828-936 | suspending and resuming a task leaves it ready at its priority and off every event list |
| KernelTheorems.ResumeFromIsrIsNotLost | demo/FreeRTOS/tasks.c:944-971 | a task resumed by an interrupt during suspension is ready when the suspension ends |
| KernelTheorems.SignalIsNotLost | demo/FreeRTOS/tasks.c:1647-1657 | the waiter that an event takes off its list during suspension is ready when the suspension ends |
| KernelTheorems.SoleWaiterIsSignalled | demo/FreeRTOS/queue.c:902-927 | a task that joins an empty event list is the one that the next event takes off it, even before the task stops running: it alone is left pending, and it is ready when the suspension ends |
| KernelTheorems.SleepStep | demo/FreeRTOS/tasks.c:1319-1342 | a step that leaves a sleeping task alone keeps it asleep until its time and readies it when it processes that tick |
| KernelTheorems.SleepsUntilDue | demo/FreeRTOS/tasks.c:254-272 | a task sleeps through any run that ends before its wake time, across wraps and suspensions |
| KernelTheorems.DelaySleeps | demo/FreeRTOS/tasks.c:640-694 | vTaskDelay for d ticks blocks the task until absolute tick now + d |
| KernelTheorems.DelayUntilSleeps | demo/FreeRTOS/tasks.c:563-633 | vTaskDelayUntil, called on time, blocks the task until absolute tick previous + increment, wherever the counters wrap |
| KernelTheorems.LateCallerRunsOn | demo/FreeRTOS/tasks.c:573-633 | vTaskDelayUntil, called late by less than one turn of the counter, changes nothing: the caller does not wait |
| KernelTheorems.WaitSleeps | demo/FreeRTOS/tasks.c:1585-1604 | a wait for an event with a block time blocks the task until absolute tick now + that time |
| KernelTheorems.SleepEndsExactly | demo/FreeRTOS/tasks.c:254-272 | whatever run follows, a task that nothing else wakes is asleep before its tick and ready from the step that processes it |
| KernelTheorems.DelayEndsExactly | demo/FreeRTOS/tasks.c:254-272 | a task blocked by vTaskDelay, by vTaskDelayUntil on time or by a wait with a block time, and not woken otherwise, is readied by the very step that processes its absolute tick |
| KernelRanks.SignalWakesHighest | demo/FreeRTOS/tasks.c:1629-1673 | the task taken off an ordered event list has the highest priority of all that wait there |
| KernelRanks.NextRanked | demo/FreeRTOS/tasks.c:1559-1626 | every step but one keeps the event lists in priority order |
| KernelRanks.EventsWakeHighest | demo/FreeRTOS/tasks.c:1629-1645 | in every run without that step each event wakes a waiter of the highest priority |
| KernelRanks.InheritKeepsOrderExactlyWhen | demo/FreeRTOS/tasks.c:2141-2144 | that step, inheriting while waiting, keeps the order exactly when no waiter ahead has a lower priority than the one inherited |
| KernelReach.DisinheritDoesBreak | demo/FreeRTOS/tasks.c:2169-2188 | from the start a state is reached in which giving a mutex back leaves its holder on a ready list and an event list at once: the holder waits and has inherited, and another task gives |
| KernelReach.DisinheritDoesWake | demo/FreeRTOS/tasks.c:2169-2188 | from the start a state is reached in which giving a mutex back ends its holder's delay before its time |
| KernelReach.DisinheritDoesRevive | demo/FreeRTOS/tasks.c:2169-2188 | from the start a state is reached in which giving a mutex back makes its deleted holder ready again |
| KernelReach.InheritDoesUpset | demo/FreeRTOS/tasks.c:2141-2161 | from the start a state is reached in which inheriting a priority puts an event list out of order: the heir waits behind a task of a priority in between |
| KernelDeletion.NextAccounted | demo/FreeRTOS/tasks.c:497-548 | a deletion adds one task to those that await termination, a reaping takes one away, and so does the return of a deleted task's mutex while its priority is raised; no other operation changes their number |
| KernelDeletion.DeletedAreAccountedFor | demo/FreeRTOS/tasks.c:1894-1926 | in every run each deleted task has been reaped, awaits termination, or has been made ready again by the return of a mutex, and is counted once |
| KernelYields.RunRemembers | demo/FreeRTOS/tasks.c:1515-1524 | through any run in which the scheduler stays suspended, a yield is on record exactly if one was at its start or a context switch has been asked for since |
| KernelYields.YieldsAreRemembered | demo/FreeRTOS/tasks.c:1095-1106 | from the outermost suspension on, in any reachable state, a yield is on record exactly if a context switch has been asked for in the meantime, and then the outermost xTaskResumeAll asks for one |
| KernelYields.QuietSuspension | demo/FreeRTOS/tasks.c:1036-1113 | a suspension in which nothing happens leaves everything as it was and asks for no yield |
| KernelYields.ResumeKeeps | demo/FreeRTOS/tasks.c:1057-1106 | an outermost xTaskResumeAll that asks for no yield leaves no ready task above the running one |
| KernelYields.NextKeepsHighest | demo/FreeRTOS/tasks.c:1629-1673 | no step that asks for no yield makes a task of higher priority than the running one ready or stops the running one, but for the return of a mutex |
| KernelYields.DisinheritKeepsExactlyWhen | demo/FreeRTOS/tasks.c:2169-2188 | giving a mutex back, which asks for no yield, leaves the running task the highest exactly when its own priority does not fall below that of a ready task and no other holder comes to the ready lists above it |
| KernelYields.HighestReadyTaskRuns | demo/FreeRTOS/tasks.c:1515-1552 | in every run without such a return, whenever the scheduler is not suspended and every yield asked for has been taken, even if it was refused and remembered, the running task is ready and no ready task has a higher priority |
| KernelYields.GivingBackDoesSink | demo/FreeRTOS/tasks.c:2169-2188 | from the start a state is reached in which the running task gives a mutex back, falls below a ready task, and neither this nor the empty list of waiting tasks leads to a yield |
| Tasks.Scheduler.constructor | demo/FreeRTOS/tasks.c:1862-1891 | the file-level variables start as the state of Boot |
| Tasks.Scheduler.AddTaskToReadyQueue | demo/FreeRTOS/tasks.c:236-243 | refines Kernel.K.AddReady in place |
| Tasks.Scheduler.CheckDelayedTasks | demo/FreeRTOS/tasks.c:254-272 | the loop does what the recursive check does, of which CheckDelayedExact holds |
| Tasks.Scheduler.IncrementTick | demo/FreeRTOS/tasks.c:1319-1346 | refines the tick of TickExact, or counts a missed one |
| Tasks.Scheduler.SuspendAll | demo/FreeRTOS/tasks.c:1036-1041 | nests the suspension |
| Tasks.Scheduler.MovePending | demo/FreeRTOS/tasks.c:1060-1079 | the loop drains the pending list, and asks for a yield exactly if some pending task's priority is no lower than the running task's |
| Tasks.Scheduler.ReplayMissedTicks | demo/FreeRTOS/tasks.c:1083-1093 | the loop replays every missed tick, of which ReplayExact holds |
| Tasks.Scheduler.ResumeAll | demo/FreeRTOS/tasks.c:1044-1113 | refines the step of ResumeAllExact and tells exactly when it yields |
| Tasks.Scheduler.SwitchContext | demo/FreeRTOS/tasks.c:1515-1556 | the downward loop refines the choice of SwitchPicksHighest; while the scheduler is suspended, the yield is put on the record of YieldsAreRemembered instead |
| Tasks.Scheduler.Delay | demo/FreeRTOS/tasks.c:640-694 | refines the step of DelayEndsExactly |
| Tasks.Scheduler.DelayUntil | demo/FreeRTOS/tasks.c:563-633 | the nested comparisons decide as DelaysExactlyWhenInFuture says, and the wake time for the next call is stored |
| Tasks.Scheduler.PlaceOnEventList | demo/FreeRTOS/tasks.c:1559-1626 | refines the step of WaitCore |
| Tasks.Scheduler.RemoveFromEventList | demo/FreeRTOS/tasks.c:1629-1673 | refines the step of SignalCore and tells whether the woken task's priority is no lower than the running task's |
| Tasks.Scheduler.SuspendTask | demo/FreeRTOS/tasks.c:828-864 | refines the step of SuspendCore and tells exactly when it yields |
| Tasks.Scheduler.ResumeTask | demo/FreeRTOS/tasks.c:902-936 | refines the step of Resumed and tells exactly when it yields |
| Tasks.Scheduler.ResumeTaskFromIsr | demo/FreeRTOS/tasks.c:944-971 | refines the step of ResumeFromIsrCore and tells exactly when to switch |
| Tasks.Scheduler.CreateTask | demo/FreeRTOS/tasks.c:372-492 | refines the step of CreateCore, or changes nothing when there is no memory; tells exactly when it yields and keeps uxCurrentNumberOfTasks the number of tasks |
| Tasks.Scheduler.DeleteTask | demo/FreeRTOS/tasks.c:497-548 | refines the step of DeleteCore, counts up uxTasksDeleted and tells exactly when it yields |
| Tasks.Scheduler.ReapTask | demo/FreeRTOS/tasks.c:1894-1926 | refines the step of ReapCore, tells whose memory is freed, counts down uxTasksDeleted and keeps uxCurrentNumberOfTasks the number of tasks |
| Tasks.Scheduler.Inherit | demo/FreeRTOS/tasks.c:2137-2162 | refines the step of InheritCore |
| Tasks.Scheduler.Disinherit | demo/FreeRTOS/tasks.c:2169-2188 | refines the step of DisinheritCore |
| Tasks.Scheduler.CheckForTimeOut | demo/FreeRTOS/tasks.c:1683-1723 | computes on the 32-bit counters the verdict that WaitIsConserved is about |
| Queues.UnlockTxWakes | demo/FreeRTOS/queue.c:1092-1120 | unlocking wakes one waiting receiver, from the head, for every send recorded in xTxLock, as long as there are any |
| Queues.UnlockRxWakes | demo/FreeRTOS/queue.c:1123-1144 | the mirror for senders and xRxLock |
| Queues.NextKeepsInv | demo/FreeRTOS/queue.c:902-938 | every critical section of tasks and interrupts keeps the account of announced items and places |
| Queues.NoLostWakeUp | demo/FreeRTOS/queue.c:215-229 | in every interleaving, while a task waits to receive, the items never outnumber the receivers woken since the latest joined and the sends recorded; nobody waits unwoken on a queue that is not empty; and the mirror for senders |
| Queues.UnlockWakesForInterrupts | demo/FreeRTOS/queue.c:1092-1144 | in every run each lock count is the number of sends, or removals, that interrupts have made since the queue was locked, and unlocking wakes just as many waiters, from the head, or all if there are fewer |
| Queues.QuietReceiverWaits | demo/FreeRTOS/queue.c:902-938 | locking the queue, waiting on it while it is empty and unlocking it, with no interrupt in between, wakes nobody: the task waits and all else is as it was |
| Queues.QuietSenderWaits | demo/FreeRTOS/queue.c:511-547 | so does waiting to send to a full queue |
| Queues.LockedListsAreStill | demo/FreeRTOS/queue.c:965-985 | while a task holds the queue locked, interrupts leave both lists of waiting tasks alone |
| Queues.PeeksWakeAll | demo/FreeRTOS/queue.c:852-872 | a task that only looks at an item passes the wake-up on: after n looks the items are still there and the first n waiting receivers have been woken |
| Queues.JoinThenLeave | demo/FreeRTOS/queue.c:902-938 | a task that joins a list of waiting tasks and leaves it again leaves the list as it was |
| Queues.ItemsConserved | demo/FreeRTOS/queue.c:1032-1081 | every item stored is taken out once or is still there, in every run |
| Queues.FirstInFirstOut | demo/FreeRTOS/queue.c:1047-1055 | with sends to the back only, items come out in the order in which they were stored |
| Queues.StepMovesOne | demo/FreeRTOS/queue.c:442-547 | a step stores one item at an end, takes the first one, or moves none |
| Queues.FrontIsNext | demo/FreeRTOS/queue.c:1056-1064 | an item sent to the front is the next received, and the rest is as it was |
| Queues.HeldBackSendWakes | demo/FreeRTOS/queue.c:772-787 | a send from an interrupt while the queue is locked makes the unlocking wake one receiver more, if one is left |
| Queues.HeldBackRemovalWakes | demo/FreeRTOS/queue.c:965-985 | a removal makes the unlocking wake one sender more, if one is left |
| Queues.HolderIsMissingExactlyWhen | demo/FreeRTOS/queue.c:902-923 | in every run, interrupts and all, the holder of a mutex is the task that took it last; it has no holder exactly while it is free or the latest to take it was an interrupt, and that is when vTaskPriorityInherit gets a null holder |
| Queues.HolderIsKnownExactlyWhen | demo/FreeRTOS/queue.c:902-923 | if no interrupt takes a mutex, it has a holder exactly while it is taken, and a task that has found it taken finds no holder exactly if xTxLock has counted a send since |
| Queues.OnlyMutexesAreHeld | demo/FreeRTOS/queue.c:833-842 | in no run does a queue that is no mutex get a holder |
| Queues.GivenInBetween | demo/FreeRTOS/queue.c:902-923 | such an interrupt leaves vTaskPriorityInherit with a null holder: a concrete run |
| Queues.TakenByInterrupt | demo/FreeRTOS/queue.c:950-998 | so does an interrupt that takes the mutex: a concrete run |
| QueueBuffers.Queue.constructor | demo/FreeRTOS/queue.c:237-285 | a new queue is empty and unlocked, writes at the start and reads one item before the end |
| QueueBuffers.Queue.Mutex | demo/FreeRTOS/queue.c:290-331 | a new mutex is free and unlocked and has no holder |
| QueueBuffers.Queue.CopyDataToQueue | demo/FreeRTOS/queue.c:1032-1067 | the bytes written append the item to the contents, or prepend it, for every length and item size, and the write slot stays `count` places past the next read; a mutex loses its holder, whose priority is the one given back |
| QueueBuffers.Queue.CopyDataFromQueue | demo/FreeRTOS/queue.c:1070-1081 | the bytes read are the first item; nothing is read from a mutex |
| QueueBuffers.Queue.Send | demo/FreeRTOS/queue.c:455-482 | stores the item and wakes a receiver exactly when there is room, asks for a yield exactly if the task woken is no lower in priority, and tells whose priority a mutex gives back |
| QueueBuffers.Queue.Receive | demo/FreeRTOS/queue.c:815-873 | takes the first item, records who takes a mutex and wakes a sender, or peeks, leaves contents and positions as they were and wakes a receiver; asks for a yield exactly if the task woken is no lower in priority |
| QueueBuffers.Queue.SendFromIsr | demo/FreeRTOS/queue.c:750-800 | stores the item and wakes a receiver, or records the send in the lock count; flags a switch exactly if a task no lower in priority was woken |
| QueueBuffers.Queue.ReceiveFromIsr | demo/FreeRTOS/queue.c:950-998 | takes the first item and wakes a sender, or records the removal in the lock count; flags a switch exactly if a task no lower in priority was woken |
| QueueBuffers.Queue.Lock | demo/FreeRTOS/queue.c:215-229 | locks what is unlocked, with counts from 0 as UnlockWakesForInterrupts says, and leaves recorded counts |
| QueueBuffers.Queue.UnlockTx | demo/FreeRTOS/queue.c:1092-1120 | the loop does what UnlockTxWakes says, and records a missed yield exactly if one of the tasks woken is no lower in priority |
| QueueBuffers.Queue.UnlockRx | demo/FreeRTOS/queue.c:1123-1144 | the loop does what UnlockRxWakes says, and records a missed yield exactly if one of the tasks woken is no lower in priority |
| Heaps.WantedCoversExactlyWhen | demo/FreeRTOS/portable/MemMang/heap_2.c:178-188 | the computed size covers the request or is refused exactly for requests that leave room for the header below 2^32 |
| Heaps.WrappedRequestGetsFourBytes | demo/FreeRTOS/portable/MemMang/heap_2.c:178-188 | a larger request can come to four bytes: a concrete case |
| Heaps.MallocKeepsInv | demo/FreeRTOS/portable/MemMang/heap_2.c:160-235 | allocation, with or without a split, keeps the heap tiled, every block free or live, and the free list sorted by size |
| Heaps.FreeKeepsInv | demo/FreeRTOS/portable/MemMang/heap_2.c:238-259 | so does giving a block back |
| Heaps.EachByteInOneBlock | demo/FreeRTOS/portable/MemMang/heap_2.c:138-155 | every byte of the heap lies in exactly one block |
| Heaps.PayloadsAreSound | demo/FreeRTOS/portable/MemMang/heap_2.c:205-211 | live payloads are aligned, inside the heap, at least as long as asked, and disjoint |
| Heaps.BestFit | demo/FreeRTOS/portable/MemMang/heap_2.c:190-211 | a request gets the smallest adequate free block, and is refused exactly if it is empty, as large as the heap, or larger than every free block |
| Heaps.RefusedThoughFreeExactlyWhen | demo/FreeRTOS/portable/MemMang/heap_2.c:190 | it is refused although a block would hold it exactly when it comes to the whole heap and that is one free block |
| Heaps.MallocSpares | demo/FreeRTOS/portable/MemMang/heap_2.c:212-228 | allocation touches no live block |
| Heaps.FreeSpares | demo/FreeRTOS/portable/MemMang/heap_2.c:238-259 | giving a block back touches no other live block |
| Heaps.FreedIsHadAgain | demo/FreeRTOS/portable/MemMang/heap_2.c:238-259 | a request no longer than a block given back is granted, from a block no larger |
| Heaps.RestIsFreeExactlyWhen | demo/FreeRTOS/portable/MemMang/heap_2.c:212-228 | all of the chosen block but the size wanted goes back to the free list exactly if that is more than heapMINIMUM_BLOCK_SIZE, and the block is given out whole otherwise; no other block changes hands |
| Heaps.BytesAddUp | demo/FreeRTOS/portable/MemMang/heap_2.c:138-155 | the free and the live blocks together hold every byte of the heap |
| Heaps.MallocTakesNoMore | demo/FreeRTOS/portable/MemMang/heap_2.c:205-228 | a granted request takes between its own size, rounded, and heapMINIMUM_BLOCK_SIZE more off the free bytes, and these are the size of its block |
| Heaps.FreeReturnsAll | demo/FreeRTOS/portable/MemMang/heap_2.c:238-259 | giving a block back returns all its bytes |
| Heaps.WholeHeapIsSound | demo/FreeRTOS/portable/MemMang/heap_2.c:160-259 | all this holds after any run of allocations and releases |
| Heaps.NothingIsWasted | demo/FreeRTOS/portable/MemMang/heap_2.c:160-259 | after any run every byte is free or live, and no live block is longer than its request, rounded, by more than heapMINIMUM_BLOCK_SIZE |
| HeapBlocks.Heap.HeapInit | demo/FreeRTOS/portable/MemMang/heap_2.c:138-155 | the initialised list holds one block, the whole heap |
| HeapBlocks.Heap.InsertBlockIntoFreeList | demo/FreeRTOS/portable/MemMang/heap_2.c:117-135 | the walk ends and the relinked list holds the block before the first that is no smaller |
| HeapBlocks.Heap.Search | demo/FreeRTOS/portable/MemMang/heap_2.c:192-203 | the walk ends at the first adequate block, or at the end marker exactly if there is none |
| HeapBlocks.Heap.WithHeader | demo/FreeRTOS/portable/MemMang/heap_2.c:178-188 | computes the size that WantedCoversExactlyWhen is about |
| HeapBlocks.Heap.Malloc | demo/FreeRTOS/portable/MemMang/heap_2.c:160-235 | refines the allocation of BestFit, with the split of RestIsFreeExactlyWhen, and returns its payload, or null |
| HeapBlocks.Heap.Free | demo/FreeRTOS/portable/MemMang/heap_2.c:238-259 | refines the release; null does nothing |
| SocketQueues.QueueingAppends | esix/socket.c:75-86 | queueing appends to the queue of one kind and leaves the other two alone |
| SocketQueues.EvictingPops | esix/socket.c:157-191 | find with eviction pops the head of the queue of one kind, if it has one, and leaves the other two alone |
| SocketQueues.ExpiryDropsAcked | esix/socket.c:567-608 | expiry takes acknowledged entries from the head of the sent queue and leaves the other two alone |
| SocketQueues.ExpiryIsExactWhen | esix/socket.c:577-599 | on the 32-bit end numbers as they are compared, it removes exactly the entries at or below the acknowledgement if and only if none of them stands behind one that is above |
| SocketQueues.VerdictIsRightWhen | esix/socket.c:579 | the 32-bit comparison of an entry's end with an acknowledgement is right about their absolute numbers exactly when both lie in the same turn of the counter |
| SocketQueues.ExpiryIsRightWhen | esix/socket.c:577-599 | for a stream of any length, expiry drops exactly the entries that the absolute acknowledgement covers if and only if no turn of the counter falls between the first end covered, the acknowledgement and the first end left |
| SocketQueues.QueueExpiryIsRightWhen | esix/socket.c:567-608 | the same of the whole mixed queue |
| SocketQueues.WrappedEntryExpiresEarly | esix/socket.c:579 | that condition fails, and data that is not acknowledged expires, for an entry under way across 2^32 |
| Endpoints.Xor2 | esix/socket.c:642-643 | the expression `^2` flips the second lowest bit and nothing else |
| Endpoints.Emit | esix/tcp6.c:208-237 | a segment carries a prefix of the data and the numbers given, if anything readable is sent |
| Endpoints.ClosedStaysEmpty | esix/socket.c:483-485 | whatever happens, a closed socket's queue is empty |
| Streams.SendFlows | esix/socket.c:509-537 | send keeps the stream invariant: it holds every byte that it counts |
| Streams.TickFlows | esix/socket.c:624-649 | so does housekeeping: what it sends again is part of the stream |
| Streams.CloseFlows | esix/socket.c:455-488 | so does close |
| Streams.ReceiveFlows | esix/socket.c:198-246 | so does recv |
| Streams.DeliverFlows | esix/tcp6.c:94-144 | so does a segment that comes to the sender: it releases no more than the receiver has acknowledged |
| Streams.DeliveredFlows | esix/tcp6.c:108-143 | and one that comes to the receiver: it queues the next part of the stream or nothing |
| Streams.StreamsAreSafe | esix/tcp6.c:94-144 | with any loss, duplication and reordering, the bytes queued for recv at one end are a prefix of those accepted by send at the other, and only data, acknowledgements and resets are sent |
| Streams.NothingLetGoEarly | esix/socket.c:567-608 | while a socket is open, what it holds for retransmission is a tail of its stream that begins no later than the first byte that the peer has not queued |
| Streams.AllAcknowledgedIsAllQueued | esix/tcp6.c:105-106 | once an open socket has nothing left to retransmit, the peer has queued everything |
| Streams.ExpiryFollowsQueueing | esix/socket.c:579-596 | an entry leaves by acknowledgement only after the peer has queued all of it |
| Streams.ExpiryIsExact | esix/socket.c:567-608 | in every reachable state of an open socket, expiry removes exactly the entries that an acknowledgement covers |
| Streams.ReceivedIsPrefix | esix/socket.c:198-246 | with large enough buffers recv hands out a prefix of what the peer's send accepted |
| Streams.CloseReachesPeer | esix/socket.c:461-485 | closing one end closes and empties the other as soon as the reset arrives |
| Streams.TimerResends | esix/socket.c:640-649 | when the timer has run out and the oldest entry is not too old, that entry is sent again whole |
| Streams.OutOfOrderIsAnswered | esix/tcp6.c:136-141 | any segment other than the next in order, seen before or beyond a gap, is answered at once with the number expected, and nothing of it is queued |
| Streams.ReceiverAnswers | esix/tcp6.c:105-143 | a receiver answers every part of the stream that reaches it, if it has room; the answer covers the part unless that lies beyond a gap |
| Streams.RoundTripReleasesOldest | esix/tcp6.c:105-143 | whatever was lost before, once that segment reaches a receiver that can take it or has it already and the answer comes back, the receiver has the data and the sender lets go of the entry |
| Retransmission.TickTimed | esix/socket.c:611-660 | a tick keeps the timer within its bound for every sent entry |
| Retransmission.SendTimed | esix/socket.c:533-534 | a send puts it off by two ticks at most |
| Retransmission.ProcessTimed | esix/tcp6.c:36-206 | no segment, of whatever kind, puts it off |
| Retransmission.RetransmissionIsBounded | esix/socket.c:611-661 | in any run the timer is set while a sent entry is queued, the queue holds at most ESIX_QUEUE_DEPHT + 1 entries, and none stays sent for longer than 2*MAX_RETX_TIME + 2 + 2*ESIX_QUEUE_DEPHT ticks |
| Retransmission.TimerWaits | esix/socket.c:632-634 | until its date has come the timer does nothing but let the time pass |
| Retransmission.TickOnSchedule | esix/socket.c:632-655 | one tick of a lone unacknowledged segment: the segment is sent again at seven ages, and nothing happens at any other before the connection is given up |
| Retransmission.RetransmissionSchedule | esix/socket.c:611-661 | a segment sent while no other is unacknowledged, and never acknowledged, goes out again 2, 3, 4, 10, 18, 34 and 66 ticks later and at no other tick, and the connection is reset after 130 |
| Delivery.EntriesAreYoung | esix/socket.c:611-661 | in every reachable state of two connected sockets no sent entry is older than 252 ticks |
| Delivery.DeliveredInTime | esix/socket.c:611-661 | with any loss, duplication and reordering, all that send has accepted at one end has been queued for recv at the other more than 252 ticks later, in order and whole, unless the connection has been given up |
| Lifecycles.StatesNeverEntered | esix/socket.h:8-22 | in no run of calls, ticks and segments is FIN_WAIT_1, CLOSE_WAIT, CLOSING, LAST_ACK or TIME_WAIT ever entered |
| Lifecycles.OpenedExactlyWhen | esix/tcp6.c:71-92 | a socket that connects is established exactly by a SYN with an acknowledgement of its own number, which is one less than that of the SYN it sent |
| Lifecycles.ConnectNeverCompletes | esix/socket.c:115-137 | so in no run in which every such answer acknowledges the SYN as section 3.4 of RFC 793 demands does connect lead to an established connection |
| Lifecycles.FirstDataQueuedExactlyWhen | esix/tcp6.c:80-90 | where a segment does establish it, the peer's first data are queued exactly if the peer's number is the one that it acknowledged |
| Lifecycles.ReadableExactlyWhen | esix/tcp6.c:208-237 | a segment can be read at the other end exactly if its length with the header, cut to 16 bits, is still that of a header at least; short data go out whole |
| Lifecycles.AnsweredExactlyWhen | esix/tcp6.c:105-143 | an established socket answers every segment in mid-stream but the next in order that carries no data or cannot be queued, with the number that it expects then |
| Lifecycles.ReceiveTakesFirst | esix/socket.c:198-246 | recv hands out the first entry that waits as far as the buffer reaches, loses the rest of that entry, and leaves all others; in any other state it does nothing |
| Lifecycles.AllIsHandedOut | esix/socket.c:198-246 | in every run of two connected ends a socket that is still established hands out all that it has queued, in as many calls as entries wait, if no buffer is too small |
| Lifecycles.SixAreAccepted | esix/socket.c:26-34 | of the data passed to send while nothing is acknowledged exactly the first six parts are accepted |
| Lifecycles.CloseEnds | esix/socket.c:455-488 | close ends in a closed and empty socket from every state that is ever entered, with a reset that carries the current numbers exactly from the three states of a connection |
| Lifecycles.ResetEnds | esix/tcp6.c:189-198 | a reset of either kind, whatever its numbers, ends a connection and is not answered |
| Lifecycles.ClosedForGood | esix/socket.c:380-393 | in any run a closed socket stays closed and empty and sends nothing but resets |
| Lifecycles.StrayFlagsChangeNothing | esix/tcp6.c:201-204 | a SYN, or flags that mean nothing, leave a connection as it is |
| Lifecycles.IdleIsSilent | esix/socket.c:651-659 | with nothing to send again the timer sends nothing in any number of ticks, and turns itself off when its date comes |
| Lifecycles.FinIsAcceptedExactlyWhen | esix/tcp6.c:157-184 | a FIN changes the state, and is answered, exactly if it acknowledges all that this end has sent, whatever its own number |
| Lifecycles.PassiveCloseCompletes | esix/tcp6.c:117-127 | a FIN in order is acknowledged together with this end's own, and the acknowledgement of that closes and empties the socket |
| Lifecycles.FinOvertakesExactlyWhen | esix/tcp6.c:157-172 | a FIN is acknowledged with the right number exactly if it comes in order; data that it has overtaken are given up |
| Lifecycles.NothingAfterFin | esix/tcp6.c:160-172 | in any run after that nothing more is accepted, queued or handed out, not even what waited for recv when the FIN came |
| Lifecycles.RepeatedFinIsIgnored | esix/tcp6.c:157-184 | a FIN that is repeated because the answer was lost is not answered again, and the socket stays in FIN_WAIT_2 however many ticks pass |
| Sockets.Socket.constructor | esix/socket.c:12-17 | a socket starts closed, all zero and with no element |
| Sockets.Socket.Reserve | esix/socket.c:380-393 | a closed socket is reused with the type and port given and all else cleared, and forgets no element |
| Sockets.Socket.CheckRoom | esix/socket.c:26-34 | the loop gives up exactly when more than ESIX_QUEUE_DEPHT entries are queued |
| Sockets.Socket.QueueData | esix/socket.c:19-89 | the new element is linked last, or nothing changes when there is no room, no memory or no such protocol |
| Sockets.Socket.QueueChild | esix/socket.c:285-303 | a child's element is linked last however many wait, and comes under the account |
| Sockets.Socket.Search | esix/socket.c:166-178 | the walk finds the first element of a kind and its predecessor |
| Sockets.Socket.FindAndEvict | esix/socket.c:157-191 | the element found is unlinked and still allocated |
| Sockets.Socket.ExpireE | esix/socket.c:567-608 | the relinked queue is what ExpiryDropsAcked says; each element unlinked is freed once |
| Sockets.Socket.FreeQueue | esix/socket.c:490-507 | every element and its data is freed once |
| Sockets.Socket.Send | esix/socket.c:509-537 | refines the send of Streams, with its return values |
| Sockets.Socket.RecvFrom | esix/socket.c:198-246 | refines recvfrom: the bytes of the first received entry, cut to the buffer, its number and the peer of a stream socket; the entry is freed |
| Sockets.Socket.Accept | esix/socket.c:249-266 | the first child that waits is handed out, and its element is unlinked and freed once; the address handed back is the listening socket's own |
| Sockets.Socket.Connect | esix/socket.c:115-153 | refines connect for stream and datagram sockets: which states it accepts, the fields that it sets and the SYN that it sends |
| Sockets.Socket.Close | esix/socket.c:455-488 | refines close: a reset for a connection, and an empty closed socket |
| Sockets.Socket.ProcessAck | esix/tcp6.c:94-144 | refines the segment processing of Streams |
| Sockets.Socket.ProcessFin | esix/tcp6.c:146-187 | refines the FIN branch; every element unlinked is freed |
| Sockets.Socket.ProcessRst | esix/tcp6.c:189-198 | a reset closes a connected socket and frees its queue |
| Sockets.Socket.Greet | esix/tcp6.c:63-67 | what a SYN makes of the new child: the numbers of both ends and the answer |
| Sockets.Socket.Refuse | esix/tcp6.c:71-198 | the answer of a socket that is not connected |
| Sockets.Socket.Process | esix/tcp6.c:71-205 | refines the branches for all flags but SYN in every state; every element ever queued is in the queue or freed, never both |
| Sockets.Socket.Housekeep | esix/socket.c:611-660 | refines the timer of RetransmissionSchedule: it waits for its date, sends again, gives up or turns itself off |
| Sockets.Socket.Tick | esix/esix.c:76-86 | advances the clock before housekeeping |
| SocketTables.Table.constructor | esix/socket.c:12-17 | after initialisation every socket is closed and none has ever queued an element |
| SocketTables.Table.LinkedOnceOrFreed | esix/socket.c:19-314 | whatever calls and segments came before, every element ever queued is linked once, in the queue of exactly one socket, or freed, and never both |
| SocketTables.Table.PortAvailable | esix/socket.c:553-564 | a port is available exactly if no open socket uses it |
| SocketTables.Table.FreePort | esix/socket.c:365-373 | from any value of the 16-bit counter the unbounded search ends within ESIX_MAX_SOCK + 1 tries, at the first port behind the last one, in turn, that no open socket uses |
| SocketTables.Table.OpenSocket | esix/socket.c:356-401 | the first closed socket is set up with a port that no open socket uses, and no other socket changes; -1 exactly for a wrong family or a full table |
| SocketTables.Table.FindSocket | esix/socket.c:316-354 | the first socket that matches, in the sense of OnePeer and SegmentsMeet when connected, or -1 exactly if none does |
| SocketTables.Table.Listen | esix/socket.c:445-453 | only a reserved socket starts to listen, and nothing else changes |
| SocketTables.Table.CreateChild | esix/socket.c:269-314 | a child comes to be exactly if a socket listens, the table has room and there is memory: in the first closed socket, with its element linked behind all that wait at the first listening one, and its segments find a socket; otherwise at most a closed socket has changed |
| SocketTables.Table.ProcessSyn | esix/tcp6.c:53-69 | what becomes of every socket: the child with the numbers from which the streams of Streams begin, the listener's queue one child longer, all others as they were; and the answer |
| SocketTables.Table.Process | esix/tcp6.c:51-205 | a SYN does that, and any other segment goes to the first connected socket that matches, is processed there as in Endpoints and changes no other socket, or is refused; the answers go back the way the packet came |
| SocketTables.Table.Accept | esix/socket.c:249-266 | the children are handed out in order of arrival, each element is freed, and no other socket changes; the address handed back is that of the listening socket's peer |
| SocketTables.Table.Connect | esix/socket.c:115-153 | connect happens at that socket, whose remote end is set, and nothing at any other; the SYN carries the addresses |
| SocketTables.Table.Send | esix/socket.c:509-537 | the send of Streams happens at that socket and nothing at any other; the segment carries the socket's addresses |
| SocketTables.Table.RecvFrom | esix/socket.c:198-246 | so does recv |
| SocketTables.Table.Close | esix/socket.c:455-488 | so does close, with its return value; children that nobody accepted are freed with the rest of the queue |
| SocketTables.Table.Tick | esix/socket.c:611-661 | the loop over all sockets does at each what the timer of Retransmission does, and sends what that sends, in table order |
| SocketTables.ChildIsFoundExactlyWhen | esix/socket.c:316-354 | after a SYN the sender's next segments reach the child exactly if no socket before it in the table was connected to that sender already |
| SocketTables.HandshakeEstablishes | esix/tcp6.c:53-114 | then the peer's acknowledgement of that answer establishes the child; both ends agree on the numbers, the queue is empty, and the child waits behind those that waited for accept before |
| SocketTables.SynIsAcceptedExactlyWhen | esix/socket.c:269-314 | a SYN makes a connection exactly if a stream socket listens on its port, at any address or the one it was sent to, some socket is closed, and there is memory; otherwise it is answered with a reset |
| SocketTables.ConnectMeetsListen | esix/tcp6.c:53-92 | a socket that connects to one of the same code that listens takes no notice of the answer and sends nothing, so that neither end is established |
| SocketTables.OnePeer | esix/socket.c:339-345 | whatever two segments a connected socket takes come from one address and port, and go to one port and, unless it is open to all, one address; a datagram socket takes none |
| SocketTables.SegmentsMeet | esix/socket.c:525-531 | what one end sends along a connection finds the other end's socket, the first connected to that peer, is processed there and nowhere else, and the answer is sent along the same connection back |
| SocketTables.PeersAreKeptApart | esix/socket.c:316-354 | two SYNs, even from one host, make two connections, and the segments of each sender find its own |
| SocketTables.PeersDoNotMix | esix/socket.c:316-354 | a segment of the one then leaves the connection of the other as it is |
| SocketTables.RefusalsEnd | esix/tcp6.c:71-198 | every segment that no socket takes is answered with one reset, with numbers from the segment, unless it is a reset; the answer is not answered |
| SocketTables.UnconnectedRefuses | esix/tcp6.c:71-198 | a socket that is not connected answers as if there were none |
| SocketTables.HalfOpenIsReset | esix/tcp6.c:97-103 | a connection whose other end is gone is closed as soon as a segment has gone there and the reset has come back |
| SocketTables.OpenedPortIsNew | esix/socket.c:365-388 | the port of a socket given out is that of no other open socket |
| SocketTables.TickSendsForEach | esix/socket.c:611-661 | a tick sends what each socket's own timer sends, at most one packet for each, and nothing else |
| SocketTables.ServeOne | esix/socket.c:249-453 | from an empty table: open, listen, a SYN, and accept hands out the connection that the SYN has opened, with the address in6addr_any and port 0 whoever the peer is |
| SocketTables.ConnectionIsKeptExactlyWhen | esix/tcp6.c:53-69 | when the sender of a SYN is connected already, its segments still reach the old connection exactly if that is before the new child in the table, and reach the child otherwise |
| SocketTables.TakenOverIsStranded | esix/tcp6.c:71-205 | in the other case no segment from the sender changes the old connection any more |
| SocketTables.RepeatedSyn | esix/socket.c:269-314 | from an empty table: once a lower socket has been closed, a repeated SYN takes the segments of the connection that the first one made |
| Checksums.FoldIsCongruent | esix/ip6.c:127-128 | folding ends below 2^16, congruent to the sum modulo 65535, and at 0 only for 0 |
| Checksums.ZeroExactlyWhen | esix/tcp6.c:48-49 | a receiver computes 0 exactly when the words come to a positive multiple of 65535 |
| Checksums.TotalFits | esix/ip6.c:110-125 | for every payload that a 16-bit length describes the sum fits in 32 bits |
| Checksums.FieldAdds | esix/tcp6.c:229-232 | writing a number into a zeroed field at an even place adds it to the sum |
| Checksums.ReceiverGetsZero | esix/ip6.c:108-131 | the sender's checksum, written into its field, makes the receiver's computation 0 |
| Checksums.ByteOrderDoesNotMatter | esix/ip6.c:121-130 | little-endian evaluation stores the same two bytes as network-order evaluation (section 2 of RFC 1071) |
| Checksums.BigEndianHostAgreesExactlyWhen | esix/ip6.c:124-125 | on a big-endian host the same code adds up the same words exactly when there is no odd last byte or it is 0 |
| Checksums.TotalIsOneSum | esix/ip6.c:113-125 | pseudo-header and payload are summed as one string (section 8.1 of RFC 8200) |
| Checksums.UpperChecksum | esix/ip6.c:108-131 | the loops compute the complement of the folded sum, without overflow |
| Checksums.OneByteErrorIsSeen | esix/ip6.c:113-131 | whatever differs in one byte of either address, the protocol or the payload from something that a receiver accepts is refused |
| Checksums.PaddingIsSeen | esix/ip6.c:118-125 | so is anything with zeros added behind the payload, since the length is covered |

## Left out

- The hardware and port layer, the assembly context switch, boot, drivers, the demo servers and mDNS.
- Co-routines, the alternative queue interface, tracing and run-time statistics, `heap_1.c` and `heap_3.c`, and
  `vTaskPrioritySet`, which are not built or configured out.
- Stacks of tasks; that memory for a task runs out is a parameter of `Tasks.Scheduler.CreateTask`.
- Recursive mutexes and counting semaphores, which add only wrappers to `queue.c`.
- What a mutex does to priorities is a step of the scheduler model; `QueueBuffers` says which task it is done to.
- QueueBuffers.Queue.Send: the tasks whose priority is no lower than the running task's are a parameter (`urgent`), as
  for every method of the queue that wakes one.
- In `Queues` the place at which a task joins an event list, and the moment at which it leaves it otherwise, are
  free choices; that the list is ordered is proved for the scheduler.
- UDP, `sendto`, and what a datagram carries besides its data.
- `bind` to a specific address, whose loop never advances its index.
- Several connections at once in `Streams`, and FIN and SYN there: `SocketTables.PeersDoNotMix` keeps connections apart,
  and Lifecycles says what a FIN does.
- KernelYields.HighestReadyTaskRuns: not for runs in which the return of a mutex sinks the running task, which
  DisinheritKeepsExactlyWhen delimits and GivingBackDoesSink reaches; and a yield that an interrupt handler is told to
  make counts as outstanding until a context switch happens, since making it is up to the handler.
- Retransmission.RetransmissionSchedule: for a segment that is unacknowledged alone; with several, TickTimed bounds
  the timer and Streams.TimerResends says which is sent.
- Sockets.Socket.Connect: whether a source address is found for the destination is a parameter.
- The layout of headers on the wire, routing, neighbour discovery, MLD and router advertisements.
- Concurrency inside esix: the code takes no locks, so every call and every received segment is one step.
- KernelRanks.EventsWakeHighest: only for runs in which no task inherits a priority while it waits for an event
  itself; InheritKeepsOrderExactlyWhen says when such a step does no harm.
- KernelRuns.DisinheritCore: for a holder that waits for no event; DisinheritBreaksExactlyWhen says that it is false
  of every other, and DisinheritDoesBreak that one can be reached.
- KernelTheorems.SleepStep: not for the step that gives back a mutex of the sleeper while its priority is raised, which
  wakes it (KernelReach.DisinheritDoesWake).
- Queues.NoLostWakeUp: the lock counts are unbounded; more than 2^31 interrupts during one lock are not modelled.
- HeapBlocks.Heap.Malloc: requests within 8 of 2^32 are not modelled, because the headers of the blocks that the
  code would then cut overlap; WantedCoversExactlyWhen draws the line.
- Streams.StreamsAreSafe: for streams whose numbers stay below 2^32; ExpiryIsRightWhen says exactly when the plain
  comparison of acknowledgements is right beyond, and WrappedEntryExpiresEarly shows that it can be wrong.
- Retransmission.RetransmissionIsBounded: the clock does not wrap.
- Sockets.Socket.Process: SYN concerns the whole table and is in SocketTables.Table.Process.
- Sockets.Socket.RecvFrom: the sender that is stored with a datagram is left out with UDP.
- In `Sockets` what `esix_queue_data` stores in an element is a constant of the element; the source never changes it
  later.
- Creating and deleting tasks before the scheduler starts.
