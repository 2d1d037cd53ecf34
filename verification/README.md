# plain, verified

A Dafny model of the stateful core of the network and concurrency framework *plain*: what its data
structures, protocols and byte formats promise, proved for all inputs and all interleavings.
`dafny verify dfyconfig.toml` checks everything.

Five groups of modules follow the program.

**wepoll.** `RbTree` (with the pure `RbShape`) is the red-black tree with parent links, on the heap, as
the C code updates it. A ghost shape says which node hangs where; each operation is proved to turn one
linked shape into another, and the shapes carry order, colours and balance. `IntrusiveQueue` is the
circular queue, `PollGroups` the pool of poll groups of at most 32 sockets. `Port` is the table of sockets
with its update queue and its queue of deleted objects; the AFD driver is the environment, which answers
every submission and completes each accepted poll once. `RefLock` is the reference lock that lets a port be
destroyed while other threads use it.

**Executors and scheduler.** `WorkerThread`, `ThreadPool` and `ThreadExecutor` are transition systems whose
steps are the critical sections and atomic accesses of the code; the theorems speak of every run.
`WorkSharing` holds the loops that claim idle workers and deal out tasks. `Scheduler` is the manager's limit
on working connections, `ConnectionTable` its table of connection ids with copy-on-write snapshots.

**Timers.** `TimerSet` is the ordered set with its map of iterators, whose keys change when timers fire;
`TimerQueue` is the life of the queue with workers that die and are started again.

**MD5.** `Rfc1321` is the digest as the standard defines it, written independently of the code; `Md5` is the
streaming code, down to the unrolled rounds and the 32-bit carry, proved equal to it.

**Bytes.** `Ring` (with `RingIndex`) is the ring buffer with counters that wrap at 2^64 and a masked storage;
`Stream` the partial-send loop; `Codec` the framing; `AsyncLogger` the double-buffered logger.
`Collections` holds what several modules share.

In the transition systems atomics are sequentially consistent, a run is any sequence of steps, and `Safe`
says of a run that every state keeps what is promised and every enabled step meets the assertions of the
code. Tasks do not throw, and callbacks do not call back into the manager.

## Where the code does not do what it says

Each of these is proved: an input or a run that shows it, and exactly when it happens.

- `DynamicRing` copies its storage linearly and then changes its mask, so growth keeps the contents exactly
  when they lie in a row in the old storage (`Ring.GrowthExact`, `Ring.GrowthLoses`, `Ring.GrowthExample`).
- `MD5::update` computes its loop guard in 32 bits: a piece within 64 bytes of 4 GiB can run past its input
  (`Md5.OverrunsExactly`, `Md5.LongestOverruns`).
- The semaphore of `WorkerThread` is binary but can be released any number of times
  (`WorkerThread.TokensPileUp`): a run does so exactly if two of its releases have no acquisition between them
  (`WorkerThread.OverflowExactly`). No wakeup is lost if it saturates.
- A call of `WorkerThread::enqueue` from inside a task goes on to the public queue with tasks that have been moved
  from, so that as many empty tasks follow (`WorkerThread.OwnCallLeavesHusks`).
- In the thread pool the assertion that the private queue is empty before the swap can fail during a
  shutdown. For a worker this is so between the stores of its own two flags and, unless it is the first, from
  the store of the first worker's abort_ on, because its donations are then refused
  (`ThreadPool.SwapAssertionExact`). No task is lost by it.
- A worker of the thread pool that times out does not look at its queue again, so a task can be left there with
  no thread: in a run without a shutdown exactly if some worker times out while its queue is not empty
  (`ThreadPool.StrandedExactly`, `ThreadPool.TaskStranded`).
- The manager's separate connection count goes wrong when a connection is removed that is not in use while
  others are (`ConnectionTable.Table.Remove`, `ConnectionTable.CountGoesWrong`).
- Clearing any packet flag clears the readable one instead (`Codec.ClearingExactly`), so a decoded packet
  stays writeable (`Codec.MadeIs`).
- The logger cuts a log that is longer than one buffer (`AsyncLogger.WholeExactly`), and does not write what
  is in its buffers when it stops (`AsyncLogger.StopLosesExactly`, `AsyncLogger.StopExample`).

## Model

| member | source | states |
|---|---|---|
| `RbTree.Tree.Add` | framework/core/src/net/wepoll/wepoll.c:2038-2071 | For every tree, key and node outside it: a duplicate key returns -1 and changes nothing; otherwise the entries grow by exactly (key, node). Parent links, search order, no red node with a red child, equal black height and a black root are kept. |
| `RbTree.Tree.Del` | framework/core/src/net/wepoll/wepoll.c:2098-2169 | Removing any node of the tree takes out exactly its entry and keeps all red-black properties and links. |
| `RbTree.Tree.Find` | framework/core/src/net/wepoll/wepoll.c:2171-2182 | Finds the node of the key, or null exactly when no entry has it. |
| `RbTree.Tree.Rotate` | framework/core/src/net/wepoll/wepoll.c:1982-2009 | A rotation at any node, on either side, turns the linked shape into the rotated one, with all parent links and the root right. |
| `RbTree.Tree.RebalanceAfterInsert` | framework/core/src/net/wepoll/wepoll.c:2019-2036 | One rebalancing step keeps balance everywhere and no red-red pair except at the node it returns, which is nearer to the root. |
| `RbTree.Tree.FixAfterInsert` | framework/core/src/net/wepoll/wepoll.c:2061-2068 | The loop turns a tree that is red-black but for one red node into a red-black tree of the same nodes in the same order. |
| `RbTree.Tree.Unlink` | framework/core/src/net/wepoll/wepoll.c:2099-2147 | Taking a node out, by splicing or by its successor, leaves a linked tree without it, in order, that is short by one black node at most below the place it returns. |
| `RbTree.Tree.RebalanceAfterRemove` | framework/core/src/net/wepoll/wepoll.c:2073-2096 | One step either repairs the missing black node or moves it nearer to the root. |
| `RbTree.Tree.FixAfterRemove` | framework/core/src/net/wepoll/wepoll.c:2155-2168 | From any tree that is one black node short at one place the loop reaches a red-black tree of the same nodes. |
| `RbTree.Tree.constructor` | framework/core/src/net/wepoll/wepoll.c:1974-1976 | A new tree is valid and empty. |
| `RbShape.RotatedInorder` | framework/core/src/net/wepoll/wepoll.c:1982-2001 | A rotation does not change the order of the entries. |
| `RbShape.DepthBound` | framework/core/src/net/wepoll/wepoll.c:2171-2182 | The depth of a red-black tree is at most twice its black height plus one, and 2^height is at most its size plus one: a search is logarithmic. |
| `IntrusiveQueue.Queue.constructor` | framework/core/src/net/wepoll/wepoll.c:1463-1465 | A new queue is an empty ring. |
| `IntrusiveQueue.Queue.IsEmpty` | framework/core/src/net/wepoll/wepoll.c:1514-1516 | Agrees with the sequence of linked nodes. |
| `IntrusiveQueue.Queue.First` | framework/core/src/net/wepoll/wepoll.c:1477-1479 | The first linked node, or null exactly when there is none. |
| `IntrusiveQueue.Queue.Last` | framework/core/src/net/wepoll/wepoll.c:1481-1483 | The last linked node, or null exactly when there is none. |
| `IntrusiveQueue.Queue.Prepend` | framework/core/src/net/wepoll/wepoll.c:1485-1490 | Links a node in front; the circular links stay consistent both ways. |
| `IntrusiveQueue.Queue.Append` | framework/core/src/net/wepoll/wepoll.c:1492-1497 | Links a node at the end. |
| `IntrusiveQueue.Queue.Detach` | framework/core/src/net/wepoll/wepoll.c:1472-1475 | Takes the node out of the sequence, wherever it is, and leaves its own links as they were. |
| `IntrusiveQueue.Queue.MoveToStart` | framework/core/src/net/wepoll/wepoll.c:1499-1502 | The sequence without the node, behind it. |
| `IntrusiveQueue.Queue.MoveToEnd` | framework/core/src/net/wepoll/wepoll.c:1504-1507 | The sequence without the node, before it. |
| `IntrusiveQueue.Queue.Remove` | framework/core/src/net/wepoll/wepoll.c:1509-1512 | Takes the node out and marks it as not enqueued. |
| `IntrusiveQueue.Queue.MembersEnqueued` | framework/core/src/net/wepoll/wepoll.c:1518-1520 | Every node in the queue reads as enqueued. |
| `PollGroups.Pool.Acquire` | framework/core/src/net/wepoll/wepoll.c:996-1014 | Keeps the queue in the form full groups, then groups with room; counts one more acquisition for the group it returns; makes a new group exactly when all are full, and fails exactly when that cannot be allocated. |
| `PollGroups.Pool.Release` | framework/core/src/net/wepoll/wepoll.c:1016-1026 | One acquisition less for the group, which ends among those with room; the queue keeps its form. |
| `PollGroups.Pool.WithRoom` | framework/core/src/net/wepoll/wepoll.c:996-1006 | The last group if it has room, or null exactly when every group is full. |
| `PollGroups.Pool.NewGroup` | framework/core/src/net/wepoll/wepoll.c:957-979 | A new empty group at the end keeps the order, as all others are full. |
| `PollGroups.TakeKeeps` | framework/core/src/net/wepoll/wepoll.c:1010-1011 | Moving a group that has become full to the front keeps the full groups in front. |
| `PollGroups.ReleaseKeeps` | framework/core/src/net/wepoll/wepoll.c:1016-1026 | Moving a group that has room again to the end keeps the full groups in front. |
| `PollGroups.LastFull` | framework/core/src/net/wepoll/wepoll.c:996-1006 | If the last group is full, all are: the code need only look at the last one. |
| `Port.Monitored` | framework/core/src/net/wepoll/wepoll.c:1732-1772 | Every known event the user asks for, message events aside, is among those reported when the driver reports all it was asked for. |
| `Port.EventForEvent` | framework/core/src/net/wepoll/wepoll.c:1732-1772 | For every single known event but MSG and every single driver event: what the driver is asked to watch for the event it reports as that event, and nothing else is reported as it but a failed connection. |
| `Port.ToAfdBitByBit` | framework/core/src/net/wepoll/wepoll.c:1732-1751 | The conversion of a union is the union of the conversions, so that the table in Numbers settles it for all sets of events. |
| `Port.ToEpollBitByBit` | framework/core/src/net/wepoll/wepoll.c:1753-1772 | The same for the way back: no driver event is passed over because of another. |
| `Port.Numbers` | framework/core/src/net/wepoll/wepoll.c:1732-1772 | Both conversions of every single bit, in numbers. |
| `Port.ToldIs` | framework/core/src/net/wepoll/wepoll.c:1836-1889 | A deleted or closed socket, a cancelled poll and one without a handle report nothing; a failed poll reports ERR, bit 3; any other what its driver events become, as far as it is wanted. |
| `Port.WantedIs` | framework/core/src/net/wepoll/wepoll.c:1874-1879 | What is reported was found and asked for, and nothing that was both is kept back. |
| `Port.ToAfdMonotone` | framework/core/src/net/wepoll/wepoll.c:1732-1751 | Asking for more events never asks the driver for less. |
| `Port.ToEpollMonotone` | framework/core/src/net/wepoll/wepoll.c:1753-1772 | More driver events never become fewer epoll events. |
| `Port.NeverDeaf` | framework/core/src/net/wepoll/wepoll.c:1774-1834 | In every valid state a registered socket that does not wait for an update has exactly one poll outstanding, which is cancelled or watches every known event its user wants. |
| `Port.Dequeue` | framework/core/src/net/wepoll/wepoll.c:1422-1428 | Removal of an object from a queue keeps exactly the others. |
| `Port.DequeueDistinct` | framework/core/src/net/wepoll/wepoll.c:1422-1428 | And keeps the queue free of duplicates. |
| `Port.Enqueue` | framework/core/src/net/wepoll/wepoll.c:1414-1420 | Adds an object once, however often it is requested. |
| `Port.PortState.constructor` | framework/core/src/net/wepoll/wepoll.c:1087-1110 | A new port is valid and empty. |
| `Port.PortState.New` | framework/core/src/net/wepoll/wepoll.c:1637-1676 | Succeeds exactly when the socket is valid and unregistered and all allocations succeed; every failure leaves the tables as they were, the acquired group released. |
| `Port.PortState.SetEvent` | framework/core/src/net/wepoll/wepoll.c:1715-1730 | Sets events (with ERR and HUP) and data; afterwards the socket is attended, and the queue is left alone when the pending poll already covers them. |
| `Port.PortState.Unregister` | framework/core/src/net/wepoll/wepoll.c:1681-1689 | The first half of a deletion takes the socket out of the update queue and the tree and touches no other socket. |
| `Port.PortState.Discard` | framework/core/src/net/wepoll/wepoll.c:1694-1698 | Freeing returns the group acquisition and removes the object from all tables. |
| `Port.PortState.Delete` | framework/core/src/net/wepoll/wepoll.c:1678-1705 | Unforced, an object is freed exactly when no poll of it is outstanding, and is kept in the queue of deleted ones otherwise; nothing changes for other sockets. |
| `Port.PortState.Update` | framework/core/src/net/wepoll/wepoll.c:1774-1834 | Keeps the port valid; fails exactly when the needed cancellation or submission fails, and then changes nothing; otherwise the socket leaves the update queue, is left alone if covered, cancelled if its poll watches too little, and polled for its events if idle. A poll is submitted only when none is outstanding. |
| `Port.PortState.UpdateClosed` | framework/core/src/net/wepoll/wepoll.c:1817-1819 | A closed socket is dropped at once. |
| `Port.PortState.UpdateEvents` | framework/core/src/net/wepoll/wepoll.c:1170-1186 | Terminates for every sequence of driver answers, because each success shrinks the queue; it succeeds if the driver refuses nothing, and then the queue is empty and every live socket is covered; sockets that were not queued do not change. |
| `Port.PortState.Complete` | framework/core/src/net/wepoll/wepoll.c:1844-1845 | A completion ends exactly one outstanding poll of its object. |
| `Port.PortState.Requeue` | framework/core/src/net/wepoll/wepoll.c:1867-1888 | The socket is queued again; what is reported is what was found and is wanted; a one-shot socket that reported wants nothing more. |
| `Port.PortState.Feed` | framework/core/src/net/wepoll/wepoll.c:1836-1889 | For every completion of an outstanding poll: the port stays valid; the object is freed exactly when it was deleted or the local-close bit 0x20 came; otherwise it is queued again, its report is that of ToldIs, and a socket with the one-shot bit 31 that has reported wants nothing more, others what they wanted. |
| `Port.PortState.FeedEvents` | framework/core/src/net/wepoll/wepoll.c:1193-1209 | A batch of completions ends exactly those polls, reports in order what each of them found and its user wanted before the batch, and touches no other socket. |
| `Port.PortState.FeedOne` | framework/core/src/net/wepoll/wepoll.c:1200-1206 | One completion reports what its socket wants of what was found, or nothing for a deleted or closed socket. |
| `Port.FirstTime` | framework/core/src/net/wepoll/wepoll.c:1836-1845 | In a valid port a socket completes at most once in a batch. |
| `Port.PortState.UpdateIfPolling` | framework/core/src/net/wepoll/wepoll.c:1188-1191 | While a thread waits the update queue is empty afterwards, or the attempt to serve it failed; users' wishes are kept; nothing happens when no thread waits. |
| `Port.PortState.BeginPoll` | framework/core/src/net/wepoll/wepoll.c:1216-1221 | A thread starts to wait only after the update queue has been served. |
| `Port.PortState.StartWait` | framework/core/src/net/wepoll/wepoll.c:1243-1284 | A call of port_wait up to its first release of the lock: it waits with an empty update queue, or returns -1; with a positive number of events it waits unless the driver refuses; other waiting threads stay served, by a second attempt if the first failed. |
| `Port.PortState.EndWait` | framework/core/src/net/wepoll/wepoll.c:1230-1319 | From the end of a wait to the next release of the lock: reports exactly what the completions found and their users want; waits again exactly with nothing to report, time left and a driver that does not refuse, and then with an empty update queue; otherwise the remaining waiting threads are served, or the driver refused. |
| `Port.WishGranted` | framework/core/src/net/wepoll/wepoll.c:1321-1351 | As long as its object is there a socket stays registered, with its events and data. |
| `Port.PortState.Add` | framework/core/src/net/wepoll/wepoll.c:1321-1336 | Returns 0 exactly when the socket can be added, -1 with nothing changed otherwise; afterwards it is registered with its events and data, unless a thread waits and the driver found it closed; it is queued if none waits, and served otherwise. |
| `Port.PortState.Modify` | framework/core/src/net/wepoll/wepoll.c:1338-1351 | Returns 0 exactly when the socket is registered; as long as it is, it then has the new events and data, also if a thread waits and it is served at once. |
| `Port.PortState.Del` | framework/core/src/net/wepoll/wepoll.c:1353-1361 | Returns 0 exactly when the socket is registered; afterwards it is not, and its object is freed exactly if no poll of it is outstanding, and marked deleted otherwise; no poll is dropped. |
| `Port.PortState.Close` | framework/core/src/net/wepoll/wepoll.c:1139-1168 | Frees every object, returns every group acquisition, and leaves the update queue empty, as the code asserts. |
| `RefLock.EveryRunSafe` | framework/core/src/net/wepoll/wepoll.c:1522-1587 | For any number of threads the counter has room for and any interleaving: past the wait nobody holds a reference, a signalling thread is the only one and a waiter exists, a waiting thread has somebody who holds a reference or signals, the event is signalled as often as awaited and at most once, no step touches a freed lock, and no assertion fails (the final exchange sees exactly DESTROY). |
| `RefLock.StepIsSafe` | framework/core/src/net/wepoll/wepoll.c:1556-1587 | In every state of the invariant each enabled step finds its node allocated and its assertions true. |
| `RefLock.StepKeeps` | framework/core/src/net/wepoll/wepoll.c:1936-1972 | Every step of lookup, reference, removal and destruction keeps the invariant. |
| `RefLock.RefFits` | framework/core/src/net/wepoll/wepoll.c:1556-1562 | A reference taken on a node in the tree, or by the thread that took it out, leaves a word that counts one more and has no DESTROY bit. |
| `RefLock.UnrefFits` | framework/core/src/net/wepoll/wepoll.c:1564-1572 | Only the last reference given back after the destruction began sees the word DESTROY, so exactly one thread signals. |
| `RefLock.DestroyFits` | framework/core/src/net/wepoll/wepoll.c:1574-1583 | The destroyer waits exactly when references remain. |
| `RefLock.MeetFits` | framework/core/src/net/wepoll/wepoll.c:1542-1554 | A signal and a wait that meet leave a word that says DESTROY and no references. |
| `RefLock.FreedIsOut` | framework/core/src/net/wepoll/wepoll.c:1936-1950 | A node is freed only after it has left the tree. |
| `RefLock.ThreadKeeps` | framework/core/src/net/wepoll/wepoll.c:1936-1964 | What a lookup found stays in the tree while the lock is held, and an exclusive holder is alone. |
| `RefLock.InvPromises` | framework/core/src/net/wepoll/wepoll.c:1574-1587 | The invariant gives what is promised about waiting, signalling and freeing. |
| `RefLock.AddedIsFound` | framework/core/src/net/wepoll/wepoll.c:1917-1934 | A node that was added is what a lookup of its key finds, and the only one, as long as no thread takes it out. |
| `RefLock.EveryCloseEnds` | framework/core/src/net/wepoll/wepoll.c:1936-1972 | After any run a node that has been taken out of the tree can be brought to be freed: no thread that holds a reference, waits or signals is stuck. |
| `RefLock.WaitEnds` | framework/core/src/net/wepoll/wepoll.c:1564-1583 | A thread that waits for the references on its node can be woken, whoever holds them. |
| `WorkerThread.EveryRunSafe` | framework/core/src/concurrency/executor/worker_thread.cc:37-143 | For any threads, tasks and interleaving, and a semaphore that counts up to any positive limit: tasks of either queue run in the order they arrived, none is lost or doubled, no wakeup is lost, the semaphore is released exactly for an empty queue and awaited exactly when nothing was found, the assertion before the swap holds, and once shutdown returned nothing runs and nothing is left. |
| `WorkerThread.StepKeeps` | framework/core/src/concurrency/executor/worker_thread.cc:37-184 | Every step keeps the invariant. |
| `WorkerThread.WakesKeeps` | framework/core/src/concurrency/executor/worker_thread.cc:49-63 | A blocked worker with something to do always has a token, or somebody about to release one. |
| `WorkerThread.OrderKeeps` | framework/core/src/concurrency/executor/worker_thread.cc:37-47 | Run, dropped, in hand, private and public items of either origin remain, in this order, all that arrived. |
| `WorkerThread.NothingAfterShutdown` | framework/core/src/concurrency/executor/worker_thread.cc:160-184 | After the first shutdown has returned no step runs a task. |
| `WorkerThread.ArrivesAllOffered` | framework/core/src/concurrency/executor/worker_thread.cc:89-143 | For every run: what has arrived is what the calls of the run offer, read off the run alone: foreign tasks until abort_ is set, the worker's own until its private flag is, and the empty tasks that follow its own calls into the public queue, in this order. |
| `WorkerThread.EveryRunGoesOn` | framework/core/src/concurrency/executor/worker_thread.cc:37-143 | After any run, the worker and those about to wake it can go on, without anything new, until all that has arrived has been run, in its order; and a shutdown can be brought to its end. |
| `WorkerThread.WorkerDrains` | framework/core/src/concurrency/executor/worker_thread.cc:37-87 | Without a shutdown a worker in any reachable state gets to run everything. |
| `WorkerThread.ShutdownReturns` | framework/core/src/concurrency/executor/worker_thread.cc:160-184 | Whatever the worker is doing, shutdown can return. |
| `WorkerThread.OwnCallLeavesHusks` | framework/core/src/concurrency/executor/worker_thread.cc:138-143 | A call from inside a task puts its tasks into the private queue and as many empty ones into the public queue. |
| `WorkerThread.TokensPileUp` | framework/core/src/concurrency/executor/worker_thread.cc:115-117 | For every k there is a run of one producer and the worker after which the semaphore holds k tokens: a limit of one, as the code declares, is exceeded. EveryRunSafe shows that a semaphore that saturates is still enough. |
| `WorkerThread.OverflowExactly` | framework/core/src/concurrency/executor/worker_thread.cc:115-117 | For every run: some release finds the one token of a binary semaphore already there exactly if two releases of the run have no acquisition between them. |
| `ThreadPool.EveryRunSafe` | framework/core/src/concurrency/executor/thread_pool.cc:259-485 | For any number of workers, any tasks and any interleaving, with threads timing out and being restarted: each accepted task is with one worker, running, executed or discarded exactly as often as it was accepted, and what is accepted is what was asked for (AcceptsAllOffered); only the end of a task counts as its execution and only shutdown discards; a worker waits exactly if it finds nothing, and ends there exactly if its abort_ is set; the assertions hold except in the phases of a shutdown that SwapAssertionExact names; after it returned no step changes anything. |
| `ThreadPool.StepKeeps` | framework/core/src/concurrency/executor/thread_pool.cc:259-485 | Every step keeps the invariant. |
| `ThreadPool.SingleConserves` | framework/core/src/concurrency/executor/thread_pool.cc:304-347 | Waiting, swapping the queues, taking, running and ending conserve tasks. |
| `ThreadPool.EnqueueConserves` | framework/core/src/concurrency/executor/thread_pool.cc:388-441 | An enqueue adds exactly its tasks, or nothing when refused; when it is refused is AcceptsAllOffered. |
| `ThreadPool.AcceptsAllOffered` | framework/core/src/concurrency/executor/thread_pool.cc:388-456 | For every run: the accepted tasks are those the calls of the run ask for, read off the run alone; a call for worker v is refused exactly from the 4v+3rd step of the shutdown on, a local one of worker w from the 4w+2nd on. |
| `ThreadPool.StepCounts` | framework/core/src/concurrency/executor/thread_pool.cc:259-347 | Only the end of a task executes one, only shutdown discards any, and a worker that looks waits or ends exactly when it has to. |
| `ThreadPool.DonateConserves` | framework/core/src/concurrency/executor/thread_pool.cc:216-238 | A donation moves tasks from one worker to another, and moves none when the other refuses. |
| `ThreadPool.DonatesOldest` | framework/core/src/concurrency/executor/thread_pool.cc:227-238 | A donation moves the oldest tasks, behind those that wait already: put together, the two queues are as before. |
| `ThreadPool.RunsAll` | framework/core/src/concurrency/executor/thread_pool.cc:304-347 | A worker with a thread and tasks in its queue gets to run exactly those, if nobody disturbs it. |
| `ThreadPool.DrainsAlone` | framework/core/src/concurrency/executor/thread_pool.cc:304-327 | A draining worker gets to run all its private tasks and then looks for more. |
| `ThreadPool.NewestFirst` | framework/core/src/concurrency/executor/thread_pool.cc:315-318 | Of its private tasks a worker runs the newest. |
| `ThreadPool.GoesBehind` | framework/core/src/concurrency/executor/thread_pool.cc:388-456 | New tasks go behind the old ones, in the queue of the worker they are for. |
| `ThreadPool.ShutdownReturns` | framework/core/src/concurrency/executor/thread_pool.cc:458-485 | After any run, whatever the workers are doing, the threads can go on until shutdown has returned. |
| `ThreadPool.ShutConserves` | framework/core/src/concurrency/executor/thread_pool.cc:458-485 | What shutdown clears is counted as discarded. |
| `ThreadPool.AfterReturn` | framework/core/src/concurrency/executor/thread_pool.cc:600-605 | When shutdown has returned no step changes the state. |
| `ThreadPool.SwapAssertionExact` | framework/core/src/concurrency/executor/thread_pool.cc:342-343 | For any number of workers: some run makes the assertion that the private queue of worker w is empty before the swap fail in a given phase of the shutdown exactly if atomic_abort_ of w is stored and abort_ is not, or w is not the first worker, abort_ of the first is stored and that of w is not. |
| `ThreadPool.SwapAssertionFails` | framework/core/src/concurrency/executor/thread_pool.cc:310-326 | The run for each such phase: the worker saw its atomic_abort_, or was refused by a worker it donates to, ended with private tasks, and an enqueuer started a new thread. |
| `ThreadPool.AssertsUnlessExposed` | framework/core/src/concurrency/executor/thread_pool.cc:342-343 | In all other phases, and before a shutdown, the assertion holds in every reachable state. |
| `ThreadPool.StrandedExactly` | framework/core/src/concurrency/executor/thread_pool.cc:292-298 | A run without a shutdown leaves a task in the queue of a worker without a thread exactly if some worker times out while its queue is not empty. |
| `ThreadPool.TaskStranded` | framework/core/src/concurrency/executor/thread_pool.cc:292-298 | For instance a task that comes just before the timeout. |
| `WorkSharing.FindIdleWorker` | framework/core/src/concurrency/executor/thread_pool.cc:131-145 | The worker found is the nearest that can be claimed, going up and round from the caller or from the hashed id, and is not the caller; none is found exactly when none can be had. |
| `WorkSharing.FindIdleWorkers` | framework/core/src/concurrency/executor/thread_pool.cc:147-170 | Claimed workers are distinct, never the caller, no more than the limit or the approximate number of idle ones, and all that can be claimed if neither is reached; they are the nearest ones, in order. |
| `WorkSharing.BalanceWork` | framework/core/src/concurrency/executor/thread_pool.cc:198-257 | For every queue and claimed list: the donations and the rest are the queue, in order, in non-empty parts; the first ones, as many as the remainder, have one task more than the others; what was donated has been moved from; all internal assertions hold. |
| `WorkSharing.Spread` | framework/core/src/concurrency/executor/thread_pool.cc:562-589 | A bulk of tasks is dealt out completely, in order, in non-empty shares, of which the first ones, as many as the remainder, have one more. |
| `ThreadExecutor.EveryRunSafe` | framework/core/src/concurrency/executor/thread.cc:19-84 | For any tasks and interleaving: last_retired_ never holds more than one thread, no thread is joined twice or before it ended, and when the first shutdown has returned every thread ever started has ended and was joined once. |
| `ThreadExecutor.StepKeeps` | framework/core/src/concurrency/executor/thread.cc:19-84 | Every step keeps the invariant and the assertions hold. |
| `ThreadExecutor.ChainEnded` | framework/core/src/concurrency/executor/thread.cc:74-84 | By induction along the chain of retired threads: if one has ended, all before it have. |
| `ThreadExecutor.ChainMoves` | framework/core/src/concurrency/executor/thread.cc:74-84 | As long as a retired thread has not ended, some thread of the chain can take a step: the joins cannot block each other. |
| `ThreadExecutor.InvPromises` | framework/core/src/concurrency/executor/thread.cc:59-72 | The invariant gives what shutdown promises. |
| `ThreadExecutor.StartsAllAccepted` | framework/core/src/concurrency/executor/thread.cc:36-49 | For every run: a thread is started for exactly the tasks that are enqueued before the shutdown, read off the run alone. |
| `ThreadExecutor.EveryRunEnds` | framework/core/src/concurrency/executor/thread.cc:59-84 | After any run, the threads and a shutdown can go on until the thread of every such task has ended and has been joined exactly once, and shutdown has returned. |
| `Scheduler.EveryRunSafe` | framework/core/src/net/connection/manager.cc:154-203 | For any callers, limit and interleaving: the counter equals the tasks that have not decremented it and stays within a positive limit; the deque holds each waiting id once and agrees with the set; while the manager runs a waiting id has a task that will still enqueue; an enqueued id is posted or waits, as CallHandled and AgainHandled say of whole calls. |
| `Scheduler.StepKeeps` | framework/core/src/net/connection/manager.cc:587-607 | Every step keeps the invariant. |
| `Scheduler.ActKeeps` | framework/core/src/net/connection/manager.cc:590-606 | Although the counter may have dropped since it was loaded, posting stays within the limit and waiting leaves a task behind. |
| `Scheduler.DecrementKeeps` | framework/core/src/net/connection/manager.cc:164-172 | The decrement outside the mutex keeps the count exact, so its guard never fails. |
| `Scheduler.PopSame` | framework/core/src/net/connection/manager.cc:187-195 | Taking the first waiting id keeps deque and set equal. |
| `Scheduler.PushSame` | framework/core/src/net/connection/manager.cc:197-203 | So does adding one, even if it waits already. |
| `Scheduler.StepHandles` | framework/core/src/net/connection/manager.cc:587-607 | No id is dropped by any step: it is posted, waits, or waited already; for whole calls see CallHandled, AgainHandled and LeaveHandled. |
| `Scheduler.CallHandled` | framework/core/src/net/connection/manager.cc:587-607 | A call for an id, whatever the tasks do between its load and the rest: the id is posted as the new task if there was room, and waits behind the others otherwise; no other task appears or goes. |
| `Scheduler.AgainHandled` | framework/core/src/net/connection/manager.cc:154-185 | The same for an ending task that enqueues its connection again; and that task is over. |
| `Scheduler.LeaveHandled` | framework/core/src/net/connection/manager.cc:587-607 | An ending task that enqueues whatever waits: the id that has waited longest is posted if there is room, and the task is over. |
| `Scheduler.OthersUntouched` | framework/core/src/net/connection/manager.cc:587-607 | A decrement ends the work of exactly its task, stopping changes no task, and a manager that has stopped takes nothing. |
| `ConnectionTable.Table.constructor` | framework/core/src/net/connection/manager.cc:81-92 | A new table is valid, empty and has its default slots. |
| `ConnectionTable.Table.FullExactly` | framework/core/src/net/connection/manager.cc:371-375 | The table is full exactly when all ids up to the limit are in use. |
| `ConnectionTable.Table.NewConn` | framework/core/src/net/connection/manager.cc:336-369 | Fails exactly when full; otherwise returns an id within the limit that was not in use, and adds exactly it; the list of slots grows only for a new id beyond its end; snapshots do not change. |
| `ConnectionTable.Table.Allocate` | framework/core/src/net/connection/manager.cc:341-355 | The id is the least free one, or the next new one when none is free, and has a slot. |
| `ConnectionTable.Table.Remove` | framework/core/src/net/connection/manager.cc:383-409 | For any id, also one removed before: it is free afterwards and not in use, unless out of range or kept alive; snapshots do not change. The separate connection count stays right exactly if the call returns early, the id is in use, or no id is. |
| `ConnectionTable.Table.Free` | framework/core/src/net/connection/manager.cc:401-408 | Giving up an id, whether it is in use or not. |
| `ConnectionTable.Table.Change` | framework/core/src/net/connection/manager.cc:404-408 | The ids are copied exactly when somebody else holds them, so no snapshot ever changes. |
| `ConnectionTable.Table.Snapshot` | framework/core/src/net/connection/manager.cc:411-417 | A snapshot has the current ids and is counted as an owner. |
| `ConnectionTable.Table.Drop` | framework/core/src/net/connection/manager.cc:418-423 | Giving a snapshot back keeps the use counts right. |
| `ConnectionTable.Reuse` | framework/core/src/net/connection/manager.cc:342-345 | Reusing a free id keeps ids in use and free ids a partition of 1 to max_id. |
| `ConnectionTable.Extend` | framework/core/src/net/connection/manager.cc:346-351 | So does giving out a new one. |
| `ConnectionTable.Release` | framework/core/src/net/connection/manager.cc:401-408 | So does freeing one, even one that is free. |
| `ConnectionTable.Least` | framework/core/src/net/connection/manager.cc:342-345 | The least element of a set. |
| `ConnectionTable.CountAfterRemove` | framework/core/src/net/connection/manager.cc:402-403 | What taking one off the count does to its agreement with the set of ids, for Remove. |
| `ConnectionTable.CountGoesWrong` | framework/core/src/net/connection/manager.cc:402-403 | Two connections, one of them removed twice: the count says none while one is in use. |
| `TimerSet.Timers.ProcessTimers` | framework/core/src/engine/timer_queue.cc:41-77 | Terminates; fires the due uncancelled timers, each once, in the order of their deadlines; leaves exactly the others, with their deadlines, and the periodic ones, due their frequency in milliseconds after the clock read when they fired, in nanoseconds; keeps set and map in bijection; returns the least deadline, or now plus 86 400 000 000 000 nanoseconds when nothing is left. |
| `TimerSet.Timers.Round` | framework/core/src/engine/timer_queue.cc:49-70 | One due timer: it fires unless cancelled, and stays, with its new key and place, only if periodic and not cancelled; a cancelled one is not touched. |
| `TimerSet.Timers.ProcessDue` | framework/core/src/engine/timer_queue.cc:45-71 | The loop: whatever the timers, every due one gets its round once, in the order of the deadlines. |
| `TimerSet.Timers.OneDue` | framework/core/src/engine/timer_queue.cc:45-71 | The first timer, if it is due, is the least of those that have not had their round. |
| `TimerSet.Timers.Fire` | framework/core/src/engine/timer.cc:19-30 | The new deadline is the clock plus the frequency in milliseconds, as 1 000 000 nanoseconds each; changing the key of a timer that is out of the set leaves the set as it is, and sorted. |
| `TimerSet.Timers.ProcessRequests` | framework/core/src/engine/timer_queue.cc:101-111 | Handles the requests in order. |
| `TimerSet.Timers.AddTimer` | framework/core/src/engine/timer_queue.cc:84-88 | Adds exactly the timer. |
| `TimerSet.Timers.RemoveTimer` | framework/core/src/engine/timer_queue.cc:90-99 | Removes exactly the timer, or nothing if it has left. |
| `TimerSet.Timers.FirstIsLeast` | framework/core/src/engine/timer_queue.cc:72-77 | The first node has the least deadline. |
| `TimerSet.InsertSorted` | framework/core/src/engine/timer_queue.cc:21-26 | Insertion behind the elements that are not greater keeps the order. |
| `TimerSet.InsertMatched` | framework/core/src/engine/timer_queue.cc:84-88 | Insertion with its place noted keeps the bijection. |
| `TimerSet.EraseMatched` | framework/core/src/engine/timer_queue.cc:96-98 | So does erasing a node with its entry. |
| `TimerSet.Later` | framework/core/src/engine/timer.cc:19-22 | When firing sets a later deadline: exactly if the frequency is positive or the clock has moved on. |
| `TimerQueue.EveryRunSafe` | framework/core/src/engine/timer_queue.cc:168-342 | For any callers and interleaving, with workers ending and being restarted: a one-shot timer fires at most once, a timer whose removal was processed never fires, an idle queue has no timer and no add to handle, no added timer and no removal that was asked for is lost before shutdown, a worker ends exactly at its timeout or when it finds the queue shut down, and the assertions on adding and removing hold. |
| `TimerQueue.StepKeeps` | framework/core/src/engine/timer_queue.cc:168-342 | Every step keeps the invariant and its assertions hold. |
| `TimerQueue.HandleKeeps` | framework/core/src/engine/timer_queue.cc:84-111 | The oldest request can always be handled: what is added is not there and is afterwards, what is removed is not there afterwards, and what is missing at removal was one-shot or cancelled. |
| `TimerQueue.MakeKeeps` | framework/core/src/engine/timer_queue.cc:168-193 | Adding starts a worker exactly when none is there, which is exactly when the queue is idle. |
| `TimerQueue.AskKeeps` | framework/core/src/engine/timer.cc:67-79 | A removal is queued once, behind its add. |
| `TimerQueue.InvPromises` | framework/core/src/engine/timer_queue.cc:238-268 | The invariant gives that nothing is lost. |
| `TimerQueue.TimersAsAsked` | framework/core/src/engine/timer_queue.cc:168-193 | For every run: which timers there are, of which kind, whether they are cancelled and how often they have fired is read off the calls and expiries of the run alone: made before any shutdown, due before they are cancelled. |
| `TimerQueue.EveryTimerFires` | framework/core/src/engine/timer_queue.cc:238-268 | After any run the worker alone can bring any timer that was made before any shutdown, is not cancelled and is not a one-shot that has fired to fire once more. |
| `Md5.DigestOf` | framework/core/src/basic/md5.cc:246-321 | However a message is cut into update calls, if each piece fits the 32-bit loop guard behind what is buffered when it comes, finalize yields the digest of sections 3.1 to 3.5 of RFC 1321. |
| `Md5.Context.Update` | framework/core/src/basic/md5.cc:246-279 | For every piece that fits: the state has absorbed all whole blocks, the buffer holds the tail, and the counter the bit length mod 2^64, of the message so far. |
| `Md5.Context.Finalize` | framework/core/src/basic/md5.cc:290-321 | The digest is that of the message, and buffer and counters are cleared; calling it again changes nothing. |
| `Md5.Context.Pad` | framework/core/src/basic/md5.cc:290-308 | The two final updates add exactly the padding and the length of section 3.1 and 3.2 of RFC 1321. |
| `Md5.Context.constructor` | framework/core/src/basic/md5.cc:118-130 | A new context stands for the empty message. |
| `Md5.Context.FromText` | framework/core/src/basic/md5.cc:103-114 | Digests the text, its length cut to 32 bits. |
| `Md5.Context.Blocks` | framework/core/src/basic/md5.cc:266-268 | The loop absorbs every further whole block of the piece. |
| `Md5.Transform` | framework/core/src/basic/md5.cc:157-240 | One block is compressed as in section 3.4 of RFC 1321. |
| `Md5.AllRounds` | framework/core/src/basic/md5.cc:163-233 | The unrolled rounds are the 64 operations of the standard, in its order and with its constants and shifts. |
| `Md5.FF` | framework/core/src/basic/md5.cc:57-83 | Together with GG, HH and II: a step of the code, with its own basic functions and rotation, is the operation of the standard. |
| `Md5.Decode` | framework/core/src/basic/md5.cc:135-140 | Bytes become words, low byte first. |
| `Md5.Encode` | framework/core/src/basic/md5.cc:145-152 | Words become bytes, low byte first. |
| `Md5.AddLength` | framework/core/src/basic/md5.cc:250-253 | The two counter words, with carry, hold the bit length mod 2^64 after any piece. |
| `Md5.OverrunsExactly` | framework/core/src/basic/md5.cc:266-268 | The loop guard, computed in 32 bits, lets the loop run past its input on some iteration exactly when the piece does not fit. |
| `Md5.LongestOverruns` | framework/core/src/basic/md5.cc:266-268 | The longest piece does not fit: a concrete iteration that overruns. |
| `Ring.Ring.constructor` | framework/core/include/plain/basic/ring.h:280-298 | A fixed or dynamic ring is valid and empty. |
| `Ring.Ring.Write` | framework/core/include/plain/basic/ring.h:105-140 | For every state and data: a fixed ring appends what fits, or with `full` all or nothing; a dynamic one appends all, and if it grows keeps the contents when they lie in a row in the old storage. |
| `Ring.Ring.Insert` | framework/core/include/plain/basic/ring.h:41-61 | Appends one element; a full fixed ring refuses, a full dynamic one doubles, and keeps the contents if they lie in a row. |
| `Ring.Ring.Enough` | framework/core/include/plain/basic/ring.h:114-121 | The size asked for is a power of two with room enough, and no greater than needed. |
| `Ring.Ring.Resize` | framework/core/include/plain/basic/ring.h:304-313 | The storage is copied linearly and filled with zeros. |
| `Ring.Ring.Store` | framework/core/include/plain/basic/ring.h:133-137 | The copy loop appends the data behind the contents, whatever wrap-around of counter and storage. |
| `Ring.Ring.CopyIn` | framework/core/include/plain/basic/ring.h:133-137 | The elements end up behind those already there, in order, and the counter behind them. |
| `Ring.Ring.Read` | framework/core/include/plain/basic/ring.h:141-167 | Returns the first elements, as many as asked for or available, and removes them unless read-only; an emptied ring starts at zero again. |
| `Ring.Ring.Remove` | framework/core/include/plain/basic/ring.h:89-103 | Removes the first elements, as many as asked for or available. |
| `Ring.Ring.RemoveOne` | framework/core/include/plain/basic/ring.h:78-88 | Removes and returns the first element, if there is one. |
| `Ring.Ring.At` | framework/core/include/plain/basic/ring.h:216-223 | The element at an index, if there is one. |
| `Ring.Ring.Peek` | framework/core/include/plain/basic/ring.h:206-214 | Null exactly when fewer elements than asked for can be read; otherwise the first element, if there is one. |
| `Ring.Ring.Clear` | framework/core/include/plain/basic/ring.h:199-203 | Empties the ring; a dynamic one goes back to its first size. |
| `Ring.Ring.ConsumerClear` | framework/core/include/plain/basic/ring.h:194-197 | Empties the ring. |
| `Ring.GrowthExact` | framework/core/include/plain/basic/ring.h:304-313 | Growth keeps whatever is in the ring exactly when the elements lie in a row in the old storage. |
| `Ring.GrowthKeeps` | framework/core/include/plain/basic/ring.h:304-313 | The contents survive growth if they lie in a row. |
| `Ring.GrowthLoses` | framework/core/include/plain/basic/ring.h:304-313 | If they do not, there is a storage whose contents growth loses. |
| `Ring.GrowthExample` | framework/core/include/plain/basic/ring.h:304-313 | A run of a dynamic ring of two, five operations long, in which growth turns an element into a zero. |
| `Ring.NotBeyond` | framework/core/include/plain/basic/ring.h:304-313 | Counters that have not gone beyond the old size are enough for that. |
| `Ring.ViewWrap` | framework/core/include/plain/basic/ring.h:97-101 | A counter that wraps at 2^64 designates the same elements, as the size is a power of two. |
| `Ring.ViewPut` | framework/core/include/plain/basic/ring.h:133-134 | Storing behind the last element overwrites none of the others. |
| `Stream.Push` | framework/core/src/net/stream/basic.cc:50-77 | For every socket: what leaves the ring is exactly the prefix the socket takes when it is offered, up to 99 times, all that is left of at most 1 MiB, until it would block or fails; the result is the length of that prefix, or the error. |
| `Stream.TakesPrefix` | framework/core/src/net/stream/basic.cc:65-75 | What the socket takes is part of what it is offered. |
| `Codec.AnyFragmentation` | framework/core/src/net/stream/codec.cc:16-70 | For every list of packets within the limits and every way their bytes are cut into chunks, repeated decoding returns exactly those packets, in order, and leaves nothing. |
| `Codec.Decode` | framework/core/src/net/stream/codec.cc:27-70 | Takes exactly one frame out of the stream, or nothing and reports why: CantFill, Invalid or NeedRecv. |
| `Codec.DecodePrefix` | framework/core/src/net/stream/codec.cc:27-70 | Of the beginning of a row of frames the complete ones come out and the rest stays untouched. |
| `Codec.ParseEncoded` | framework/core/src/net/stream/codec.cc:16-25 | An encoded packet is read back, whatever follows it, exactly if its id is positive and within the limit and its payload within its own; otherwise it is invalid. |
| `Codec.EncodedBytes` | framework/core/src/net/stream/codec.cc:16-25 | The bytes of a frame in numbers: two for the id and four for the length, the most significant first, then the payload. |
| `Codec.ParsedBytes` | framework/core/src/net/stream/codec.cc:27-47 | What the decoder makes of any bytes, in numbers: the same order, the limits, and the six bytes of the header. |
| `Codec.WritesBehind` | framework/core/src/net/packet/basic.cc:50-60 | A packet that is not writeable does not change; to one that is the bytes are added at the end. |
| `Codec.ParsedIsEncoded` | framework/core/src/net/stream/codec.cc:27-60 | The decoder accepts only what the encoder makes. |
| `Codec.ParsePartial` | framework/core/src/net/stream/codec.cc:35-47 | A frame that is not complete gives CantFill or NeedRecv, never Invalid. |
| `Codec.MadeIs` | framework/core/src/net/stream/codec.cc:48-69 | A decoded packet has its id, payload and call flag and can be read; it can also still be written. |
| `Codec.ClearingExactly` | framework/core/src/net/packet/basic.cc:26-31 | Clearing a flag takes away that flag and no other exactly if it is the readable one, or neither it nor the readable one was set. |
| `Codec.RoundTrip32` | framework/core/src/net/stream/codec.cc:20-21 | From a length to four bytes and back; that these are in network order is EncodedBytes. |
| `Codec.Back32` | framework/core/src/net/stream/codec.cc:38-39 | And from any four bytes to a length and back; see ParsedBytes. |
| `AsyncLogger.EveryRunSafe` | framework/core/src/basic/async_logger.cc:180-247 | For any logs and any interleaving of callers and writer: file and drops, batch, full buffers and current buffer are, in this order, all that was stored; a missing next buffer means full buffers wait; the spare-buffer assertions hold; only a batch of more than 25 buffers is thinned, to its first two; a buffer is allocated only when the current one is full and none is at hand, and given up only when two are in reserve. |
| `AsyncLogger.StepKeeps` | framework/core/src/basic/async_logger.cc:180-247 | Every step keeps the invariant and its assertions hold. |
| `AsyncLogger.BuffersKeep` | framework/core/src/basic/async_logger.cc:203-246 | There are always buffers enough to give both spares back. |
| `AsyncLogger.AppendConserves` | framework/core/src/basic/async_logger.cc:180-194 | An append adds to the end of everything stored. |
| `AsyncLogger.RotateConserves` | framework/core/src/basic/async_logger.cc:207-217 | Taking all buffers at once keeps the order. |
| `AsyncLogger.WriteConserves` | framework/core/src/basic/async_logger.cc:228-230 | Writing keeps the order. |
| `AsyncLogger.StepDropsRightly` | framework/core/src/basic/async_logger.cc:219-227 | Only batches above the limit lose buffers, from the third on. |
| `AsyncLogger.StepFrugal` | framework/core/src/basic/async_logger.cc:180-246 | Counts the buffers: none appears or goes except so. |
| `AsyncLogger.StoresAllLogs` | framework/core/src/basic/async_logger.cc:180-194 | For every run: what was appended is, in order, the logs of its calls, each cut to 4 194 304 bytes. |
| `AsyncLogger.WriterFlushes` | framework/core/src/basic/async_logger.cc:203-247 | After any run the writer, left alone for the rest of its round and one more, has written or dropped exactly the logs of the run, in order. |
| `AsyncLogger.StopLosesExactly` | framework/core/src/basic/async_logger.cc:203-250 | What the file never gets when the writer stops is exactly what is in the full buffers and the current one; nothing is lost exactly if those are empty. |
| `AsyncLogger.StopExample` | framework/core/src/basic/async_logger.cc:174-178 | For instance any log that is appended and not followed by a rotation. |
| `AsyncLogger.WholeExactly` | framework/core/src/basic/async_logger.cc:182-191 | A log is stored whole exactly if one buffer can hold it; a longer one is cut. |

## Left out

- Sockets, epoll, kqueue, select, io_uring and completion ports, files, processes and dynamic libraries: calls of the operating system. Their answers are parameters.
- Memory orders weaker than sequential consistency.
- Fairness: that steps which can be taken are taken is not assumed, so what must happen in the end is stated as what the threads can always go on to do. Wakeups and idle timeouts of the thread pool are left to chance. The thread-local worker is taken to belong to the pool it enqueues to.
- Tasks that throw, and calls of shutdown from inside a task.
- Coroutine results, RPC packing, password and number encryption, ini and table loaders, console, time and singleton wrappers: easy, or bound to input and output.
- The line codec and log file rolling: not self-delimiting, or bound to the clock. The line the logger writes about dropped buffers is not part of the model.
- Ring.Ring.Write: requires that the elements and the data together number at most 2^63, more than any memory holds; concurrent use by one producer and one consumer is not modelled.
- Md5.Context.Update: requires that the piece fits the 32-bit loop guard; what the code does otherwise is stated only as far as Md5.OverrunsExactly says.
- TimerSet.Timers.ProcessTimers: requires that firing a periodic timer sets a deadline later than now; with frequency zero and a clock that stands still the loop does not end.
- RefLock.EveryRunSafe: the number of threads is at most 2^28 - 1, the room of the counter, which the code itself asserts.
- Port.PortState.EndWait: the choice between -1 and 0 after a wait that failed or timed out ignores that a later update may change the last error; the list of completions is always allocated.
- Port.PortState.Close: the completion port has been closed, so the driver has dropped the polls of forced deletions.
- WorkSharing.FindIdleWorkers: the approximate size of the idle set is a parameter; how it follows the flags is not modelled.
- Port keeps its socket tree and its group acquisitions as a map and a number; RbTree and PollGroups are the structures behind them.
