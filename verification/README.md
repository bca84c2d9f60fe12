# Cellos kernel core: a verified model

Cellos runs every cell in one address space, so isolation, scheduling and
loading rest on kernel bookkeeping. This project models that bookkeeping in
Dafny and proves what it keeps.

- `Frames`, `Stage2Tree`, `Stage2`: the frame bitmap and the three-level
  Stage-2 page tables in physical memory, against a flat map from guest pages
  to leaves, over any sequence of calls and over a table's whole life.
- `Tasks`, `SchedSpec`, `SchedSafety`, `SchedDeath`, `SchedRuns`, `SchedFate`,
  `SchedCases`, `TaskTable`: tasks, ready queues, IPC, futexes, waiting, death notices,
  timers and dispatch on one hart. `SchedSpec` gives each operation as a function
  on states, `TaskTable` the in-place methods proved to compute it, and the other
  modules the invariants of every run. `TaskTable.Run` drives the table itself by any
  steps, and `SchedCases` gives runs to the states where replies and freezes go wrong.
- `HartStack`: whose stack the hart is on, and which reaps spare it.
- `HotSwap`: the replacement of a running cell as a state machine whose steps
  interleave with every scheduler step.
- `CellPages`, `CellMemory`, `CellLoad`: stacks, cell segments and the loader on
  one page table and one frame allocator.
- `Fat16Volume`, `Fat16Safety`, `Fat16Image`, `Fat16`: the FAT16 insertion tool,
  as a step on volumes and as byte writes on an image that refine it.
- `AuditRing`, `VaAlloc`, `VirtIrq`: the audit ring, the lock-free address slot
  allocator and virtual interrupt queues.
- `ByteData`, `Bits`, `Sha256`, `MeasurementLog`, `CellTable`: SHA-256 against
  FIPS 180-4, the measurement log, and the bootstrap cell table from builder to
  loader.

Code that updates state in place is a class or a method on arrays; what it
computes is a function, and the properties are lemmas about that function.

Some properties one would expect do not hold of the code. They are kept as
results, with the exact condition where a condition decides them:

- Normal Stage-2 leaves can leave the guest's memory, exactly when the guest was
  created with no pages: the guard is then off (`Map`, `RunCalls`, `EmptyGuest`);
- a task frozen while it is blocked in Wait is released by the death of the task it
  waits for (`FrozenStays`, `ReleasedBy`), and thawing it breaks the waiter lists
  (`ThawNeedsNoWaiter`);
- a heartbeat kill of the running task leaves the hart, or the boot context, on a stack
  that the next reap frees, and nothing else does (`StackFollowsTask`,
  `HeartbeatKillFreesStackInUse`);
- a thaw brings a task back as it was before the freeze only if it was Ready
  (`ThawRestores`);
- a reply to a task that is dead, already Ready or on a waiter list breaks the
  invariants, and only then (`ReplyNeedsBlockedCaller`); a reply to a frozen task thaws
  it (`FrozenStays`, `ReleasedBy`);
- the message of a blocked sender is lost silently when the sender is frozen or replied
  to, and only then (`NoSilentLoss`);
- a stack allocation that finds no room in the page table keeps its frames
  (`AllocateStack`), and a load that fails other than by a collision keeps what it had
  mapped (`LoadCell`, `GoodThenBad`);
- a drain that is not interleaved with the new cell delivers one message
  (`BackToBackDeliversOne`);
- the Stage-2 root is on an 8 KB boundary exactly when the leftmost free pair
  starts at an even frame (`NewTable`, `OddRoot`);
- a futex wake with count zero wakes one task (`FutexChosenFirst`);
- the table builder does not look where its partition ends: cell data past sector
  560,000 overwrites the snapshot partition (`SnapshotSpared`);
- `disk_layout.rs` puts cell data behind 64 entry sectors, while the builder puts
  it behind as many as there are cells; the model follows the builder, and the
  loader reads the address stored in the entry.

## Model

| member | source | states |
|---|---|---|
| Frames.FrameAllocator.constructor | kernel/src/memory/frame.rs:50-120 | the pages that hold the bitmap, and no others, are in use at the start |
| Frames.FrameAllocator.MarkUsed | kernel/src/memory/frame.rs:181-185 | sets exactly one frame of the used map that the 64-bit bitmap words spell |
| Frames.FrameAllocator.MarkFree | kernel/src/memory/frame.rs:187-191 | clears exactly one frame of the used map that the bitmap words spell |
| Frames.FrameAllocator.FindFree | kernel/src/memory/frame.rs:157-179 | the first free frame of a range, none exactly when the range is full |
| Frames.FrameAllocator.AllocateFrame | kernel/src/memory/frame.rs:123-142 | next-fit: the first free frame from the last allocation on, else the first of all; fails exactly when every frame is in use |
| Frames.FrameAllocator.DeallocateFrame | kernel/src/memory/frame.rs:145-153 | frees the frame holding the address; an address outside the region changes nothing |
| Frames.FrameAllocator.AllocateContiguous | kernel/src/memory/frame.rs:264-282 | for more than one frame, the leftmost free run, and failure exactly when there is none; one frame goes through next-fit |
| Frames.FrameAllocator.AllocateGuestRam | kernel/src/memory/frame.rs:299-360 | terminates whatever others do between lock drops, and marks the returned run, free at that moment, and no other frame of the bitmap they left; undisturbed it returns the leftmost run and fails exactly when there is none |
| Frames.LeftmostRunUnique | kernel/src/memory/frame.rs:264-282 | the leftmost run is unique, so the chunked search and the naive scan agree |
| Frames.DisturbKeeps | kernel/src/memory/frame.rs:299-360 | one lock drop leaves a frame in use that nobody frees |
| Frames.DisturbRunKeeps | kernel/src/memory/frame.rs:299-360 | so does any number of lock drops |
| Stage2Tree.IndexDigits | kernel/src/memory/stage2.rs:79-83 | the three table indices of any address are the digits of its page number modulo 2^28 |
| Stage2Tree.TableDescForm | kernel/src/memory/stage2.rs:89 | a table descriptor is its frame address, cut to 48 bits and a page, with the two low bits set |
| Stage2Tree.PageDescForm | kernel/src/memory/stage2.rs:92-96 | a normal page descriptor is its frame address plus the attribute bits, without overlap |
| Stage2Tree.PageDescDeviceForm | kernel/src/memory/stage2.rs:99-103 | a device page descriptor is its frame address plus the attribute bits, without overlap |
| Stage2Tree.LeafRoundTrip | kernel/src/memory/stage2.rs:92-103 | frame, write permission and memory kind read back from every leaf descriptor |
| Stage2Tree.WalkIsFlat | kernel/src/memory/stage2.rs:312-353 | in a memory that represents a tree, the three-level hardware walk of every page below 2^40 is the flat map |
| Stage2Tree.TouchesHole | kernel/src/memory/stage2.rs:242-246 | the loop over the holes finds an overlap exactly when there is one |
| Stage2Tree.ClearOfHoles | kernel/src/memory/stage2.rs:241-246 | a range that passes the hole check has no page inside a hole |
| Stage2Tree.LinkL2 | kernel/src/memory/stage2.rs:312-329 | hanging a cleared unused frame under an empty level-1 slot keeps the representation and the flat map |
| Stage2Tree.LinkL3 | kernel/src/memory/stage2.rs:331-346 | hanging a cleared unused frame under an empty level-2 slot keeps the representation and the flat map |
| Stage2Tree.SetSlot | kernel/src/memory/stage2.rs:348-353 | writing one level-3 slot changes exactly one page of the flat map |
| Stage2.Stage2Table.AllocSubtable | kernel/src/memory/stage2.rs:199-209 | a new cleared table frame is one nobody held, and is recorded for teardown |
| Stage2.Stage2Table.MapSingle | kernel/src/memory/stage2.rs:311-386 | one page of the flat map is set, tables are added on the way, and the only failure is running out of frames |
| Stage2.Stage2Table.UnmapSingle | kernel/src/memory/stage2.rs:388-402 | one page of the flat map is removed, absent tables make it a no-op |
| Stage2.Stage2Table.Map | kernel/src/memory/stage2.rs:225-265 | every guard in order; the pages mapped are none, all, or the prefix reached when frames run out; no Normal leaf enters an MMIO hole; isolation from other memory is kept if and only if the guest has RAM or nothing was mapped |
| Stage2.Stage2Table.MapMmioPassthrough | kernel/src/memory/stage2.rs:287-307 | the same for device leaves, which may lie inside the holes and outside guest RAM |
| Stage2.Stage2Table.Unmap | kernel/src/memory/stage2.rs:271-277 | the flat map loses exactly the range, read off page by page below 2^40 |
| Stage2.Stage2Table.CarveGuestRam | kernel/src/memory/stage2.rs:190-195 | on success guest RAM is recorded for teardown, disjoint from every table frame, and an earlier carve becomes unreclaimable; on failure nothing of the table changes; undisturbed it succeeds exactly when there is a run, so always for no pages |
| Stage2.Stage2Table.Drop | kernel/src/memory/stage2.rs:407-428 | teardown returns every table frame and the carved guest RAM, and nothing else |
| Stage2.RunCalls | kernel/src/memory/stage2.rs:225-402 | after any sequence of calls the walk of every page equals the flat map updated the same way; each call ends as its guard says, a refused one with nothing done and one out of frames with a proper prefix; no call meets a block descriptor; isolation holds throughout if and only if the guest has RAM or no ordinary map mapped a page |
| Stage2.EmptyGuestEscapes | kernel/src/memory/stage2.rs:248-255 | a guest without RAM passes the guards with a host frame that is not its own, which a guest with RAM elsewhere does not |
| Stage2.EmptyGuest | kernel/src/memory/stage2.rs:190-265 | carving no pages succeeds, and then any host frame can be mapped |
| Stage2.Lifetime | kernel/src/memory/stage2.rs:155-428 | new, one carve, any calls (failing ones included) and drop leave the used set as it was |
| Stage2.HolesAfterMap | kernel/src/memory/stage2.rs:241-246 | mapping a range of device pages, or of pages outside the holes, leaves only device leaves inside the holes |
| Tasks.QueuedRemoveAll | kernel/src/task/hart_local/ready.rs:43-48 | removing a task from all queues takes every occurrence of it and nothing else |
| Tasks.PopSpec | kernel/src/task/hart_local/ready.rs:32-39 | popping takes the front of the highest non-empty queue and nothing else; it fails exactly when all are empty |
| Tasks.PushedBlindly | kernel/src/task.rs:1069-1086 | queueing a task without looking is right exactly when it is live and not queued yet |
| TaskTable.RetainQueue | kernel/src/task/hart_local/ready.rs:43-48 | the retain loop drops every occurrence of the id and keeps the order of the rest |
| TaskTable.Scheduler.RemoveFromAll | kernel/src/task/hart_local/ready.rs:43-48 | the loop over all queues is the removal, counted per task |
| TaskTable.Scheduler.PickLocal | kernel/src/task/hart_local/ready.rs:32-39 | the loop from the highest priority down pops what the queue model pops |
| SchedSafety.SpawnKeeps | kernel/src/task/scheduler.rs:303-306 | spawning keeps queues, ids, sends, waits, subscriptions and message accounting |
| SchedSafety.SendKeeps | kernel/src/task.rs:837-941 | every branch of a send keeps all invariants, from a running task or from the kernel |
| SchedSafety.FirstSenderSpec | kernel/src/task.rs:951-964 | the scan finds the lowest-numbered task blocked sending to the receiver, and none exactly when there is none |
| SchedSafety.TakeFromKeeps | kernel/src/task.rs:966-987 | copying a blocked sender's message and waking the sender keeps all invariants |
| SchedSafety.SysReceiveKeeps | kernel/src/task/syscall.rs:769-870 | the Recv call keeps all invariants: a queued death notice first, with the exit reason stored if it fits, then a buffered message, then ordinary receive |
| SchedSafety.ReceiveUntilKeeps | kernel/src/task/syscall.rs:956-983 | a receive with a deadline keeps all invariants |
| SchedSafety.FutexWakeKeeps | kernel/src/task.rs:1206-1235 | waking futex waiters keeps all invariants |
| SchedSafety.DoWaitKeeps | kernel/src/task/syscall.rs:1008-1037 | blocking in Wait keeps all invariants, in particular exact waiter lists |
| SchedDeath.ExitKeeps | kernel/src/task/scheduler.rs:318-421 | every death keeps all invariants: bury, release senders, wake waiters, notify watchers |
| SchedDeath.ExactlyOneNotice | kernel/src/task/scheduler.rs:395-420 | a death gives each subscription of a live watcher exactly one notice, the first by waking it if it was in Recv and the others queued in order, and removes only that subscription |
| SchedDeath.SenderGetsError | kernel/src/task/scheduler.rs:367-382 | a task blocked sending to the dead one becomes Ready with the error value, and its message is logged as failed |
| SchedRuns.SweepTimely | kernel/src/task/scheduler.rs:491-544 | exactly who wakes: a task whose deadline has come, and the lowest-numbered task waiting for a pending network event |
| SchedRuns.SweepKeeps | kernel/src/task/scheduler.rs:491-545 | the timer sweep keeps all invariants |
| SchedRuns.PreemptKeeps | kernel/src/task/scheduler.rs:650-706 | preemption keeps all invariants and leaves nobody Running, whether its task is requeued, killed by the watchdog or already blocked |
| SchedRuns.DispatchChoice | kernel/src/task/scheduler.rs:709-732 | the next task is the oldest of the highest priority, and the hart idles only when no task is Ready |
| SchedRuns.PickNextKeeps | kernel/src/task/scheduler.rs:466-782 | a whole scheduling decision keeps all invariants |
| SchedRuns.ReapableSpec | kernel/src/task/scheduler.rs:435-450 | reaping splits the zombies: none lost, none duplicated, and those with the id of the current task are kept |
| HartStack.StackFollowsTask | kernel/src/task/scheduler.rs:577-782 | through any step the hart stays on the stack of its current task, and the saved boot context on the boot stack, if and only if the step is not a pick that kills this task for its heartbeat |
| HartStack.HeartbeatKillFreesStackInUse | kernel/src/task/scheduler.rs:577-584 | after such a kill the dead task's stack is in use, or holds the boot context, and the next reap frees it |
| HartStack.StackNeverReaped | kernel/src/task.rs:273-366 | on every run without such a kill, a reap at any moment spares the stack the hart is on |
| SchedRuns.FreezeKeeps | kernel/src/cell/hotswap.rs:130-141 | freezing keeps all invariants whatever its task was doing; one blocked in Wait stays on its list |
| SchedRuns.ThawNeedsNoWaiter | kernel/src/cell/hotswap.rs:146-156 | thawing keeps all invariants if and only if its task was not blocked in Wait when it was frozen |
| SchedRuns.FreezeThenThaw | kernel/src/cell/hotswap.rs:130-156 | a freeze and a thaw together keep all invariants if and only if the task was on no waiter list |
| SchedRuns.ThawRestores | kernel/src/cell/hotswap.rs:130-156 | a thaw undoes a freeze, table and queued tasks, if and only if the frozen task was Ready |
| SchedRuns.ReplyNeedsBlockedCaller | kernel/src/task.rs:1069-1086 | a reply keeps all invariants if and only if its target, where it has one, is live, not Ready and not blocked in Wait, now or when it was frozen |
| SchedRuns.ReplyQueues | kernel/src/task.rs:1069-1086 | a reply keeps the ready queues exact if and only if its target is live and not Ready |
| SchedFate.ReplyCareful | kernel/src/task.rs:1069-1086 | a reply leaves every frozen task frozen and every blocked sender its outcome if and only if its target is neither |
| SchedRuns.QueuesAreExact | kernel/src/task/scheduler.rs:113-128 | on every run a task is queued exactly once when it is live and Ready, nowhere otherwise, and only the current task is Running |
| SchedRuns.MessagesAreExact | kernel/src/task.rs:837-1066 | on every run no live task sends to a dead one, and an accepted message has at most one outcome, for its own sender and, unless it was queued on a frozen task, its own target; a blocked sender has none yet |
| SchedRuns.SendCopies | kernel/src/task.rs:908-929 | an immediate delivery copies the longest prefix that fits into the receiver's buffer and nowhere else, and leaves the sender as it was |
| SchedRuns.ReceiveCopies | kernel/src/task.rs:966-987 | a delivery from a blocked sender copies the longest prefix that fits, and nothing else in memory changes |
| SchedFate.NoSilentLoss | kernel/src/task.rs:837-1086 | under every step, a live sender is released with no outcome of its message logged if and only if the step freezes that sender or replies to it |
| SchedFate.FrozenStays | kernel/src/task.rs:859-892 | under every step, a live frozen task stops being frozen if and only if it is unfrozen or replied to, or was frozen in Wait and the task it waited for is gone; its queue only grows at the end |
| SchedFate.ExitReleases | kernel/src/task/scheduler.rs:384-393 | a task frozen in Wait is Ready and queued once when the task it waits for dies |
| SchedCases.ReplyToReady | kernel/src/task.rs:1069-1086 | a run from boot to a state whose reply queues its Ready target twice |
| SchedCases.ReplyToKernel | kernel/src/task.rs:1069-1086 | a run to a state whose reply, to a message from the kernel, queues a task that does not exist |
| SchedCases.ReplyToWaiter | kernel/src/task.rs:1069-1086 | a run to a state whose reply, and likewise a freeze and a thaw, leaves a task on a waiter list it no longer waits on |
| SchedCases.FrozenInWait | kernel/src/cell/hotswap.rs:130-141 | a run to a state with a task frozen in Wait, which the exit of the other task makes Ready and queues |
| SchedCases.ReplyToFrozen | kernel/src/task.rs:1069-1086 | a run to a state whose reply makes a frozen task Ready and queued |
| SchedCases.ReplyToSender | kernel/src/task.rs:1069-1086 | a run to a state whose reply, and likewise a freeze, loses the message of a blocked sender |
| TaskTable.Scheduler.Spawn | kernel/src/task/scheduler.rs:303-306 | the new id was never in the table, the new task is queued once and nothing else moves, and all invariants are kept |
| TaskTable.Scheduler.ExitTask | kernel/src/task/scheduler.rs:318-421 | the loops over the table, the waiters and the watchers perform the modelled death |
| TaskTable.Scheduler.UnblockSenders | kernel/src/task/scheduler.rs:367-379 | the single pass releases every sender to the dead task, in id order, and clears stale callers |
| TaskTable.Scheduler.NotifyWatchers | kernel/src/task/scheduler.rs:395-420 | the loop over subscriptions is the notice model, and removes the subscription |
| TaskTable.Scheduler.TakeReapableZombies | kernel/src/task/scheduler.rs:435-450 | returned and kept zombies together are the old ones, and none with the id of the current task is returned |
| TaskTable.Scheduler.SweepTimers | kernel/src/task/scheduler.rs:491-545 | the loop over the table is the modelled sweep |
| TaskTable.Scheduler.PickNext | kernel/src/task/scheduler.rs:466-782 | sweep, heartbeat kills, preemption and dispatch in this order are the modelled step |
| TaskTable.Scheduler.IpcSend | kernel/src/task.rs:837-941 | refused exactly when the target is gone or its frozen queue is full, and then nothing changes; blocked exactly when the target is neither in Recv nor frozen; otherwise one message is accepted; all invariants are kept |
| TaskTable.Scheduler.FindSender | kernel/src/task.rs:951-964 | the loop finds what FirstSenderSpec describes |
| TaskTable.Scheduler.IpcRecv | kernel/src/task.rs:944-1001 | the receive performs the modelled step |
| TaskTable.Scheduler.IpcTryRecv | kernel/src/task.rs:1019-1066 | the non-blocking receive performs the modelled step |
| TaskTable.Scheduler.FutexWaiters | kernel/src/task.rs:1212-1222 | the scan, which looks at its limit only after adding, chooses what FutexChosenFirst describes |
| TaskTable.Scheduler.WakeFutex | kernel/src/task.rs:1206-1235 | the wake performs the modelled step and returns how many woke |
| TaskTable.Scheduler.FreezeTask | kernel/src/cell/hotswap.rs:130-141 | fails exactly when its task is gone; it is on no queue afterwards and no other task moves; all invariants are kept |
| TaskTable.Scheduler.UnfreezeTask | kernel/src/cell/hotswap.rs:146-156 | a frozen task is queued exactly once and no other moves, any other call changes nothing; the invariants are kept if and only if the task was not frozen in Wait |
| TaskTable.Scheduler.IpcReply | kernel/src/task.rs:1069-1086 | the invariants are kept if and only if the target is live, not Ready and not blocked in Wait, now or when it was frozen |
| TaskTable.Execute | kernel/src/task/scheduler.rs:97-782 | any enabled step done on the table in place is the modelled step and keeps all invariants |
| TaskTable.Run | kernel/src/task/scheduler.rs:97-782 | a table driven from boot by any labels is in a reachable state: Ready tasks queued exactly once and nothing else, only the current task Running, no message with two outcomes |
| HotSwap.OldNeverRunsAgain | kernel/src/cell/hotswap.rs:378-508 | on every run, from the hard freeze on, the old task is frozen or gone and on no ready queue for as long as no step of another task released it, and in any case once the swap is finished |
| HotSwap.ReleasedBy | kernel/src/cell/hotswap.rs:378-508 | a step of another task releases the frozen old cell if and only if it replies to it or ends the task it was waiting for when it was frozen |
| HotSwap.AbortRestores | kernel/src/cell/hotswap.rs:354-402 | on every run, a swap that fails before the new task exists leaves the old one unfrozen |
| HotSwap.DrainInOrder | kernel/src/cell/hotswap.rs:432-486 | on every run the drain delivers, in order and each at most once, a subsequence of a queue of at most 64; as many are missing as turns found the new cell outside Recv |
| HotSwap.DrainsAll | kernel/src/cell/hotswap.rs:446-486 | if the new cell is in Recv at every turn, every queued message is delivered |
| HotSwap.DrainIsSend | kernel/src/cell/hotswap.rs:483-485 | one delivery does what a send of the same bytes by the original sender would do to tasks, queues and memory |
| HotSwap.DrainFrame | kernel/src/cell/hotswap.rs:467-486 | a turn changes no task but the receiver, so no sender's state |
| HotSwap.BackToBackDeliversOne | kernel/src/cell/hotswap.rs:446-486 | with no other step in between, the loop delivers the first message if the new cell is in Recv and no other |
| HotSwap.FreezeHoldsUnlessWaiting | kernel/src/cell/hotswap.rs:378-382 | a frozen task survives the exit of another one still frozen if and only if it was not on its waiter list |
| HotSwap.TakenQueue | kernel/src/cell/hotswap.rs:432-443 | what is taken is bounded, in acceptance order, and held by nobody else |
| HotSwap.DrainQueue | kernel/src/cell/hotswap.rs:446-486 | the loop over the live table is the modelled drain |
| HotSwap.FmtU64Decimal | kernel/src/cell/hotswap.rs:219-233 | the digits denote the value, have no superfluous leading zero, and twenty places always suffice |
| CellMemory.Machine.AllocateStack | kernel/src/task/stack.rs:46-155 | usable pages get the stack permissions, the guard page is unmapped, no page outside RAM changes; it succeeds exactly when there is a free run and room for its usable pages; the allocator is unchanged exactly when there is no free run, so a failure for want of room keeps the run allocated |
| CellMemory.Machine.DropStack | kernel/src/task/stack.rs:158-198 | exactly the frames of the stack, guard included, become free, and the machine stays valid, so each is identity-mapped with boot permissions again |
| CellMemory.Machine.EagerUnmap | kernel/src/task/stack.rs:227-240 | only pages that still show this cell's frames are unmapped; no frame is freed; other cells keep theirs |
| CellMemory.Machine.DropSegments | kernel/src/task/stack.rs:243-264 | every frame is freed, and the mappings of every other live cell stay, in particular those of a respawn at the same addresses |
| CellMemory.Machine.FreeFramesUsable | kernel/src/task/stack.rs:168-185 | every free frame is identity-mapped with boot permissions |
| CellLoad.LoadCell | kernel/src/loader/elf.rs:37-217 | on success each page is tracked once with its own fresh frame; on failure the first failing segment, the reason, and exactly the pages and frames left behind: none after a collision, those of the segments before a bad header, at most one unmapped frame when memory runs out; page table and allocator are as before if and only if nothing is left |
| CellLoad.GoodThenBad | kernel/src/loader/elf.rs:59-68 | a good segment before a bad header stays mapped and allocated |
| CellLoad.LoadedCellSees | kernel/src/loader/elf.rs:49-215 | for disjoint segments a loaded cell sees file bytes in the file range, zero in the BSS range, with the union of the permissions |
| CellLoad.CopyContent | kernel/src/loader/elf.rs:179-201 | the copied part is exactly what the page lacks, and the range check before the copy never fails |
| CellLoad.Rollback | kernel/src/loader/elf.rs:126-136 | after a collision exactly the new pages and frames are undone |
| CellLoad.RunCalls | kernel/src/task/stack.rs:46-264 | after any sequence of stack and cell calls every free frame is identity-mapped; the cells in hand are those loaded and not reaped, and each that has not died sees its own frames |
| CellPages.WantIsOwn | kernel/src/loader/elf.rs:179-201 | for disjoint segments the byte wanted at an address is its own segment's |
| CellPages.CopyPage | kernel/src/loader/elf.rs:179-201 | copying the overlap of page and file range turns a page right for the earlier segments into one right for this one too |
| Fat16Safety.FreeChainClears | tools/fat16_insert.py:97-104 | freeing an acyclic chain frees exactly its clusters |
| Fat16Safety.SlotFound | tools/fat16_insert.py:80-94 | the entry an insertion uses is the one a later search for the name finds |
| Fat16Safety.ReadsBack | tools/fat16_insert.py:106-139 | the chain of the inserted entry reads back exactly the source bytes |
| Fat16Safety.OthersReadTheSame | tools/fat16_insert.py:96-139 | every other file keeps its entry, its chain and its bytes |
| Fat16Safety.ClustersConserved | tools/fat16_insert.py:96-125 | the number of free clusters changes by the old chain length minus the clusters needed |
| Fat16Safety.InsertKeeps | tools/fat16_insert.py:80-139 | the volume is well-formed again, with the new chain in place of the old |
| Fat16Safety.InsertAgain | tools/fat16_insert.py:80-139 | inserting the same name and bytes again gives the same volume |
| Fat16Safety.TouchedAgain | tools/fat16_insert.py:80-139 | a second insertion writes no table word that the first did not write |
| Fat16Safety.ChainsUnique | tools/fat16_insert.py:96-104 | the chains of a well-formed volume are determined by the volume |
| Fat16Image.SetFatShows | tools/fat16_insert.py:65-73 | setting a table word in every copy sets that entry of each copy and nothing else, whether or not the copies agree |
| Fat16Image.MirrorKeepsEqual | tools/fat16_insert.py:71-73 | copies that agreed before an insertion agree after it |
| Fat16Image.ClusterShows | tools/fat16_insert.py:118-124 | overwriting a cluster changes that cluster and nothing else |
| Fat16Image.SameBytes | tools/fat16_insert.py:57-76 | two images that show the same volume and the same table copies and agree elsewhere are the same bytes |
| Fat16.FreeOld | tools/fat16_insert.py:96-104 | the loop frees what the model frees and terminates on every table, cyclic ones included |
| Fat16.Allocate | tools/fat16_insert.py:106-115 | the first free clusters in ascending order, or too few |
| Fat16.PiecesCount | tools/fat16_insert.py:107 | a file needs its length over the cluster size, rounded up, and at least one |
| Fat16.WriteChain | tools/fat16_insert.py:117-125 | data, zero tail and links of the whole chain |
| Fat16.InsertFile | tools/fat16_insert.py:47-139 | the result shows the modelled insertion; in every table copy exactly the words of the old and new chain are written, with the first copy's values; no other byte changes; or it is the error the model predicts |
| Fat16.Guarantees | tools/fat16_insert.py:47-139 | read off the bytes: the volume is well-formed again, the file reads back, every other file is the same, copies that agreed still agree, and free clusters change by old chain minus new |
| Fat16.InsertTwice | tools/fat16_insert.py:47-139 | running the tool twice with the same arguments gives the same result as once, also when table copies disagree and when the first run refuses |
| AuditRing.DrainedIsPrefix | kernel/src/audit.rs:110-184 | under every interleaving the output is a prefix of the accepted encodings, occupancy never exceeds the buffer across counter wrap, and the dropped counter counts the rejected events |
| AuditRing.DrainedDecodes | kernel/src/audit.rs:110-184 | decoding a fully drained stream gives back the accepted records in order |
| AuditRing.DecodeStream | kernel/src/audit.rs:15-20 | records read back from their concatenated encodings |
| AuditRing.AuditBuffer.LogEvent | kernel/src/audit.rs:110-157 | a record is appended whole or counted as dropped |
| AuditRing.AuditBuffer.Drain | kernel/src/audit.rs:171-184 | the bytes copied out are the next bytes of the stream, as many as are there and fit |
| VaAlloc.SlotsPartition | kernel/src/loader/va_alloc.rs:41-94 | under every interleaving an issued slot is either owned or free, never both, and owned slots are within the 512 |
| VaAlloc.NeverIssuedTwice | kernel/src/loader/va_alloc.rs:56-79 | a slot handed out is one nobody owns, so undoing an overshoot re-issues nothing |
| VaAlloc.SlotsDisjoint | kernel/src/loader/va_alloc.rs:78-93 | different slots are disjoint ranges, and the base returned names its slot |
| Sha256.Process | kernel/src/sha256.rs:55-94 | the in-place update is the compression function of section 6.2.2 of FIPS 180-4 |
| Sha256.PadSplits | kernel/src/sha256.rs:29-46 | whole chunks followed by the padded rest are the padded message of section 5.1.1 of FIPS 180-4 |
| Sha256.BuildTail | kernel/src/sha256.rs:36-42 | the zeroed buffer ends up as the padded rest, one block or two |
| Sha256.Sum | kernel/src/sha256.rs:25-53 | for every message under 2^61 bytes the result is the hash the standard defines |
| MeasurementLog.Log.Measure | kernel/src/measurement_log.rs:55-80 | validity keeps the aggregate covering every digest measured, also past the 256th, while only the first 256 entries are kept |
| VirtIrq.PutBackConserves | kernel/src/hypervisor/registry.rs:222-236 | what the exit path puts back plus what the guest finished is what was loaded |
| VirtIrq.EnterGuest | kernel/src/hypervisor/registry.rs:192-236 | no interrupt is lost or duplicated by an entry, for any queue length |
| VirtIrq.VmRegistry.InjectIrq | kernel/src/hypervisor/registry.rs:390-401 | an injected interrupt is queued last |
| VirtIrq.VmRegistry.RunVcpu | kernel/src/hypervisor/registry.rs:182-236 | injected equals finished plus queued after any entry |
| VirtIrq.VmRegistry.CreateVm | kernel/src/hypervisor/registry.rs:93-104 | a new machine never takes the id of a live one of its owner |
| VirtIrq.VmRegistry.CreateVcpu | kernel/src/hypervisor/registry.rs:119-148 | a new virtual CPU of an existing machine starts with nothing injected, finished or queued |
| VirtIrq.VmRegistry.ReapVms | kernel/src/hypervisor/registry.rs:415-428 | the death of an owner removes all its machines and nobody else's, keeping ids dense |
| CellTable.WriteTable | tools/write-cell-table.py:65-113 | each error exactly under its own condition; every byte of the image outside the table and the data stays, even when a path is refused half-way; on success the image is the enlarged one with header, entries and data put on it |
| CellTable.SnapshotSpared | tools/write-cell-table.py:75-113 | every image keeps its snapshot partition if and only if the data ends in front of sector 560,000 |
| CellTable.Probe | kernel/src/loader/early.rs:41-96 | the loop returns the entries, or the error, that ReadsBack reasons about |
| CellTable.ReadFile | kernel/src/loader/early.rs:113-135 | the first entry with the path, read sector by sector and cut to its size, as ReadsBack reasons about |
| CellTable.EntryRoundTrip | tools/write-cell-table.py:29-39 | an entry sector reads back as what was packed |
| CellTable.ExtentsDisjoint | tools/write-cell-table.py:81-90 | data extents are pairwise disjoint and lie behind the entries |
| CellTable.ReadsBack | tools/write-cell-table.py:25-113 | probing and reading a path of a written disk returns exactly that cell's bytes |
| CellTable.WriteThenRead | tools/write-cell-table.py:65-113 | builder and loader together, over any image |

## Left out

- More than one hart: work stealing, inter-processor interrupts and the ready queues of other harts.
- Polling tasks and asynchronous file reads in `pick_next`.
- Event masks of WaitEvent beyond the network bit, so its result is 1 or 0.
- Audit records, quotas, capabilities, grants, leases, service registry and other resource cleanup on task death.
- Task names, registers and saved contexts of a spawned task; `HartStack` knows only whose stack is in use; priorities are bytes.
- SchedRuns.QueuesAreExact: the runs hold replies and thaws under the exact conditions of ReplyNeedsBlockedCaller and ThawNeedsNoWaiter, outside which they break the invariants.
- Recv after a wake by a death notice: the exit reason kept for the woken task is not written to its buffer when it resumes; a notice queued earlier is. Validation of user buffers.
- Hot swap: one swap at a time, of a cell that is not already frozen; a spawn failure thaws the cell only if it was not frozen in Wait (`ThawNeedsNoWaiter` gives the exact condition), and other tasks reply as in the runs above; Snapshot and Restore are ordinary sends by the kernel, and the Recv check and send of one drain turn are one step.
- Stage2.Stage2Table.Map: requires the byte length of the range to stay below 2^64, because the source multiplies before its overflow checks.
- Stage2.Stage2Table.Unmap: requires the range to stay below 2^64; beyond 2^40 the source clears the page with the same low 28 page bits, and so does the model.
- Stage2.NewTable: requires at least two frames, all below 2^48; on a smaller region the contiguous search counts frames past its end as free.
- Frames.FrameAllocator.constructor: takes the one region the source picks; the choice among memory map entries is not modelled.
- Frames.FrameAllocator.AllocateContiguous: a request larger than the bitmap while no frame at all is in use marks past the bitmap in the source and is excluded.
- TLB maintenance, cache maintenance and the frames of intermediate page-table levels of the kernel's own page table; whether one is available is a parameter.
- CellLoad.LoadCell: requires cell pages outside managed RAM.
- ELF header parsing, relocation and `load_base` arithmetic; segments arrive with their final addresses.
- The DOS 8.3 name conversion and the command line of the FAT16 tool; the eleven name bytes are an input that begins with neither 0x00 nor 0xE5.
- Fat16.InsertFile: requires a geometry whose areas lie inside the image in order; other geometries are not modelled.
- FAT16 files of 2^32 bytes or more, which the size field cannot hold.
- CellTable.ReadsBack: requires distinct, NUL-free paths, non-empty files and a disk below 2^64 bytes, because the loader takes the first match and rejects size zero.
- The VIFS1 fallback of `read_file`, and builder arguments whose file is missing.
- VirtIrq.EnterGuest: interrupts put back after an exit come out in reverse order, as in the source; no order is claimed.
- Sha256.Sum: messages of 2^61 bytes or more, whose bit length does not fit.
- Address-space randomisation, networking, file systems, device drivers, the shell and user cells.
