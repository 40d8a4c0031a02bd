# Verified models of the 5AM-OS kernel

5AM-OS is a small single-core x86_64 kernel. This project models the parts of it whose correctness is an argument
rather than a reading, and proves what those parts are for:

- **Scheduling** (`SchedPolicies`, `Scheduler`, `SchedRuns`, `SchedBounds`): the five policies behind one `choose`,
  quanta, accounting and the starvation watchdog, over every run of blocking, waking, exits, kills, slot reuse and
  policy changes.
- **Heap** (`HoleList`, `HoleLinks`, `Heap`, `HeapAllocator`): an address-sorted list of holes threaded through free
  memory, with two-way merging and alignment splitting.
- **Virtual memory** (`Frames`, `FrameTables`, `FrameBalance`, `BootFrames`, `Sharing`, `ShareTable`, `Spaces`,
  `PageWalk`, `PageLists`, `ForkTables`, `CopyOnWrite`, `Teardown`, `VirtualMemory`, `SpaceRuns`): the frame allocator
  and how it is filled, four-level page-table trees with pruning, copy-on-write fork with its share table, demand paging
  and teardown. The main result is a refinement: programs see exactly what they would see if fork copied every page.
- **Swapping** (`ClockSweep`, `Swapping`, `Pager`): the clock, swap slots, eviction and page-in of one address space.
- **FAT16** (`FatNames`, `FatVolume`, `FatChains`, `FatTrails`, `FatSteps`, `FatWrites`, `FatFiles`, `FatMount`) and
  **mkfs** (`Mkfs`): a disk as bytes, changed one sector at a time, with every intermediate state kept so that a crash
  at any point can be talked about.
- **Blocking** (`Blocking`, `Semaphore`, `LateSleepers`, `PipeRing`, `PipeProtocol`, `Descriptors`, `DescriptorKills`):
  semaphores, pipes and descriptor tables as interleavings of uninterruptible steps. A step is a region with interrupts
  off or a single access; a task marked blocked goes on running until a tick finds somebody else.
- **Signals** (`Signals`): frames pushed onto the user stack and put back, nested to any depth.

Code that works in place is a class whose methods are proved against specification functions; protocols are state
machines with a `Next` for every event and an invariant kept by every step. Ghost parameters (`chains`, `levels`, `g`)
are bookkeeping the code does not have; they say which frame, cluster or stack slot plays which part.

## What turned out not to hold

- The comment at `kernel/src/sched.rs:338-342` takes MAX_PRIORITY + 1 skips to outrank everybody. It does not:
  everybody else ages too. The exact bound is MAX_PRIORITY + MAX_TASKS - 1 = 22 (`AgingBound`, reached in
  `AgingBoundIsReached`).
- Creating a file keeps the volume in order at every step exactly when there is no old chain to free
  (`FatFiles.Volume.Create`): the old chain is freed before the directory entry moves, so a replaced file has a moment
  when its entry names a free cluster, against the comment at `kernel/src/fat.rs:308-310`. `ReplacingBreaks` does it to
  an image the tool builds. The other files read alike throughout.
- Freeing a chain that loops is not reported as "cluster chain loops" (`kernel/src/fat.rs:416-418`): the walk comes back
  to a cluster it has freed itself and ends well (`FatFiles.Volume.FreeChain`).
- A stored file is found under its name exactly when the name is plain ASCII without spaces, does not end in a dot and
  does not start with a zero byte (`FoundWhenStorable`).
- `wait` can return to a task still marked asleep (`LateSleeperIsMarked`): exactly when the task last marked itself
  after its wake-up time had passed and neither a tick nor a signal to it has come since (`MarkedExactlyWhenLate`). It
  is never marked as waiting for the semaphore (`Semaphore.WaitReturnsUnmarked`).
- A signal that enters a handler on the way out of a system call makes the program lose the result of the call: the
  program gets it exactly when no handler is entered or RAX, the number of the call, already was the result
  (`Signals.Task.CallInterrupted`, `ResultIsLost`, and `ReadResultIsLost` for a `read` of five bytes).
- A fork needs a frame for the root and for every table on the way to a page of the parent; with fewer it fails and the
  half-built child stays, a space nobody will destroy (`VirtualMemory.Kernel.Fork`). A demand fault whose page cannot be
  mapped keeps the frame it took in hand, off the free list (`VirtualMemory.Kernel.DemandFault`).
- A task killed by the scheduler leaves its pipe ends counted for good (`KilledEndsStay`). With no end on its way, a
  pipe's count is the number of table entries naming it exactly when no such end was lost to a kill
  (`CountsPartByKills`).

## Model

| member | source | states |
|---|---|---|
| SchedPolicies.WinnerExists | kernel/src/sched.rs:315-331 | whenever somebody is ready, some ready task has the lowest score and, among those, comes first after the current one |
| SchedPolicies.WinnerIsUnique | kernel/src/sched.rs:315-331 | that task is unique, so the scan order decides every tie |
| Scheduler.Kernel.PickRr | kernel/src/sched.rs:193-202 | round robin takes the first ready task after the current one, and none exactly when none is ready |
| Scheduler.Kernel.PickFifo | kernel/src/sched.rs:251-260 | the current task while it is ready, otherwise the ready task that arrived first, lowest slot on a tie |
| Scheduler.Kernel.PickAging | kernel/src/sched.rs:373-405 | picks the best priority less waiting time, resets the winner's waiting time and adds one to every other ready task's, saturating |
| Scheduler.Kernel.PickMlfq | kernel/src/sched.rs:501-526 | boosts every level when the boost is due, then picks the first task on the best level |
| Scheduler.Kernel.CountAll | kernel/src/sched.rs:699-748 | the waiting counts the watchdog reads: zero for who runs or is not ready, one more for everybody else |
| Scheduler.Kernel.WorstWait | kernel/src/sched.rs:991-1002 | the task passed over longest, the lowest slot on a tie, and for how long |
| Scheduler.Kernel.Guard | kernel/src/sched.rs:909-957 | files a report and falls back to aging exactly when somebody has been passed over for 100 ticks and the watchdog is on |
| Scheduler.Kernel.InstallPolicy | kernel/src/sched.rs:1024-1043 | installing resets the policy and tells it of every ready task, in slot order |
| Scheduler.Kernel.ChooseNext | kernel/src/sched.rs:635-673 | a whole decision: the quantum, the policy, the coasting when nobody is ready, the accounting and the watchdog |
| SchedRuns.StepKeepsInv | kernel/src/sched.rs:635-673 | every tick, kill, wake, block, exit, creation, reaping and policy change keeps the layers of waiting times |
| SchedRuns.SafetyOfEveryRun | kernel/src/sched.rs:373-421 | over every run from boot: under aging at most 7 - m slots have waited above 16 m, so none above 112 and the 16-bit saturation is never reached; nobody is unpicked for more than 22 ticks; no report ever blames aging; feedback levels stay below four |
| SchedBounds.AgingBound | kernel/src/sched.rs:373-405 | under aging a task that stays ready is passed over at most 22 times in a row whatever the others do |
| SchedBounds.AgingBoundIsReached | kernel/src/sched.rs:338-342 | 22 is exact: seven tasks of priority 0 keep one of priority 15 waiting that long, so the commented bound of 16 is false |
| SchedBounds.RrBound | kernel/src/sched.rs:193-202 | round robin passes a ready task over at most seven times |
| SchedBounds.MlfqBound | kernel/src/sched.rs:501-541 | under the feedback queue a ready task waits at most 52 ticks, newcomers and early blockers notwithstanding |
| HoleList.CanonicalIsUnique | kernel/src/heap.rs:82-119 | a sorted, disjoint, never adjacent list of holes is determined by the bytes it covers |
| HoleList.MergedIsCanonical | kernel/src/heap.rs:82-119 | inserting a region and merging both ways leaves such a list |
| HoleList.MergedCovers | kernel/src/heap.rs:82-119 | it covers the old bytes and the region's, and no others |
| Heap.AllocKeepsInv | kernel/src/heap.rs:205-220 | after an allocation every byte of the heap is still in exactly one hole or one live block |
| Heap.ReleaseKeepsInv | kernel/src/heap.rs:222-230 | the same after a release |
| Heap.EveryRunKeepsInv | kernel/src/heap.rs:205-245 | over every sequence of allocations and releases; and whenever nothing is live the heap is exactly what it started as |
| Heap.AllFreedIsWhole | kernel/src/heap.rs:82-119 | with nothing live the list is the single initial hole |
| HeapAllocator.Adjust | kernel/src/heap.rs:235-241 | the adjusted request can hold a hole's header, is a multiple of eight and covers what was asked |
| HeapAllocator.Allocator.AddRegion | kernel/src/heap.rs:82-119 | relinking the headers adds exactly the region's bytes and keeps the list canonical |
| HeapAllocator.Allocator.TakeRegion | kernel/src/heap.rs:122-153 | the first hole that fits is split; exactly the block's bytes leave the list; nothing fits exactly when it says so |
| HeapAllocator.Allocator.Allocate | kernel/src/heap.rs:205-220 | an aligned block disjoint from every live one, or nothing when no hole fits |
| HeapAllocator.Allocator.Deallocate | kernel/src/heap.rs:222-230 | the block's bytes come back and the accounting follows |
| VirtualMemory.Kernel.Init | kernel/src/memory.rs:111-144 | the free list is every whole usable frame past the first megabyte, once and in order; nothing is mapped and the space the machine runs in has no user half |
| VirtualMemory.Kernel.Allocate | kernel/src/memory.rs:77-87 | pops the frame freed last, fails exactly when the list is empty, and moves no other frame |
| VirtualMemory.Kernel.Deallocate | kernel/src/memory.rs:93-99 | threads the frame in front of the free list and touches no other frame |
| VirtualMemory.Kernel.WalkCreating | kernel/src/memory.rs:191-230 | creates exactly the missing tables on the path, blank ones, and fails exactly when too few frames are left |
| VirtualMemory.Kernel.MapPageIn | kernel/src/memory.rs:191-254 | maps the page, refuses exactly an existing mapping, and says out of memory exactly when the missing tables outnumber the free frames |
| PageWalk.MapChangesOnePage | kernel/src/memory.rs:191-254 | what resolves changes at that page and nowhere else, and with three free frames mapping an unmapped page cannot fail |
| VirtualMemory.Kernel.TranslateIn | kernel/src/memory.rs:265-287 | the four-level walk reads the finite map from pages to entries |
| VirtualMemory.Kernel.UnmapPage | kernel/src/memory.rs:304-360 | removes that one page from the map, gives up only emptied tables on its path and every one of them, and free frames plus tables are constant |
| VirtualMemory.Kernel.TableIsEmpty | kernel/src/memory.rs:363-371 | true exactly when no entry is present |
| VirtualMemory.Kernel.NewSpace | kernel/src/memory.rs:576-592 | a fresh root with an empty user half and the active kernel half; nobody sees a difference |
| VirtualMemory.Kernel.UserPages | kernel/src/memory.rs:790-823 | lists every user page of a space exactly once, with its entry and table |
| ShareTable.Share | kernel/src/memory.rs:757-765 | one owner more for the frame, two if it was not in the table; no other count changes |
| ShareTable.Unshare | kernel/src/memory.rs:768-779 | one owner fewer, and out of the table at one; no other count changes |
| ShareTable.ShareCount | kernel/src/memory.rs:781-787 | the count in the table, one if the frame is not there |
| Sharing.AddShared | kernel/src/memory.rs:846-876 | after one more entry names a mapped frame the table still counts exactly the entries naming each frame |
| Sharing.DropShared | kernel/src/memory.rs:668-700 | after a shared frame loses an entry the table still counts exactly the rest |
| VirtualMemory.Kernel.ForkPage | kernel/src/memory.rs:846-876 | the child sees what the parent sees on that page, nobody else sees anything, and nothing writable is shared |
| VirtualMemory.Kernel.Fork | kernel/src/memory.rs:846-876 | succeeds exactly when there is a frame for the root and for every table on the way to a page of the parent; then the child sees what an eager copy would show it; otherwise a half-built child stays, sharing a prefix of the pages, and everybody sees what they saw |
| ForkTables.ForkNeeds | kernel/src/memory.rs:846-876 | the tables the child needs are as many as the tables on the way to the pages of the parent |
| ForkTables.MapGrows | kernel/src/memory.rs:191-254 | a mapping makes exactly the tables missing on its path, one frame each |
| VirtualMemory.Kernel.CowFault | kernel/src/memory.rs:884-946 | succeeds exactly on a mapped copy-on-write page, makes it private and writable, copying only a frame others share, and changes nothing anybody sees |
| CopyOnWrite.MoveToFresh | kernel/src/memory.rs:884-946 | moving one owner to a frame of its own keeps the counts exact and everything writable unshared |
| VirtualMemory.Kernel.UserWrite | kernel/src/memory.rs:884-946 | a store goes through exactly where the program may write, and is seen by that page alone |
| VirtualMemory.Kernel.DemandFault | kernel/src/memory.rs:962-988 | backs an unmapped page with zeros; fails exactly when it is mapped or the tables it lacks and the page outnumber the free frames, and then the frame taken is one more in hand |
| VirtualMemory.Kernel.FreeSubtree | kernel/src/memory.rs:668-700 | everything under the table is gone, shared pages lose one owner, every other frame is as it was, and the count returned is the frames given back |
| VirtualMemory.Kernel.Destroy | kernel/src/memory.rs:638-650 | the space is gone, every other space sees what it saw, and the free list grows by the count returned |
| FrameBalance.FramesAddUp | kernel/src/memory.rs:75-104 | free frames, tables, data frames and frames in hand add up to all frames; data frames are the mapped ones |
| FrameBalance.NoSpacesNoFramesInUse | kernel/src/memory.rs:638-700 | once no space is left every frame not in hand is on the free list exactly once |
| SpaceRuns.ReadOnlyForever | kernel/src/memory.rs:846-876 | a page that may not be written keeps its bytes and stays read-only as long as its space lives |
| SpaceRuns.Run | kernel/src/memory.rs:846-946 | any sequence of forks, stores, demand faults and teardowns on any number of spaces follows a run of the machine that copies eagerly, until frames run out; all spaces destroyed in any order, every frame is back once |
| SpaceRuns.BootAndRun | kernel/src/memory.rs:111-144 | the same from the machine as the firmware describes it: an eager run from nothing mapped, and with all spaces gone every usable frame and the root back on the free list once |
| ClockSweep.OneVictim | kernel/src/replace.rs:112-131 | first eligible unaccessed page in cyclic order, or first eligible if all were accessed: the description determines the page |
| Pager.Pager.Choose | kernel/src/replace.rs:112-131 | finds that page in two laps, none exactly when nothing is eligible, clears the accessed bits of exactly the eligible pages passed, and moves the hand behind the victim |
| Swapping.SlotsApart | kernel/src/swap.rs:73-75 | sector ranges of slots overlap neither each other nor the volume, and fit on the disk |
| Swapping.SlotMap.AllocateSlot | kernel/src/swap.rs:50-62 | the lowest free slot is marked, and none exactly when all are used |
| Swapping.SlotMap.FreeSlot | kernel/src/swap.rs:64-71 | clears that slot's bit and no other |
| Swapping.EvictUnseen | kernel/src/memory.rs:1127-1164 | a page read from its slot is the page that was in its frame, and no other page has changed |
| Swapping.BringUnseen | kernel/src/memory.rs:1182-1219 | a page brought back has the contents and flags it went out with, and no other page has changed |
| Swapping.VictimFrameIsFree | kernel/src/memory.rs:1127-1143 | the frame of an eligible victim is used by no other page of the space |
| Pager.Pager.EvictOne | kernel/src/memory.rs:1127-1164 | acts exactly when some resident page is unshared and some slot is free; then the clock's choice is in a slot that was free and its frame is nobody's; nothing the program sees and not a byte of the volume changes |
| Pager.Pager.AllocateOrEvict | kernel/src/memory.rs:1170-1176 | the frame freed last, or else an evicted one; none exactly when the list is empty and nothing can be evicted |
| Pager.Pager.SwapIn | kernel/src/memory.rs:1182-1219 | acts exactly when the page is out and a frame can be had; then it is resident, its slot is free, and without a free frame exactly one unshared page has gone out; invisible to the program |
| Pager.Run | kernel/src/memory.rs:1127-1219 | over any sequence of evictions and page-ins each operation happens exactly when it can and does exactly that, while contents and flags of every page and the whole volume stay as they were |
| FatNames.NameRoundTrip | kernel/src/fat.rs:275-292 | a name comes back from its eleven bytes, case aside, exactly when it is plain ASCII without spaces and not ending in a dot |
| FatMount.Mount | kernel/src/fat.rs:95-158 | accepts exactly the boot sectors describing a FAT16 volume (4085 to 65524 clusters) and derives the one layout they describe |
| FatVolume.FatWritten | kernel/src/fat.rs:325-336 | writing one table entry changes that entry of the volume and nothing else |
| FatVolume.CopyWritten | kernel/src/fat.rs:325-336 | the other copies of the table are not part of what is read |
| FatFiles.Volume.SetFatEntry | kernel/src/fat.rs:325-336 | one entry changes, in every copy, the one that is read first, so every intermediate state already reads as the final one; equal copies stay equal |
| FatFiles.Volume.NextCluster | kernel/src/fat.rs:171-179 | the entry in the first copy |
| FatFiles.Volume.FindFreeCluster | kernel/src/fat.rs:342-349 | the first free cluster from there on, none exactly when there is none |
| FatFiles.Volume.CountFreeClusters | kernel/src/fat.rs:402-410 | the number of free clusters |
| FatFiles.Volume.Reserve | kernel/src/fat.rs:356-371 | claims the lowest free clusters, fails exactly when there are too few, and at no step touches a cluster in use |
| FatFiles.Volume.WriteChain | kernel/src/fat.rs:356-398 | a chain of formerly free clusters holding the data; at every step only free clusters have changed; fails exactly when the volume is too full |
| FatFiles.Volume.FreeChain | kernel/src/fat.rs:412-425 | frees exactly the clusters met from the first one on, on good and on damaged chains; a chain that loops is freed and never reported |
| FatSteps.TourExists | kernel/src/fat.rs:412-425 | a table whose entries stay inside it leads from any cluster along such clusters, to an end or back to one of them |
| FatFiles.Volume.List | kernel/src/fat.rs:182-221 | the ordinary entries before the first never-used slot, in order |
| FatFiles.Volume.Find | kernel/src/fat.rs:223-228 | the first entry of that name, case aside |
| FatFiles.Volume.ReadFile | kernel/src/fat.rs:231-271 | for an entry with a proper chain exactly the bytes of its clusters up to its size; for any entry the bytes along the table from its first cluster, or the exact reason it stops short: off the volume, ended, or as many clusters as there are |
| FatFiles.Volume.DirectorySlot | kernel/src/fat.rs:428-475 | the name's own slot, or else the first deleted or unused one; full exactly when there is neither |
| FatChains.PositionIs | kernel/src/fat.rs:223-228 | in an orderly directory a name is found where it is |
| FatChains.FreeChangesUnseen | kernel/src/fat.rs:300-310 | changing clusters that were free leaves the volume in order and every name with its contents |
| FatChains.SlotRewritten | kernel/src/fat.rs:506-518 | rewriting one entry gives that name its new contents, keeps every other name's, and keeps chains disjoint |
| FatChains.DanglingEntry | kernel/src/fat.rs:498-502 | an entry naming a free cluster is never part of a volume in order |
| FatWrites.FoundWhenStorable | kernel/src/fat.rs:478-521 | a stored entry is found under its name exactly when the name is storable |
| FatWrites.CreationAddsUp | kernel/src/fat.rs:478-521 | new chain, old chain freed and entry rewritten add up to the created file, whose size never overflows 32 bits; free clusters change by old chain length minus new |
| FatWrites.CreatedIsStored | kernel/src/fat.rs:478-521 | after a successful create the name has exactly the data and every other name what it had |
| FatWrites.UnseenIsSafe | kernel/src/fat.rs:300-310 | in every state of such a trail all files read as before and chains stay disjoint |
| FatWrites.OthersAllAlong | kernel/src/fat.rs:478-521 | in every state of a create, replacing or not, the other files have their entries, chains and contents |
| FatFiles.Volume.Create | kernel/src/fat.rs:478-521 | which error or success is determined; a failure leaves every name as it was at every step; the other files read alike at every step; every state is in order exactly when no old chain is freed, and then the file is as it was until the last write and complete after it |
| FatFiles.Volume.Remove | kernel/src/fat.rs:528-543 | after the first write, and at every step from there, the name is gone, all others are as they were and the volume is in order; the chain is given back |
| FatFiles.Volume.CreateAndRead | kernel/src/fat.rs:223-271 | create, find and read_file return exactly the data |
| Mkfs.RunGathered | mkfs/src/main.rs:127-131 | clusters laid out one after the other read back as one stretch of the image |
| Mkfs.FileAdded | mkfs/src/main.rs:104-145 | adding a file keeps the volume in order, with all files so far at their contents |
| Mkfs.WriteBootSector | mkfs/src/main.rs:161-197 | the fields the kernel looks at describe the layout; the rest of the image is untouched |
| Mkfs.WriteTables | mkfs/src/main.rs:147-154 | both copies of the table, entry by entry |
| Mkfs.Build | mkfs/src/main.rs:82-159 | builds an image exactly for the lists the tool accepts; it is bootable for the kernel, its tables are equal, and distinct good names have their contents |
| Mkfs.BuildAndRead | mkfs/src/main.rs:82-224 | the kernel mounts the image and reads back each file's exact bytes |
| Mkfs.ReplacingBreaks | kernel/src/fat.rs:498-518 | replacing the one file of a built image succeeds and passes through a state that is not in order |
| Blocking.TaskTable.WakeAll | kernel/src/task.rs:741-750 | exactly the tasks waiting on the channel become ready, and the count is how many |
| Blocking.TaskTable.WakeSleepers | kernel/src/task.rs:478-491 | exactly the sleepers whose time has come become ready |
| Semaphore.StepKeepsInv | kernel/src/sync.rs:287-330 | every step of every task, tick, signal and coasting keeps permits conserved and wakes owed |
| Semaphore.EveryRunIsSafe | kernel/src/sync.rs:287-330 | over every interleaving: count plus tasks inside is the number of permits, and a task waits on a positive count only while a signaller's wake is ahead |
| Semaphore.WaitReturnsUnmarked | kernel/src/task.rs:701-733 | a task that gets through is not marked waiting, and any stale sleep mark is off at the next tick |
| Semaphore.LateSleeperIsMarked | kernel/src/task.rs:757-766 | a run in which wait returns to a task marked asleep |
| LateSleepers.MarkedExactlyWhenLate | kernel/src/task.rs:757-766 | over every run a task that gets through its wait is marked asleep exactly when it last marked itself late and no tick and no signal to it has come since; otherwise it is ready |
| Semaphore.NoDeadlock | kernel/src/task.rs:701-750 | a waiter always has somebody inside or about to wake it who is not waiting |
| Semaphore.CounterIsExact | kernel/src/task.rs:813-831 | with one permit the counter ends at workers times rounds under every interleaving |
| PipeRing.Ring.TryRead | kernel/src/pipe.rs:130-143 | takes the oldest bytes; blocks exactly when empty with a writer left |
| PipeRing.Ring.TryWrite | kernel/src/pipe.rs:172-191 | appends as much as there is room for; nothing when no reader is left |
| PipeProtocol.StepKeepsInv | kernel/src/pipe.rs:79-215 | every step of readers, writers, closers and wakers keeps order, bounds, counts and wakes owed |
| PipeProtocol.EveryRunIsSafe | kernel/src/pipe.rs:128-215 | over every interleaving delivered bytes followed by the ring are the accepted bytes in order, and a reader waits on data or a writer on room only while a wake has not passed its slot |
| PipeProtocol.EndIsForever | kernel/src/pipe.rs:115-124 | after the last write end is closed nothing more is accepted |
| PipeProtocol.ZeroMeansEnd | kernel/src/pipe.rs:128-164 | a read that wanted something and got nothing means no writer is left, all is delivered and nothing will follow |
| PipeProtocol.WaitReturnsUnmarked | kernel/src/task.rs:701-733 | a successful test leaves the task not marked waiting on the pipe |
| PipeProtocol.NeverBothStuck | kernel/src/pipe.rs:128-215 | a waiting reader and a waiting writer: one of them has a wake on its way |
| Descriptors.StepKeepsInv | kernel/src/task.rs:1043-1128 | every step of pipe, close, dup2, fork, spawn, exit, reap and kill keeps each pipe's counts equal to its ends |
| Descriptors.EveryRunCounts | kernel/src/task.rs:994-1013 | so they are equal in every state of every run |
| Descriptors.DropFollows | kernel/src/pipe.rs:101-124 | a close finds the count above zero, so the saturating subtraction never saturates |
| Descriptors.ReuseIsSafe | kernel/src/pipe.rs:79-89 | a slot that may be handed out is named by no descriptor |
| Descriptors.NothingLeaks | kernel/src/task.rs:1105-1128 | without kills an exiting task leaves no end behind |
| Descriptors.CountsAreEntries | kernel/src/syscall.rs:532-563 | without kills, whenever no end is on its way, counts are the entries in all tables |
| DescriptorKills.KilledEndsStay | kernel/src/task.rs:538-543 | in every state after a task holding an end of either kind is killed, the pipe is in use and the count of that end above zero |
| DescriptorKills.CountsPartByKills | kernel/src/task.rs:538-543 | with no end on its way, a count is the entries in all tables exactly when no task was killed with that end on its way, or with it in its table and reaped since |
| Signals.Task.Deliver | kernel/src/signal.rs:74-123 | lowest pending signal; deferred in kernel mode; kill exactly without handler or restorer or for SIGKILL; otherwise frame pushed and handler entered |
| Signals.Task.Restore | kernel/src/signal.rs:134-139 | all twenty words come from where the stack pointer points |
| Signals.PushedIs | kernel/src/signal.rs:101-113 | the frame is on the stack, the return address below it, and no other word has changed |
| Signals.HandlerIsCalled | kernel/src/signal.rs:101-120 | a handler starts with RSP 8 past a multiple of 16, the signal in RDI and the restorer's address on top |
| Signals.FramesDoNotOverlap | kernel/src/signal.rs:101-107 | over every run saved frames overlap neither each other nor the stack they interrupted |
| Signals.ReturnsUndoDeliveries | kernel/src/signal.rs:125-139 | at any nesting depth a return restores all twenty words of the frame its delivery interrupted |
| Signals.Task.FinishCall | kernel/src/syscall.rs:120-137 | on the way out of a call a pending signal is delivered on the frame without the result, which then goes into the frame that resumes |
| Signals.Task.Sigreturn | kernel/src/syscall.rs:217-220 | the frame on the stack comes back word for word, and a signal delivered right then saves exactly that frame |
| Signals.Task.CallInterrupted | kernel/src/syscall.rs:120-137 | after the handler has returned the program has the result of its call exactly when no handler was entered or RAX already was the result; all other words are as they were |
| Signals.ResultIsLost | kernel/src/syscall.rs:120-137 | over every run and at any depth such a call gives back what RAX held on the way in |
| Signals.ReadResultIsLost | kernel/src/syscall.rs:120-137 | a run in which a read of five bytes returns 7 |

## Left out

- SpaceRuns.Run: stops when no frame is left; evicting a page to make room is modelled apart, in `Pager`, on one space.
- VirtualMemory.Kernel.CowFault: requires a free frame for a page others share; the share is dropped before the frame is found, and what eviction could do in between is not modelled.
- VirtualMemory.Kernel.UserWrite: requires a free frame for a page others share, as its fault does.
- VirtualMemory.Kernel.DemandFault: the test that the address lies in the stack region is the caller's here.
- VirtualMemory.Kernel.UnmapPage: does not consult the share table, as in the source; it is stated for the table tree alone.
- VirtualMemory.Kernel.MapPageIn: pages of the user half (slot 0 of the root) only; the user bit that upper levels gain is written but not tracked, and entries are records of bit fields rather than 64-bit integers.
- VirtualMemory.Kernel.TranslateIn: pages of the user half only, and no huge pages, which the user half never has.
- VirtualMemory.Kernel.Init: the boot loader's root is taken to have an empty user half.
- Swapped-out pages during fork and teardown, the kernel half of the tables beyond being copied, TLB invalidation, and 32-bit overflow of a share count.
- Pager.Pager.SwapIn: disk errors are not modelled, and the walk to the entry is a lookup in the space's entries.
- The replacement policies other than the clock: one scan each.
- FatFiles.Volume.Create: requires a volume in order with a table large enough for its clusters, which mounting does not check; disk errors are not modelled; a name that is not storable is stored but nothing is claimed about finding names afterwards.
- FatFiles.Volume.FreeChain: a chain that leads past the table is excluded; the source follows it there.
- Subdirectories and volume labels: skipped as the source skips them, their chains not followed.
- Mkfs.Build: reading files from the host and printing.
- Semaphore.EveryRunIsSafe: the count is unbounded and time does not wrap.
- PipeProtocol.EveryRunIsSafe: one pipe, from creation until both counts are zero; a signal that kills a task inside the pipe code is not a step.
- Descriptors.EveryRunCounts: which of the tasks runs is left open; waking blocked readers and writers is in `PipeProtocol`.
- Signals.Task.Deliver: requires room on the user stack; a stack pointer below 176 wraps around in the source, and the red zone below the stack pointer is not protected.
- Signals.Task.Restore: memory is words, so the stack pointer must be a multiple of eight, as a delivery leaves it.
- Scheduler.Kernel.ChooseNext: the per-tick trace and the counters only the shell prints.
- Waiting for any child, the ELF loader, drivers, interrupt and segment tables, second cores, the shell, benchmarks and the language model.
