# LiNos, modelled in Dafny

LiNos is a teaching kernel derived from ucore.  This project models the algorithmic cores of the kernel and of
its image builder and proves what they are for.  `dafny verify dfyconfig.toml` checks everything.

What is modelled, by group of files:

- **Synchronisation** (`Semaphores`, `SemaphoreObject`, `Monitor`, `Dining`, `PhilosophersCondvar`,
  `PhilosophersSema`, `CondvarProgress`, `SemaProgress`, `SyncInit`).  Semaphores that hand a permit straight to the
  first waiter, the Hoare monitor built on them, and both versions of the dining philosophers, as state machines with
  a program counter per process.  One step is one semaphore operation, because the kernel switches only inside
  `schedule()`.  The number of processes and of philosophers is arbitrary.
- **Buddy pages** (`Bits`, `BuddyArithmetic`, `BuddyTree`, `BuddySteps`, `BuddyViews`, `BuddyInit`,
  `BuddyAllocator`, `Lists`).  The implicit tree in an array, its bit macros, the free list and the count.  The
  ghost field `status` says which nodes are live; words below a wholly free or handed-out block are stale and
  nothing is claimed of them.
- **Stride scheduling** (`SkewHeap`, `SkewHeapCost`, `Stride`, `StrideScheduler`).  The pointer-based skew heap and
  the cost of its merges, strides that wrap around at 32 bits, and the scheduler with processes that join, run, sleep
  and leave.
- **First fit and best fit** (`FreeLists`, `FreeArea`).  One class holds both choices, because the two allocators
  share the same list and the same freeing pass.
- **SLOB** (`SlobRing`, `Slob`).  The free ring in memory, allocation and freeing of small objects.
- **SFS and mksfs** (`Bitmap`, `SfsLayout`, `SfsSteps`, `SfsGrow`, `SfsShrink`, `SfsFiles`, `SfsBytes`, `Sfs`,
  `SfsFacts`, `Mksfs`, `MksfsImage`, `MksfsClose`, `MksfsMount`, `MksfsFacts`).  Block ownership, the block map,
  unaligned file I/O and truncation over an array of blocks of bytes, the builder that writes the same layout, and
  the mount that reads it back.
- **Processes, timers, address spaces** (`Pids`, `ProcLinks`, `Processes`, `ProcTable`, `Timers`, `Vmas`).  The
  numbering of processes, the family pointers under fork, exit and wait, the delta list of timers, and the sorted
  list of memory areas.

`Options` holds the one type for values that may be missing, `Machine` the width of a word.

Where the code falls short of what one would expect, the model follows the code:

- A growth by `sfs_truncfile` that runs out of space keeps the blocks it got but not the size.  Truncating the
  file to its own size then fails an assertion; `Sfs.Volume.Truncfile` and `SfsFacts.GrowthThenTruncation` say
  exactly when, `SfsFacts.FailedGrowthExample` is an instance.
- Every open file has its own position, and opening a file with O_TRUNC cuts it for all of them.  A write at a
  position that lies behind the block after the last then panics (`Sfs.Volume.Write`, `SfsFacts.WriteBehindCut`,
  with an instance in `SfsFacts.CutWhileOpenExample`).  Nearer to the end it succeeds, and the bytes that had been
  cut from a remaining block are back (`SfsFacts.StaleBytesExample`).
- Such a write on a full disk writes nothing, but still moves the size behind the last block; `Sfs.Volume.Write`
  says exactly when.  A read that comes to the missing block takes one from the disk, or fails if there is none
  (`Sfs.Volume.Read`).  `SfsFacts.StrandedExample` is an instance of all this.  Every operation covers such files:
  what all of them keep is that the bytes of a file lie in its blocks or in the block after the last.
- A write or growth beyond 12 + 1024 blocks panics instead of being refused, unless the disk is full before
  (`Sfs.Volume.Write`, `Sfs.Volume.Truncfile`, with an instance in `MksfsFacts.OvergrowthExample`).
- A free ring of `kmalloc` that consists of one block keeps that block when it is handed out whole
  (`SlobRing.TookExactly`, for every ring and size).  `kmalloc(0)` on the initial ring is such a case
  (`Slob.ZeroBytes`).  In general `kmalloc(0)` is given the arena block exactly if that comes next in the ring, and
  sizes from 4080 to 4087 fail the assertion in `slob_alloc` (`Slob.Heap.Kmalloc`).
- The results about the heap assume that no page given to the heap touches the arena block, which lies in the kernel's data
  segment (`Slob.Isolated`).
- `mm_map` looks only at the first address of the range; a range that runs into a later area makes
  `insert_vma_struct` panic (`Vmas.Mm.Map`, with an instance in `Vmas.MapIntoNext`).
- The 32-bit comparison of strides is right for differences from -BIG_STRIDE - 1 to BIG_STRIDE
  (`Stride.CompWithinTurn`; for all differences `Stride.CompExact`).  A process that arrives with a stride for which
  there is no place within the bound makes the comparison no order at all (`Stride.JoinableExactly`).  An ordinary
  fork meets this, because it starts with stride 0: it has no place once two default processes have run three
  times (`Stride.ForkWithoutPlace`).  `Stride.JoinableByEnds` computes from three strides whether there is a place.
- A process with a priority above BIG_STRIDE runs for free and starves all that are behind it
  (`Stride.BehindFreeRider`, `Stride.FreeRiderStarves`).
- Stretches of memory that touch are not merged when they are added to the page allocators
  (`FreeArea.Area.InitMemmap`, with an instance in `FreeArea.TouchingStretches`).  If they were added downwards,
  freeing a page below them can fail an assertion (`FreeArea.Area.FreePages` says exactly when,
  `FreeArea.ObstructedExample` is an instance); on a sorted list it cannot (`FreeLists.SortedNeverObstructed`).
- mksfs writes files of more than 12 + 1024 blocks.  The kernel mounts them and panics when it reads beyond that
  (`Sfs.Volume.Read`, with an instance in `MksfsFacts.LongFileExample`).

## Model

| member | source | states |
|---|---|---|
| `Semaphores.UpKeeps` | kern/sync/sem.c:16-30 | `up` keeps every semaphore either without waiters or without value, keeps queues and process states in step, and wakes only the first waiter |
| `Semaphores.DownBeginKeeps` | kern/sync/sem.c:32-42 | the first half of `down`, up to the switch, keeps the same invariant; it takes a permit if there is one, otherwise the process sleeps as the last in the queue |
| `Semaphores.DownEndKeeps` | kern/sync/sem.c:46-54 | a process resumed inside `down` was handed a permit: its wakeup flags are WT_KSEM and it is on no queue |
| `Semaphores.EnvironmentKeeps` | kern/process/proc.c:935-959 | kill, timed sleep and timer expiry never wake a process out of a semaphore; they change their own process only, marked by a kill, stopped by a sleep, runnable again after a timer or, if its wait can be interrupted, a kill |
| `Semaphores.StepKeepsValid` | kern/sync/sem.c:16-65 | every atomic step keeps the semaphore invariant |
| `Semaphores.PermitsConserved` | kern/sync/sem.c:16-65 | over every run the permits of a semaphore (its value plus the wakeups handed off but not yet consumed) change exactly by ups minus completed downs |
| `Semaphores.AssertionsNeverFail` | kern/sync/sem.c:25-65 | in every reachable state the assertions in `up` and `down` hold and no semaphore has a positive value together with a waiter |
| `Semaphores.OneAtATime` | kern/sync/wait.c:19-24 | an event puts to sleep at most the caller of `down`, exactly if it finds no permit, and hands a permit to at most one sleeper, exactly on an `up` that finds one |
| `Semaphores.FirstComeFirstServed` | kern/sync/wait.c:19-59 | over every run: those asleep at its start followed by those who went to sleep, in order, are those who were handed a permit, in order, followed by those asleep at its end |
| `Semaphores.WokenInTurn` | kern/sync/sem.c:21-45 | if a process goes to sleep in `down`, the later calls of `up` hand permits to those who went to sleep before it and are still asleep, in that order, and the next one to it |
| `SemaphoreObject.Kernel.Wakeup` | kern/schedule/sched.c:60-78 | a sleeper becomes runnable and waits for nothing, every other process and every semaphore stays as it is; unless it slept on a semaphore the invariant and all permits survive |
| `SemaphoreObject.Kernel.Up` | kern/sync/sem.c:16-30 | in a kernel with any number of semaphores the in-place `up` refines the modelled step, changes no other semaphore and keeps the invariant of all of them |
| `SemaphoreObject.Kernel.DownBegin` | kern/sync/sem.c:32-42 | the same for the in-place first half of `down`, which reports whether it took a permit; if not, its caller alone has gone to sleep, at the tail of the queue |
| `SemaphoreObject.Kernel.DownEnd` | kern/sync/sem.c:46-54 | the same for the second half, whose assertion that the wakeup flags are WT_KSEM holds |
| `SemaphoreObject.Kernel.TryDown` | kern/sync/sem.c:67-76 | takes a permit exactly if the value is positive, never blocks, and changes no process and no other semaphore |
| `SemaphoreObject.Kernel.Kill` | kern/process/proc.c:948-955 | the in-place kill refines the modelled step and keeps the invariant: nobody is woken out of a semaphore |
| `Monitor.StepMovesToken` | kern/sync/monitor.c:27-71 | each step of any process keeps the monitor invariant and moves the single token as the step says: kept, stored in a semaphore, handed to a waiter, or taken |
| `Monitor.OneTokenAlways` | kern/sync/monitor.c:27-71 | in every interleaving the permits of mutex, next and all condition variables plus handed-off wakeups plus active processes total exactly 1, so at most one process is active |
| `Monitor.SemaphoresSound` | kern/sync/sem.c:16-65 | along every run of the monitor no semaphore has both value and waiter, values stay 0 or 1, and the assertion in `down` never fails |
| `Monitor.NeverStuck` | kern/sync/monitor.c:27-71 | in every reachable state the monitor is free with nobody parked, or some process can move the token on |
| `Monitor.SignallersFirst` | kern/sync/monitor.c:64-67 | whoever gets in through the mutex does so only when no signaller is parked on next |
| `Monitor.SignalPassesMonitorToWaiter` | kern/sync/monitor.c:40-45 | the next process active after a signal is one that was waiting on that very condition variable |
| `Monitor.RunProjects` | kern/sync/monitor.c:27-71 | every run of the monitor is a run of its semaphores, so the results on all semaphore runs hold of it |
| `Monitor.WaitersInOrder` | kern/sync/monitor.c:27-71 | whoever sleeps on mutex, next or a condition variable is handed the monitor in the order of going to sleep |
| `SyncInit.MonitorStarts` | kern/sync/monitor.c:8-23 | for any number of processes and condition variables the state that monitor_init builds is an initial state of the runs |
| `SyncInit.CondvarStarts` | kern/sync/check_sync.c:254-263 | the same for the philosophers of the monitor version, for any number from 2 on |
| `SyncInit.SemaStarts` | kern/sync/check_sync.c:242-251 | the same for the semaphore version |
| `Dining.TakeTest` | kern/sync/check_sync.c:86-94 | testing oneself on arrival keeps neighbours from eating together, and every hungry philosopher has an eating neighbour or is still to be tested by one who is putting down forks |
| `Dining.PutTestLeft` | kern/sync/check_sync.c:108-109 | putting down and testing the left neighbour keeps both, with at most the right neighbour still to be tested |
| `Dining.PutTestRight` | kern/sync/check_sync.c:110-110 | testing the right neighbour keeps both with nobody left to be tested |
| `Dining.PutPasses` | kern/sync/check_sync.c:105-112 | putting down the forks and testing left, then right: the philosopher thinks, a hungry neighbour eats exactly unless its other neighbour does by then, the left one being asked first, and nobody else is affected |
| `PhilosophersCondvar.NeighboursNeverEatTogether` | kern/sync/check_sync.c:172-214 | for any number of philosophers from 2 on, no two neighbours are EATING in any reachable state of the monitor version |
| `PhilosophersCondvar.TakeForksReturnsEating` | kern/sync/check_sync.c:183-198 | phi_take_forks_condvar returns only with the state of its caller EATING |
| `PhilosophersCondvar.NoMissedTurn` | kern/sync/check_sync.c:200-214 | whenever the monitor is free every HUNGRY philosopher has an EATING neighbour |
| `PhilosophersCondvar.NoLostWakeup` | kern/sync/check_sync.c:172-191 | a philosopher waiting on its condition variable is EATING exactly if a signal for it is on the way |
| `PhilosophersCondvar.NeverDeadlocked` | kern/sync/check_sync.c:172-214 | in every reachable state of the monitor version some philosopher is not blocked |
| `PhilosophersSema.NeighboursNeverEatTogether` | kern/sync/check_sync.c:86-112 | no two neighbours are EATING in any reachable state of the semaphore version |
| `PhilosophersSema.TakeForksReturnsEating` | kern/sync/check_sync.c:96-103 | phi_take_forks_sema returns only with the state of its caller EATING |
| `PhilosophersSema.NoMissedTurn` | kern/sync/check_sync.c:96-112 | whenever the mutex is free every HUNGRY philosopher has an EATING neighbour |
| `PhilosophersSema.PermitIffGranted` | kern/sync/check_sync.c:86-103 | a private semaphore holds a permit exactly while its philosopher has been granted a meal it has not started |
| `PhilosophersSema.NeverDeadlocked` | kern/sync/check_sync.c:86-112 | in every reachable state of the semaphore version some philosopher is not blocked |
| `CondvarProgress.RunnableMoves` | kern/sync/check_sync.c:183-214 | in every reachable state of the monitor version each philosopher that can run has a step that brings it to another place |
| `CondvarProgress.TakeForksLeadsToMeal` | kern/sync/check_sync.c:183-198 | from a reachable state with the monitor free: take_forks leads to the meal exactly if no neighbour eats, otherwise the philosopher is left HUNGRY in cond_wait; nobody else is affected |
| `CondvarProgress.PutForksPassesTurn` | kern/sync/check_sync.c:200-214 | from such a state put_forks leads back to THINKING, and each neighbour that gets its turn has left the monitor EATING by then |
| `CondvarProgress.EverybodyCanEat` | kern/sync/check_sync.c:172-214 | from every reachable state, for every philosopher, there is a way on to its meal and from there back to thinking |
| `SemaProgress.RunnableMoves` | kern/sync/check_sync.c:96-112 | in every reachable state of the semaphore version each philosopher that can run takes a step that brings it to another place |
| `SemaProgress.TakeForksLeadsToMeal` | kern/sync/check_sync.c:96-103 | from a reachable state with the mutex free: its own steps lead a philosopher from thinking to its meal exactly if no neighbour eats, otherwise it is left HUNGRY and asleep on its own semaphore; nobody else is affected |
| `SemaProgress.PutForksPassesTurn` | kern/sync/check_sync.c:105-112 | from such a state the own steps of an eating philosopher lead back to THINKING, and each neighbour that gets its turn is EATING and has its permit |
| `SemaProgress.EverybodyCanEat` | kern/sync/check_sync.c:86-112 | from every reachable state, for every philosopher, there is a way on to its meal and from there back to thinking |
| `BuddyArithmetic.RoundDownMeaning` | kern/mm/buddy_pmm.c:35-38 | for every positive 32-bit word the bit trick yields the largest power of two not above it |
| `BuddyArithmetic.RoundUpMeaning` | kern/mm/buddy_pmm.c:35-37 | for every positive 32-bit word the bit trick yields the least power of two not below it, or 0 if that does not fit in a word |
| `BuddyArithmetic.RoundUpCovers` | kern/mm/buddy_pmm.c:37-37 | the rounded size covers the request exactly for requests up to half the word range |
| `BuddyArithmetic.MacrosMeaning` | kern/mm/buddy_pmm.c:27-29 | BUDDY_LENGTH, BUDDY_BEGIN and BUDDY_END give the length and the interval of a tree node |
| `BuddyArithmetic.BlockMeaning` | kern/mm/buddy_pmm.c:30-30 | BUDDY_BLOCK finds every node back from its interval, so nodes and intervals correspond one to one |
| `BuddyArithmetic.NodeAligned` | kern/mm/buddy_pmm.c:27-28 | every node begins at a multiple of its length |
| `BuddyArithmetic.NestedOrApart` | kern/mm/buddy_pmm.c:24-29 | two nodes are nested or have no page in common |
| `BuddyArithmetic.InitSizeFits` | kern/mm/buddy_pmm.c:40-56 | for every n > 1 in the physical range the words of the tree fit in the reserved pages and these together with the managed pages fit in n |
| `BuddyArithmetic.InitSizeBest` | kern/mm/buddy_pmm.c:44-55 | the choice is the best possible: no tree of another size, with its words in any number of pages that holds them, manages more pages, and no smaller one manages as many |
| `BuddyTree.LeavesApart` | kern/mm/buddy_pmm.c:119-206 | distinct live blocks that are not split have no page in common |
| `BuddyTree.WordMeaning` | kern/mm/buddy_pmm.c:126-163 | bit j of a live word is set exactly if a free block of 2^j pages lies below its node |
| `BuddyTree.RootWord` | kern/mm/buddy_pmm.c:126-155 | the root word reaches 2^j exactly if some free block has at least 2^j pages |
| `BuddyTree.RootBit` | kern/mm/buddy_pmm.c:141-144 | bit j of the root word is set exactly if some free block has exactly 2^j pages |
| `BuddyTree.Canonical` | kern/mm/buddy_pmm.c:190-205 | with all free buddies merged, the free blocks are determined by what is handed out |
| `BuddyAllocator.Buddy.constructor` | kern/mm/buddy_pmm.c:40-95 | after initialisation the invariant holds and exactly the managed pages are free |
| `BuddyAllocator.Buddy.InitSegment` | kern/mm/buddy_pmm.c:66-94 | the initialisation loop builds words, free list and count of a tree whose free pages are exactly those below the managed size |
| `BuddyAllocator.Buddy.SplitBlock` | kern/mm/buddy_pmm.c:129-139 | splitting replaces a free block by its two halves in words, property fields and free list |
| `BuddyAllocator.Buddy.ChooseChild` | kern/mm/buddy_pmm.c:141-151 | the descent goes to the child below which the lowest block that may serve the request begins: of just the wanted length if there is one, else at least that long; the assertion is never reached |
| `BuddyAllocator.Buddy.AllocPages` | kern/mm/buddy_pmm.c:119-166 | returns nothing exactly if no free block has the rounded size; otherwise an aligned block of free pages, handed out with all other allocations and free pages unchanged, taken from the lowest free block of exactly that size, without any split, or if there is none from the beginning of the lowest larger one |
| `BuddyAllocator.Buddy.FreePages` | kern/mm/buddy_pmm.c:169-206 | gives exactly the pages of the allocation back and restores the invariant: words, no two free buddies unmerged, free list equal to the maximal free blocks, count equal to their total |
| `BuddyAllocator.FreeUndoesAlloc` | kern/mm/buddy_pmm.c:119-206 | freeing an allocation restores the same tree of free blocks and the same count |
| `BuddyAllocator.HandedDisjoint` | kern/mm/buddy_pmm.c:153-159 | no two allocations share a page |
| `BuddyAllocator.NothingFree` | kern/mm/buddy_pmm.c:66-66 | the count is zero exactly if no block is free |
| `SkewHeap.MergedNodes` | libs/skew_heap.h:29-59 | merging neither loses nor duplicates entries |
| `SkewHeap.MergedOrdered` | libs/skew_heap.h:29-59 | merging two heaps gives a heap |
| `SkewHeap.Merge` | libs/skew_heap.h:29-59 | the in-place merge builds exactly the merged shape, with parent pointers, touching only the two heaps |
| `SkewHeap.Insert` | libs/skew_heap.h:61-67 | the in-place insertion builds the shape of the heap merged with the new entry |
| `SkewHeap.WithoutNodes` | libs/skew_heap.h:69-85 | removal takes out that entry and nothing else |
| `SkewHeap.WithoutOrdered` | libs/skew_heap.h:69-85 | removal leaves a heap even if the key of the removed entry was changed before |
| `SkewHeap.RemoveEntry` | libs/skew_heap.h:69-85 | the in-place removal of any entry builds exactly that shape, with parent pointers |
| `SkewHeap.MinimumAtRoot` | kern/schedule/stride_sched.c:113-113 | if no child ranks below its parent, the root is a minimum of all entries |
| `SkewHeap.SecondFirst` | libs/skew_heap.h:36-58 | in a merged heap an entry of the first heap stands above one of the second only if it is strictly smaller |
| `SkewHeap.InsertedOnTop` | libs/skew_heap.h:61-67 | a new entry becomes the root exactly if none is smaller |
| `SkewHeap.RightFirst` | libs/skew_heap.h:69-74 | when the root is removed an entry of its left subtree comes to stand above one of the right only if it is strictly smaller |
| `SkewHeapCost.MergedMerges` | libs/skew_heap.h:36-58 | a merge leaves on each node of its path the old left child on the right and the merged rest on the left |
| `SkewHeapCost.MergeCost` | libs/skew_heap.h:29-59 | a merge into a heap of fewer than 2^(k+1) - 1 entries makes at most 3k comparisons and what the number of nodes with the larger child on the right falls by |
| `SkewHeapCost.HistoryCost` | libs/skew_heap.h:29-85 | any n insertions and removals of the root, whatever the keys and however they change between, make at most 3kn comparisons in all |
| `Stride.CompExact` | kern/schedule/stride_sched.c:15-24 | for all pairs of true strides: the signed 32-bit comparison agrees with the true order if and only if they are equal or their difference modulo 2^32 lies in the half of the word range that has the right sign |
| `Stride.CompWithinTurn` | kern/schedule/stride_sched.c:15-24 | for true strides less than 2^32 apart: it agrees if and only if the difference is from -BIG_STRIDE - 1 to BIG_STRIDE, and is reversed otherwise |
| `Stride.CompWrongBeyond` | kern/schedule/stride_sched.c:15-24 | instance: of two strides BIG_STRIDE + 1 apart each compares as the smaller |
| `Stride.JoinableExactly` | kern/schedule/stride_sched.c:15-24 | given strides within the bound, a further 32-bit stride has a place within the bound if and only if comparing strides is still a total preorder |
| `Stride.JoinableByEnds` | kern/schedule/stride_sched.c:15-24 | whether it has a place can be computed from it and the strides of one process that is last and one that is first |
| `Stride.ForkWithoutPlace` | kern/process/proc.c:132-133 | instance: two processes with the priority that alloc_proc sets have run three times in turn; a fork then starts with stride 0, has no place, and the three strides compare in a cycle |
| `Stride.StepMeaning` | kern/schedule/stride_sched.c:136-138 | the charge times the priority, with 0 counting as 1, is BIG_STRIDE rounded down to a multiple of it |
| `Stride.StepZero` | kern/schedule/stride_sched.c:136-138 | a run costs nothing exactly for priorities above BIG_STRIDE |
| `Stride.PickKeepsSpread` | kern/schedule/stride_sched.c:136-138 | charging a process with the smallest stride keeps all true strides within BIG_STRIDE of each other |
| `Stride.RunInvariant` | kern/schedule/stride_sched.c:109-142 | along every run the spread stays bounded and each true stride is its start plus its runs times its step |
| `Stride.Fair` | kern/schedule/stride_sched.c:109-142 | started with equal strides, the run counts of any two processes times their steps differ by at most BIG_STRIDE |
| `Stride.Shares` | kern/schedule/stride_sched.c:109-142 | started with equal strides, of any two processes the one has had at most the product of the weights more than its share, counting its runs times the weight of the other, plus what rounding down its charge has saved it |
| `Stride.NoStarvation` | kern/schedule/stride_sched.c:109-142 | if the runs of all others cost something, a process is chosen within (n - 1) * 2 * BIG_STRIDE picks among n processes |
| `Stride.BehindFreeRider` | kern/schedule/stride_sched.c:109-142 | in every run, whoever starts behind a process whose runs cost nothing is never chosen |
| `Stride.FreeRiderStarves` | kern/schedule/stride_sched.c:109-142 | such a process can make any other wait through a run of any length, even from equal strides |
| `StrideScheduler.CompReflects` | kern/schedule/stride_sched.c:15-24 | within the spread bound comparing wrapped strides is comparing true strides, for all entries of the heap |
| `StrideScheduler.Enqueue` | kern/schedule/stride_sched.c:58-64 | insertion keeps a heap of the old entries and the new one whatever the strides, in order if all are within the bound, and then with the new entry as root exactly if no stride is smaller |
| `StrideScheduler.Dequeue` | kern/schedule/stride_sched.c:83-88 | removing an entry keeps a heap of the others whatever the strides; in order if only the removed stride was not |
| `StrideScheduler.ChargeRoot` | kern/schedule/stride_sched.c:136-138 | the wrapped addition is an addition to the true stride, keeps the bound, and spoils the order only at the root |
| `StrideScheduler.Scheduler.Admit` | kern/schedule/stride_sched.c:58-73 | the process is in the heap with all others whatever the strides, and the count is right; a heap in order stays so if and only if the process has a place within the bound |
| `StrideScheduler.Scheduler.Schedule` | kern/schedule/sched.c:80-102 | the running process goes back if it is still runnable and leaves otherwise; one of those that compete is charged, taken out and runs, the idle process exactly if nobody competes; no process is lost and the count stays right whatever the strides; if the heap was in order it is so again, the process that runs had the smallest true stride, and the one that ran before runs on exactly if it is still runnable and none was smaller |
| `StrideScheduler.RunFor` | kern/schedule/sched.c:80-102 | any number of calls of schedule while all stay runnable is a run to which the fairness results apply; started with equal strides all have had runs in proportion to their priorities |
| `FreeLists.MembersAreMaximalRuns` | kern/mm/firstfit_pmm.c:64-102 | a list of blocks that neither overlap nor touch holds exactly the maximal runs of its pages |
| `FreeLists.CanonicalUnique` | kern/mm/firstfit_pmm.c:64-102 | the address-sorted list of maximal runs is determined by the set of free pages |
| `FreeLists.RunInBlock` | kern/mm/firstfit_pmm.c:40-46 | consecutive free pages always lie in one block |
| `FreeLists.MergeStep` | kern/mm/firstfit_pmm.c:79-89 | growing the freed block by a neighbour it touches keeps the state of the merging pass, on lists of maximal runs and on others |
| `FreeLists.SortedNeverObstructed` | kern/mm/firstfit_pmm.c:91-99 | on a sorted list, of maximal runs or not, the assertion that the grown block does not touch its successor holds |
| `FreeLists.MergeSkip` | kern/mm/firstfit_pmm.c:76-90 | a block the merging pass leaves alone neither touches nor overlaps the freed block |
| `FreeArea.Area.InitMemmap` | kern/mm/firstfit_pmm.c:17-30 | adds exactly the new pages to the free set at the end of the list, with flags and count right; the list then holds the maximal runs if and only if it did before and the stretch touches none of the blocks already there |
| `FreeArea.TouchingStretches` | kern/mm/firstfit_pmm.c:17-30 | instance: two stretches of one page that touch leave two blocks where the free pages are one run |
| `FreeArea.Area.FirstFit` | kern/mm/firstfit_pmm.c:32-59 | returns nothing exactly if no block has n pages, which on a list of maximal runs means that there are no n consecutive free pages; otherwise exactly the pages returned leave the free set, the first of the first block with room, whose rest takes its place; they are the lowest with room if the runs are maximal and sorted |
| `FreeArea.Area.BestFit` | kern/mm/bestfit_pmm.c:32-68 | returns nothing exactly if no block has n pages; otherwise the first n pages of the first of the shortest blocks with room leave the free set, and what is left of it goes to the head of the list; on a list of maximal runs that is the shortest run with room |
| `FreeArea.Area.FreePages` | kern/mm/bestfit_pmm.c:70-108 | its last assertion fails exactly if the merging pass leaves a block where the freed one, grown, ends, never on a list of maximal runs or a sorted list; otherwise exactly the freed pages join the free set, merged and linked in before the first block beyond, flags and count agree, and a list of maximal runs, or a sorted one, is so again |
| `FreeArea.ObstructedExample` | kern/mm/firstfit_pmm.c:91-99 | instance: stretches at page 2 and page 1 added in this order, then page 0 freed: the assertion fails |
| `FreeArea.Area.CheckPages` | kern/mm/firstfit_pmm.c:68-72 | no page of the freed block is reserved or heads a free block, so the assertions hold |
| `FreeArea.Area.Coalesce` | kern/mm/bestfit_pmm.c:79-96 | one pass over the list, in any order, merges as computed block by block; on a list of maximal runs the freed block has then merged with all it touches |
| `FreeArea.Area.Insert` | kern/mm/firstfit_pmm.c:92-101 | links the block in before the first one beyond it; the assertion that it does not touch its successor fails exactly if that one starts where it ends |
| `FreeArea.AllocateAndFree` | kern/mm/firstfit_pmm.c:32-102 | freeing what first-fit handed out restores the identical list, flags and count |
| `SlobRing.PlaceExists` | kern/mm/kmalloc.c:166-168 | for every address that heads no block the search for the insertion point has a place to stop |
| `SlobRing.StopsThere` | kern/mm/kmalloc.c:166-168 | the loop of slob_free stops exactly at the block after which the freed one belongs |
| `SlobRing.FreedCanonical` | kern/mm/kmalloc.c:170-180 | merging the freed block with what it touches gives an address-sorted list of blocks that do not touch |
| `SlobRing.FreedPages` | kern/mm/kmalloc.c:170-180 | it adds exactly the units of the block |
| `SlobRing.LinkRightHangs` | kern/mm/kmalloc.c:170-174 | the first conditional gives the block the size and successor it needs; the ring itself is still the old one |
| `SlobRing.LinkLeftCloses` | kern/mm/kmalloc.c:176-180 | after the second conditional the pointers are one address-ordered cycle through the merged list |
| `SlobRing.TookRing` | kern/mm/kmalloc.c:123-130 | taking a block whole or by its front leaves the cycle of what remains, unless the only block is taken whole |
| `SlobRing.TookExactly` | kern/mm/kmalloc.c:123-132 | for every ring, place and size: the units handed out leave the ring if and only if the block was not the only one or was not taken whole; otherwise memory is unchanged; the new slobfree is in the ring if and only if there was another block |
| `SlobRing.LastBlockStays` | kern/mm/kmalloc.c:123-124 | a ring of one block that is taken whole still holds it |
| `Slob.ZeroBytes` | kern/mm/kmalloc.c:229-231 | instance: kmalloc(0) asks for one unit, and on the initial ring the arena block it is given does not leave the ring |
| `Slob.Heap.Search` | kern/mm/kmalloc.c:107-136 | one turn finds the first block after slobfree with room, and the one before it, or there is none |
| `Slob.Heap.FindPlace` | kern/mm/kmalloc.c:164-168 | the search of slob_free terminates at the right place |
| `Slob.Heap.Free` | kern/mm/kmalloc.c:153-185 | slob_free adds exactly the units of the block to the ring, keeps the cycle, changes no size outside it, and lets the next search begin behind the block before it |
| `Slob.Heap.Take` | kern/mm/kmalloc.c:123-134 | slob_alloc takes exactly the units asked for out of the ring |
| `Slob.Heap.Grow` | kern/mm/kmalloc.c:142-148 | a fetched page becomes part of the heap and makes room for any small request |
| `Slob.Heap.Alloc` | kern/mm/kmalloc.c:98-151 | fails exactly if no block has room and no page can be had; otherwise a live block disjoint from all others, the front of the next block in the ring with room, or of the run the new page is part of, and the next search begins where this one ended; a page is fetched exactly if no block had room, and at most one; units are conserved; only a request for one unit, exactly if the arena comes next in the ring, is given the arena block instead |
| `Slob.Heap.Kmalloc` | kern/mm/kmalloc.c:223-232 | panics exactly for the eight largest sizes of the small branch; otherwise fails exactly if there is no room and no page, or yields a live block with a one-unit header and room for the object, disjoint from all live blocks, where the next block in the ring with room begins; size 0 is given the arena block exactly if that comes next in the ring |
| `Slob.Heap.Kfree` | kern/mm/kmalloc.c:260-285 | exactly that block is no longer live; units are conserved |
| `Slob.AllocateAndFree` | kern/mm/kmalloc.c:223-285 | freeing what kmalloc returned restores the ring block for block unless a page was fetched |
| `Bitmap.Bitmap.constructor` | kern/fs/sfs/bitmap.c:18-50 | all blocks are free and no bit beyond the last block is set |
| `Bitmap.Bitmap.Alloc` | kern/fs/sfs/bitmap.c:53-71 | takes the lowest free block, or reports that none is free; the inner assertion is never reached |
| `Bitmap.Bitmap.Test` | kern/fs/sfs/bitmap.c:82-88 | tells whether a block is free |
| `Bitmap.Bitmap.Release` | kern/fs/sfs/bitmap.c:90-97 | makes exactly that block free |
| `Bitmap.Lowest` | kern/fs/sfs/bitmap.c:59-67 | the inner loop always finds the lowest set bit of a nonzero word |
| `SfsLayout.DecodeEncode` | kern/fs/sfs/sfs_inode.c:205-228 | a block number survives being written to and read from an indirect block |
| `SfsLayout.PutEntryAt` | kern/fs/sfs/sfs_inode.c:228-228 | writing one entry changes that entry and no other |
| `SfsSteps.AllocatedSound` | kern/fs/sfs/sfs_inode.c:89-99 | taking a free block and clearing it affects nobody |
| `SfsSteps.ReleasedSound` | kern/fs/sfs/sfs_inode.c:104-109 | freeing a block that nobody uses any more keeps ownership sound |
| `SfsSteps.LinkedSound` | kern/fs/sfs/sfs_inode.c:263-283 | a taken block that enters a block map keeps every block owned once |
| `SfsSteps.UnlinkedSound` | kern/fs/sfs/sfs_inode.c:318-344 | a block that leaves a block map keeps every block owned once |
| `SfsGrow.GrownDirect` | kern/fs/sfs/sfs_inode.c:262-270 | adding a direct block gives that file a zeroed block and changes nothing else in any file |
| `SfsGrow.GrownEntry` | kern/fs/sfs/sfs_inode.c:207-232 | the same for an entry of an existing indirect block |
| `SfsGrow.GrownIndirect` | kern/fs/sfs/sfs_inode.c:215-236 | the same for the first entry of a new indirect block |
| `SfsShrink.ShrunkDirect` | kern/fs/sfs/sfs_inode.c:323-330 | freeing a direct block takes it from that file only and makes it free |
| `SfsShrink.ShrunkEntry` | kern/fs/sfs/sfs_inode.c:297-313 | the same for an indirect entry |
| `Sfs.Volume.BlockAlloc` | kern/fs/sfs/sfs_inode.c:89-99 | the lowest free block, cleared, or the report that none is free; the assertions on the unused count and on the block being in use hold |
| `Sfs.Volume.BlockFree` | kern/fs/sfs/sfs_inode.c:104-109 | exactly that block becomes free and is counted |
| `Sfs.Volume.GetFirstEntry` | kern/fs/sfs/sfs_inode.c:215-244 | a new indirect block and its first data block are taken together or not at all |
| `Sfs.Volume.GiveBack` | kern/fs/sfs/sfs_inode.c:240-244 | the rollback leaves all metadata, the free blocks and the contents of all used blocks as they were |
| `Sfs.Volume.BmapGet` | kern/fs/sfs/sfs_inode.c:256-292 | panics exactly for an index from 12 + 1024 on; below, the mapped block if there is one; otherwise, exactly if enough blocks are free, a new zeroed one for this file only; otherwise nothing changes; no block is ever owned twice and the bitmap marks exactly the unused ones |
| `Sfs.Volume.BmapFree` | kern/fs/sfs/sfs_inode.c:318-344 | the file loses exactly that block; nothing changes if it has none at that index |
| `Sfs.Volume.BmapLoad` | kern/fs/sfs/sfs_inode.c:353-371 | panics exactly for an index behind the block after the last, or from 12 + 1024 on; otherwise an existing block for an index within the file, an appended zeroed one at its end |
| `Sfs.Volume.BmapTruncate` | kern/fs/sfs/sfs_inode.c:376-387 | the file loses exactly its last block; a block that the map does not reach is not freed |
| `Sfs.Volume.WriteChunk` | kern/fs/sfs/sfs_io.c:105-118 | a piece of one block is written and no other byte of any file changes |
| `Sfs.Volume.WriteAll` | kern/fs/sfs/sfs_inode.c:588-629 | the partial first block, the whole blocks and the partial last block together write the buffer, or a prefix of it that ends where the disk is full or the block map panics |
| `Sfs.Volume.Write` | kern/fs/sfs/sfs_inode.c:554-637 | for every offset and length: panics exactly if it starts behind the block after the last, or reaches the end of the block map with enough free blocks; short exactly if there are too few, and then ends at the first block it cannot get; otherwise all is written; other bytes are what the blocks held before, also behind the old size, and zeros in new blocks, so that up to the old size the bytes are spliced into the contents; every other file is untouched and no block is lost; all bytes of the file then lie in its blocks exactly unless it could not get the block after the last and has bytes or began there |
| `Sfs.Volume.Read` | kern/fs/sfs/sfs_inode.c:554-637 | returns exactly the bytes of the file in the range, up to its end; panics exactly if they go on beyond 12 + 1024 blocks; appends a zeroed block exactly if they go on behind the last block and there is room, runs out of space exactly if there is none, and otherwise changes nothing; the contents of all files stay |
| `Sfs.Volume.Enlarge` | kern/fs/sfs/sfs_inode.c:935-943 | appends zeroed blocks; out of space exactly if too few blocks are free, counting one for the indirect block; panics exactly if there are enough to get to the end of the block map and it is to go on |
| `Sfs.Volume.Reduce` | kern/fs/sfs/sfs_inode.c:944-952 | drops blocks from the end and keeps the bytes in the others; exactly those that the block map reached become free |
| `Sfs.Volume.Truncfile` | kern/fs/sfs/sfs_inode.c:915-960 | for every length: panics exactly if it is the present size and the block count is not the size rounded up, or if it is another one and the file grows beyond the block map; on success the size is the new one, remaining blocks keep their bytes and new blocks are zero; out of space exactly if too few blocks are free; what the file gains or loses in blocks, the free ones lose or gain |
| `Sfs.Volume.TrySeek` | kern/fs/sfs/sfs_inode.c:900-910 | a seek that succeeds ends within the file, which it grows with zeros if needed; it is refused exactly for positions from the largest file size on, and runs out of space or panics exactly if the growth does |
| `SfsBytes.OverlayTwice` | kern/fs/sfs/sfs_inode.c:610-629 | writing one piece after another is writing both |
| `SfsBytes.SplicedContents` | kern/fs/sfs/sfs_inode.c:630-635 | setting the size after a write at or before the end makes the contents the spliced ones |
| `SfsBytes.SameContents` | kern/fs/sfs/sfs_inode.c:554-637 | a file that is untouched has the same contents |
| `SfsFacts.WriteThenRead` | kern/fs/sfs/sfs_inode.c:554-637 | reading back a successful write, at any offset, returns the written bytes |
| `SfsFacts.GrowthThenTruncation` | kern/fs/sfs/sfs_inode.c:915-960 | after a growth that failed, truncating to the size the file still has panics exactly unless there was room for just the blocks that size takes |
| `SfsFacts.FailedGrowthExample` | kern/fs/sfs/sfs_inode.c:915-960 | instance: an empty file grown to two blocks on a disk with one free block keeps size 0 but has one block, and truncating it to 0 then panics |
| `SfsFacts.WriteBehindCut` | kern/fs/sfs/sfs_inode.c:554-637 | a file is written from its start, cut through another open file, and written on at the old position: this panics exactly if the position is behind the block after the last; otherwise the bytes between are those of the remaining blocks, and zeros in new blocks |
| `SfsFacts.CutWhileOpenExample` | kern/fs/sfs/sfs_inode.c:356-356 | instance: 5000 bytes written, the file cut to nothing, one byte written at 5000: the assertion on the index fails |
| `SfsFacts.StaleBytesExample` | kern/fs/sfs/sfs_inode.c:554-637 | instance: 3000 bytes written, the file cut to one byte, one byte written at 3000: the file is the 3000 bytes and the new one |
| `SfsFacts.StrandedExample` | kern/fs/sfs/sfs_inode.c:356-360 | instance: a file is cut while open, another takes its block, and a write at 3000 writes nothing and makes the size 3000, with no block; reading its first byte fails, and when a block is free again takes that block |
| `Mksfs.Builder.constructor` | tools/mksfs.c:242-273 | the first number handed out follows the metadata, the unused count is what is left, and the only file is an empty root directory at block 1 |
| `Mksfs.Builder.AllocIno` | tools/mksfs.c:192-199 | numbers are handed out in order and the unused count follows |
| `Mksfs.Builder.AddFile` | tools/mksfs.c:220-231 | a new file records no blocks and has the next number as its inode block, which no file used before; all other files are unchanged; fails exactly if no number is left |
| `Mksfs.Builder.AddBlock` | tools/mksfs.c:447-456 | fails exactly if the file has 32768 blocks or the numbers left do not suffice for the block and the new entry blocks it needs; otherwise the file records one more block, the next number, which no file recorded before, its size grows, no other file changes, and every number handed out still has exactly one use |
| `Mksfs.RecordedOnce` | tools/mksfs.c:416-445 | no two places in the records of any files hold the same block |
| `Mksfs.Builder.UpdateCache` | tools/mksfs.c:401-414 | yields the entry block with its role, or a new zeroed one; the search by number is never needed |
| `Mksfs.Builder.AppendBlock` | tools/mksfs.c:416-445 | fails exactly if the file has 32768 blocks or the numbers left do not suffice for the new entry blocks; otherwise the file records exactly the given unused number as its next block, through direct, indirect or double indirect entries, no other file changes, and every number handed out keeps exactly one use |
| `Mksfs.DoubleRecorded` | tools/mksfs.c:434-441 | in the double indirect range the new entry is found at its quotient and remainder and all others stay |
| `MksfsImage.FreemapBlock` | tools/mksfs.c:346-350 | one freemap block has exactly the bits from start to end set |
| `MksfsImage.WriteFreemap` | tools/mksfs.c:336-355 | the freemap blocks on the disk have a bit set exactly for the blocks not handed out, and no other block is written |
| `MksfsImage.NodeDecoded` | kern/fs/sfs/sfs_inode.c:169-169 | the kernel reads from an inode block the size, block count, direct blocks and indirect block that mksfs wrote there; type, link count and double indirect block are there too |
| `MksfsClose.Close` | tools/mksfs.c:331-371 | superblock with its text, freemap, entry blocks and inodes with types and link counts are all on the disk, none overwritten by another, and the blocks of file contents are as they were; read from the disk alone, through up to two levels of entry blocks, every inode maps to exactly the blocks recorded for it |
| `MksfsMount.MountAssertionHolds` | kern/fs/sfs/sfs_fs.c:218-224 | the freemap on a closed image has as many set bits as its superblock counts unused blocks |
| `MksfsMount.LoadFreemap` | kern/fs/sfs/sfs_fs.c:127-140 | the bitmap marks exactly the blocks that the freemap on the disk marks |
| `MksfsImage.CountUnused` | kern/fs/sfs/sfs_fs.c:218-223 | the count made when mounting is the number of free blocks |
| `MksfsImage.KernelAgrees` | kern/fs/sfs/sfs_inode.c:257-292 | for every index below 12 + 1024 the block map of the kernel returns the block that append_block recorded, and 0 beyond the end |
| `MksfsMount.ImageConsistent` | tools/mksfs.c:331-371 | what the kernel reads from any closed image is a volume in which every block is owned once, the free blocks are exactly the unowned ones, files have no gaps and their bytes lie in their blocks, also for files longer than its block map reaches |
| `MksfsMount.KernelReads` | kern/fs/sfs/sfs_inode.c:554-637 | as far as the block map reaches, the bytes of a file on a closed image are those in the blocks mksfs recorded for it |
| `MksfsMount.Mount` | kern/fs/sfs/sfs_fs.c:148-247 | superblock, freemap and inodes read from a closed image pass all checks and give a consistent volume |
| `MksfsMount.CloseAndMount` | kern/fs/sfs/sfs_fs.c:148-247 | closing an image and mounting it gives a consistent volume with the files of the builder, whose bytes are those that write_block put on the disk |
| `MksfsFacts.LongFileExample` | kern/fs/sfs/sfs_inode.c:285-287 | instance: mksfs builds a file of 1037 blocks; the kernel mounts the image and reads its first 1036 blocks, and reading the next byte panics |
| `MksfsFacts.OvergrowthExample` | kern/fs/sfs/sfs_inode.c:285-287 | instance: on a mounted image with room enough, growing an empty file to 1037 blocks panics |
| `Pids.NextUnusedUnique` | kern/process/proc.c:184-216 | the first unused number after a start, cyclically, is unique |
| `Pids.SomeUnused` | kern/process/proc.c:186-186 | with fewer used numbers than there are one is unused |
| `Pids.Allocator.GetPid` | kern/process/proc.c:184-216 | terminates with the first unused number after the last one, cyclically, with or without a scan, and keeps the cached gap free of used numbers |
| `Pids.Allocator.Pass` | kern/process/proc.c:197-213 | one walk over the list ends with a free gap or restarts strictly nearer to an unused number |
| `Pids.Table.Fork` | kern/process/proc.c:454-454 | a new process gets an unused number in range, unless there are too many processes, counting the idle process, which is not on the list; the cache stays right |
| `Pids.Table.Reap` | kern/process/proc.c:922-927 | removing a process keeps the cache right |
| `ProcLinks.OneParent` | kern/process/proc.c:155-180 | every process is in the child list of one process only, its parent |
| `ProcLinks.SetLinksFamily` | kern/process/proc.c:155-164 | the new process is the youngest child of its parent and all other lists stay |
| `ProcLinks.RemovedFamily` | kern/process/proc.c:166-180 | exactly one childless process leaves its list and all pointers agree again |
| `ProcLinks.MovedFamily` | kern/process/proc.c:554-563 | one turn of the loop moves the youngest child to init, tolerating the stale pointer of the next one |
| `Processes.ParentIsOlder` | kern/process/proc.c:155-180 | ranks fall along parents, so the processes form a forest |
| `Processes.DiedSettled` | kern/process/proc.c:543-553 | a process that turns zombie after waking a waiting parent leaves nobody sleeping on a child it could reap |
| `Processes.MovedSettled` | kern/process/proc.c:554-569 | moving a child, with init woken if the child is a zombie and init waits, keeps that too |
| `ProcTable.Table.Fork` | kern/process/proc.c:488-504 | the pointer updates build exactly that family, the child is runnable, and nobody else is affected |
| `ProcTable.Table.WakeUp` | kern/schedule/sched.c:60-78 | a process that is no zombie becomes runnable and waits no longer, all others stay as they are, and nobody comes to sleep on a child it could reap |
| `ProcTable.Table.Doze` | kern/process/proc.c:1110-1121 | a process that sleeps for a timer or the keyboard leaves the family and the waiting invariant as they are |
| `ProcTable.Table.Kill` | kern/process/proc.c:948-958 | marks the process and wakes it exactly if it waits for a child, a timer or the keyboard, or says truthfully that there is none or that it was killed before; the family and the waiting invariant are kept |
| `ProcTable.Table.Exit` | kern/process/proc.c:543-571 | the process is a childless zombie; all its children, none lost or duplicated, now precede the old children of init, in reverse order; exactly its parent, if it waits for a child, and init, if it does and got a zombie, are woken, and no other process changes |
| `ProcTable.Table.FindChild` | kern/process/proc.c:884-903 | finds the first zombie in the list of children that is wanted, or says truthfully that there is a wanted child but no zombie, or none at all |
| `ProcTable.Table.Wait` | kern/process/proc.c:873-930 | reaps exactly the found child, or sleeps only if no wanted child is a zombie, or fails without change |
| `ProcTable.Table.Bury` | kern/process/proc.c:922-929 | remove_links takes exactly the reaped child out of the family |
| `Timers.InsertedDue` | kern/schedule/sched.c:104-124 | the new timer has its deadline and all others keep theirs |
| `Timers.InsertedTakes` | kern/schedule/sched.c:104-124 | the new timer stands behind all that are due no later and before the others, so of timers with the same deadline it fires last |
| `Timers.RemovedDue` | kern/schedule/sched.c:126-143 | all other timers keep their deadlines |
| `Timers.NoOverflow` | kern/schedule/sched.c:136-136 | the sum formed when deleting is at most a deadline, so it fits in 32 bits |
| `Timers.TimerList.Add` | kern/schedule/sched.c:104-124 | the delta list stands for the old table of deadlines with the new one added, in its turn |
| `Timers.TimerList.Delete` | kern/schedule/sched.c:126-143 | the table without that timer, in the same order; deleting an absent timer does nothing |
| `Timers.TimerList.Tick` | kern/schedule/sched.c:145-171 | every deadline comes one nearer and exactly those that were one tick away fire, each once and in the order of the list; the head is nonzero again, so the assertion holds next time |
| `Vmas.OnlyOne` | kern/mm/vmm.c:109-114 | at most one area contains an address |
| `Vmas.Mm.FindVma` | kern/mm/vmm.c:81-105 | finds what a plain scan of the list finds, whatever is cached |
| `Vmas.Mm.Insert` | kern/mm/vmm.c:118-147 | its assertions hold exactly if the area overlaps no other; then the list stays sorted and disjoint |
| `Vmas.Mm.Map` | kern/mm/vmm.c:166-197 | refused exactly if the range is outside user space or its start is mapped; panics exactly if it then overlaps a later area; otherwise inserted |
| `Vmas.MapIntoNext` | kern/mm/vmm.c:166-197 | instance: with an area at 0x400000, mapping two pages from 0x3FF000 panics |
| `Vmas.Mm.Duplicate` | kern/mm/vmm.c:199-219 | inserting from the end backwards reproduces the list and no assertion fails |
| `Vmas.Mm.UserMemCheck` | kern/mm/vmm.c:504-529 | accepts exactly the user ranges every address of which lies in an area with the needed right, where a write must not start in the lowest page of a stack |

## Left out

- Boot code, traps, drivers, console, user programs and printing: hardware and input/output.
- Page contents, page tables, copy-on-write and swapping: only the sets of pages and areas are modelled.
- `kern/mm/nextfit_pmm.c`, `kern/mm/swap_lru.c`, `kern/schedule/prior_sched.c` and the other scheduling classes.
- Time slices and the list variant of the stride run queue; `proc_num` is modelled as it is between calls of `schedule()`.
- Page flags and reference counts in the buddy allocator, and the `PG_reserved` check when it frees.
- Objects of a page or more in `kmalloc` (the list of big blocks and `find_order`), and the `align` argument, which every caller passes as 0.
- Creating, deleting, linking and renaming files, directories and path lookup; `sin->dirty`, inode caching and write-back of inodes and superblock.
- Disk errors, locks of the file system and interrupt flags: the disk is reliable and operations are atomic.
- The hash lists of mksfs (`hash32`, `hash64`) and reading of host files; names in directories; types and link counts of inodes, and the text in the superblock, which are parameters.
- Which inodes are reachable from the root: the mount is given the set of inode numbers.
- The edit of `proc_list` at the head of `do_kill`.
- Slob.Heap.Kmalloc: of the heap after size 0 was given the arena block it says only what is in memory.
- Memory, files and kernel stacks of processes in fork, exit and wait, and allocation failures in fork.
- Waking of a timer's process in `run_timer_list`; the fired timers are reported instead.
- Semaphores.EnvironmentKeeps: of a kill or timer only marking and waking are modelled.
- Monitor.NeverStuck: states that some process can go on, not that the scheduler picks it.
- CondvarProgress.EverybodyCanEat: there is a way on to every meal; that the scheduler takes it is not claimed.
- SemaProgress.EverybodyCanEat: the same.
- StrideScheduler.Scheduler.Schedule: does not say which process runs after one without a place has joined; by `Stride.JoinableExactly` comparing strides is then no order.
- BuddyAllocator.Buddy.AllocPages: not for more than 2^31 pages, for which the 32-bit rounding gives 0 and the descent leaves the tree.
- Slob.Heap.Alloc: the full turn before a page is fetched and the turn after it are two calls of one search; the single loop of the source does the same steps.
- Sfs.Volume.Write: does not say what a write that panics has written before.
- Mksfs.Builder.AppendBlock: says nothing about the state when it fails, because the program ends there.
- Nothing is proved about 32-bit overflow of page counts, sizes and block counts; they are unbounded numbers here, except for strides, timers, user addresses and the bit macros of the buddy allocator.
