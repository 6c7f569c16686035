# A small kernel in Dafny

This project models the parts of a single-core teaching kernel (and of its boot tools and
sample programs) that hold unbounded properties, and proves those properties:

* two heap allocators, the buddy system and the K&R free list;
* the scheduler and its semaphores, and pipes built on semaphores;
* two protocols over semaphores, a locked counter and the dining philosophers;
* the linked queue beneath all of them;
* the directory of the boot disk, and the printing and parsing of numbers.

Each part has a layer of values, on which the properties are stated and proved, and a class
or methods in the form of the source (headers and links in memory, a queue and a current
process, circular and sorted arrays, loops over buffers) whose contracts equate what they do
with the layer of values.

| files | part |
|---|---|
| `Bits`, `BuddyTree`, `BuddyModel`, `BuddyRuns`, `BuddyAllocator` | buddy allocator: masks, the tiling, single steps, whole operations and runs, memory |
| `KRModel`, `KRAllocator` | K&R allocator: free extents and live blocks, memory |
| `KernelModel`, `KernelInvariant`, `KernelSteps`, `KernelRuns` | scheduler and semaphores: functions, invariant, every step, runs |
| `BoundedWaiting`, `Quantum`, `Lifecycle`, `Exit`, `PidReuse`, `IdleWait`, `Kernel` | how long a process waits and how long it runs, how it lives and dies, whom its end releases, what a reused pid does, when the idle process may wait, the operations as they run |
| `Handoff`, `SemaphoreRuns`, `Pipes`, `PipeBuffer`, `PipeTable`, `LinkedQueue` | semaphores seen by their clients, kernel runs seen at one semaphore, pipes, the table of pipes, the queue |
| `LockedCounter`, `UnlockedCounter`, `Philosophers`, `PhilosopherTable` | the two protocols, the counter also without its semaphore |
| `Numerals`, `Printers` | numbers as text |
| `BmfsModel`, `BmfsDirectory` | the directory of the boot disk |

## Conventions

Memory is a map from addresses to headers. Every unit of the heap is in the map, with
whatever its bytes would read as, so a header is only trusted where the invariant says so.

System calls run with interrupts off (the gates are interrupt gates), so each is one step up
to the point where it gives the processor away; pipes and the two protocols are interleaved
at every semaphore operation, and the philosophers at every statement. `SemaphoreRuns` proves
that a run of the kernel does to their semaphores what they assume. A run is any sequence
of such steps. History variables (`waitsOn`, `phase`, `entered`, `written`, `read`) record
what the source does not store; no step depends on them, except that `phase` and `pc` stand
for the point a process has reached.

The queues of the scheduler and of the semaphores are sequences; that a linked queue behaves
like one is what `LinkedQueue` proves.

Sizes and counters that can wrap in the source wrap in the model where that can be seen
(request sizes, the sum of `test_sync`, the parsers, the directory scan); a signed overflow
is taken as two's complement.

Where the source does not do what one would expect, the model follows the source:

* With all lists empty `getFreeBlock` answers `currentBlocks`, not -1. malloc still answers
  NULL because the list after the last one stays zeroed, which the invariant records.
* The buddy malloc adds the header to the size in 64 bits. For sizes above 2^64 - 24 the sum
  wraps, and the block handed out is too small (`WrapHandsOutTooSmall`).
* The K&R list has no sentinel node. Taking the only free node whole, or freeing the block
  directly below the only free node, breaks it. Both conditions can be checked before the
  call (`Exhausts`, `MergesUnderOnly`), and runs do reach them; outside them everything is
  proved, inside them the contracts say what the memory becomes, and two lemmas show that it
  represents no heap.
* freeProcess may hand out a pid again that the queue of a semaphore still holds. Runs leave
  that case out; `PidReuse` says which freeProcess brings it about, gives a run from boot, and
  shows that it is the only way in which starting a process breaks the invariant and that
  a post is then lost.
* The keyboard interrupt runs semWait for whoever is current. With its pipe full and the idle
  process current it BLOCKs the idle process, and counts it out of the READY ones
  (`FullPipeBlocksIdle`). Runs leave out that wait, and only that one (`SafeIffUnit`).
* `header_blocks` is one more than the rounded heap size, so the first block handed out
  reaches past the heap (`FirstBlockPassesEnd`), and the upper check of the K&R free scales it
  twice.
* The private semaphores of the philosophers start at 1, so neighbours can be in their
  meals together although their states never are EATING together.
* `_itoa` writes its terminator one byte past its buffer; the buffer of the model has that
  byte. The console's buffer holds the binary numeral of numbers below 2^63 only.
* `create` accepts a request for no block at all. Its caller rules it out, and has to: after
  one the next files may share a block (`ApartIffNonEmpty`).
* Without its semaphore `test_sync` is exact for a single process only (`ExactIffLocked`).

## Model

| member | source | states |
|---|---|---|
| BuddyRuns.ReachableTiling | Kernel/memory_manager/buddy.c:48-114 | After any run of malloc and free every byte of the heap lies in exactly one block, every block is aligned to its own size, and list k holds exactly the free blocks of order k, once each |
| BuddyRuns.AllFreedRestoresInitial | Kernel/memory_manager/buddy.c:94-114 | Once no block is live, in whatever order the blocks were freed, the heap is the initial one again: a single free block of maximal order, alone on its list |
| BuddyRuns.MallocComplete | Kernel/memory_manager/buddy.c:60-92 | malloc answers NULL exactly when there is no free block with room for the request and its header |
| BuddyRuns.MallocTight | Kernel/memory_manager/buddy.c:60-92 | A block that is handed out was part of one free block, holds the bytes computed for the request (its size and the header, unless that sum wraps), is less than twice as large as that, and is at least 32 bytes |
| BuddyRuns.RoundTrip | Kernel/memory_manager/buddy.c:60-114 | Freeing the block just allocated gives back the same heap, with every list in its old order |
| BuddyRuns.FreeIsRelease | Kernel/memory_manager/buddy.c:94-114 | The merging loop of free, which climbs by masks, joins exactly the free buddies that a recursive release from the root joins |
| BuddyRuns.CoalesceIsRelease | Kernel/memory_manager/buddy.c:104-113 | The same for the loop from any working block |
| BuddyRuns.CarveIsSpine | Kernel/memory_manager/buddy.c:81-85 | The splitting loop leaves the lowest block of the order asked for and one upper half of every order it passed |
| BuddyRuns.CarveLists | Kernel/memory_manager/buddy.c:81-85 | Each list the splitting loop passes gains exactly one block, and no other list changes |
| BuddyRuns.RunKeepsInv | Kernel/memory_manager/buddy.c:33-114 | Well-formedness, full coalescing and the match of lists and blocks hold at every point of every run |
| BuddyTree.BuddyInvolution | Kernel/memory_manager/buddy.c:176-194 | At every block offset getBuddyBlock undoes itself, and getBlockAddress gives a block and its buddy the same parent, aligned to the parent size |
| BuddyTree.MasksAreHalves | Kernel/memory_manager/buddy.c:176-194 | For every offset that is a multiple of the block size: node and buddy lie one block apart, and the parent is the lower of the two, at a multiple of the doubled size |
| BuddyTree.SiblingsAt | Kernel/memory_manager/buddy.c:176-194 | Below the root the parent that the mask computes is in the tree, and its two children are the block and its buddy |
| BuddyTree.BuddyIsCurrentBlock | Kernel/memory_manager/buddy.c:99-111 | The buddy address of a block below the maximal order starts a current block of at most the same order, so the merging loop never looks at a stale header |
| BuddyTree.BlocksDisjoint | Kernel/memory_manager/buddy.c:60-114 | Two blocks are the same one or do not overlap |
| BuddyTree.BlocksCover | Kernel/memory_manager/buddy.c:60-114 | Every byte of the heap lies in a block |
| BuddyTree.ReleaseUp | Kernel/memory_manager/buddy.c:105-111 | Joining with a free buddy and going on from the parent is the same release |
| BuddyTree.ReleaseStops | Kernel/memory_manager/buddy.c:105-113 | Without a free buddy of its order a block is released alone, and nothing else changes |
| BuddyTree.AllFreeIsOneBlock | Kernel/memory_manager/buddy.c:94-114 | A coalesced heap in which every block is free is one block |
| BuddyModel.FitOrderTight | Kernel/memory_manager/buddy.c:142-155 | The order chosen is the smallest one whose block holds the request, and that block is smaller than twice the request |
| BuddyModel.WrapMakesBlockTooSmall | Kernel/memory_manager/buddy.c:60-69 | Among the sizes that could fit a heap or whose sum with the header wraps around 64 bits: the order chosen is too small exactly for those above 2^64 - 24; for 2^64 - 24 itself, which wraps to 0, there is no such order |
| BuddyRuns.WrapHandsOutTooSmall | Kernel/memory_manager/buddy.c:60-92 | malloc(2^64 - 24) answers NULL; the larger sizes that leave room for a header get a block of 32 bytes whenever any block is free; no other block ever handed out is too small |
| BuddyModel.TakeKeepsInv | Kernel/memory_manager/buddy.c:78 | Popping a free block keeps the invariant, with that block in transit |
| BuddyModel.HalveKeepsInv | Kernel/memory_manager/buddy.c:81-85 | One round of splitting keeps the invariant and the live blocks |
| BuddyModel.MergeKeepsInv | Kernel/memory_manager/buddy.c:105-111 | One round of merging keeps the invariant and the live blocks |
| BuddyModel.DropKeepsInv | Kernel/memory_manager/buddy.c:113 | Pushing the working block keeps the invariant once its buddy is not free |
| Bits.MasksOfBit | Kernel/memory_manager/buddy.c:176-194 | Exclusive or with a power of two, and masking it out, are an addition or a subtraction that depends on that bit alone |
| Bits.PowerOfTwoTest | Kernel/memory_manager/buddy.c:151 | n & (n - 1) is zero exactly for the powers of two |
| Bits.Log2Bounds | Kernel/memory_manager/buddy.c:196-210 | The result of log2 brackets its argument between two powers of two |
| BuddyAllocator.BuddyHeader | Kernel/memory_manager/buddy.c:99-111 | In memory, the header that the loop condition reads belongs to a current block, and shows its order and whether it is free |
| BuddyAllocator.Buddies.InitializeMemoryManager | Kernel/memory_manager/buddy.c:33-58 | Any memory becomes a heap of one free block, for every size from 32 bytes to under 2^30, power of two or not |
| BuddyAllocator.Buddies.Malloc | Kernel/memory_manager/buddy.c:60-92 | On headers and list links in memory: the result and the new heap are those of the abstract malloc, also for the sizes that wrap, but for the sixteen whose block would not hold its header |
| BuddyAllocator.Buddies.Free | Kernel/memory_manager/buddy.c:94-114 | The same for free of NULL or of a live block |
| BuddyAllocator.Buddies.SplitBlocks | Kernel/memory_manager/buddy.c:81-85 | The loop refines the abstract splitting, block by block |
| BuddyAllocator.Buddies.MergeBuddies | Kernel/memory_manager/buddy.c:105-111 | One round of the loop refines the abstract merge and finds the next buddy |
| BuddyAllocator.Buddies.HandOut | Kernel/memory_manager/buddy.c:78-89 | Pop, split and mark: what malloc does once an order has been found |
| BuddyAllocator.Buddies.PushFreed | Kernel/memory_manager/buddy.c:104-113 | Once no free buddy is left, pushing the working block ends the abstract merging |
| BuddyAllocator.Buddies.GetFreeBlock | Kernel/memory_manager/buddy.c:164-174 | The first order with a free block; currentBlocks when there is none, and -1 only for an order beyond all lists |
| BuddyAllocator.Buddies.GetMinimumFittingOrder | Kernel/memory_manager/buddy.c:142-155 | The order of FitOrderTight, with the cut of log2 to 32 bits |
| BuddyAllocator.Buddies.Log2 | Kernel/memory_manager/buddy.c:196-210 | Shifting until nothing is left yields the position of the highest bit, -1 for zero |
| BuddyAllocator.Buddies.GetBuddyBlock | Kernel/memory_manager/buddy.c:176-183 | By the order in the header: for a block at a multiple of its size, the other half of the block that both make up |
| BuddyAllocator.Buddies.GetBlockAddress | Kernel/memory_manager/buddy.c:185-194 | By the order in the header: for a block at a multiple of its size, where the block starts that it makes up with its buddy |
| BuddyAllocator.Buddies.AddNodeToOrder | Kernel/memory_manager/buddy.c:157-162 | The node gets order and free flag and ends the list; other headers keep theirs |
| BuddyAllocator.Buddies.PushToList | Kernel/memory_manager/buddyBTree.c:11-18 | The circular list gains the entry at its end; only links of that list change |
| BuddyAllocator.Buddies.RemoveFromList | Kernel/memory_manager/buddyBTree.c:29-35 | The circular list loses exactly the entry, wherever it stands |
| BuddyAllocator.Buddies.PopFromList | Kernel/memory_manager/buddyBTree.c:20-27 | The last entry is taken, NULL from an empty list |
| BuddyAllocator.Buddies.ListIsEmpty | Kernel/memory_manager/buddyBTree.c:37-40 | True exactly for the list without entries |
| BuddyAllocator.Buddies.InitializeList | Kernel/memory_manager/buddyBTree.c:5-9 | A self-linked list without entries |
| BuddyAllocator.Buddies.UserWrite | Kernel/memory_manager/buddy.c:89 | What the user of a live block stores past its header disturbs nothing |
| KRModel.ReachableHeaps | Kernel/memory_manager/memoryManager.c:28-132 | Along every run the free list is address-ordered, no two free extents touch, no free extent overlaps a live block, free plus live units are the whole heap, and once nothing is live the list is one node spanning the heap |
| KRModel.RoundTrip | Kernel/memory_manager/memoryManager.c:28-122 | Freeing the block just allocated restores the same free extents and live blocks |
| KRModel.RoundTripIsSafe | Kernel/memory_manager/memoryManager.c:28-122 | That free never is one that the source gets wrong |
| KRModel.MallocComplete | Kernel/memory_manager/memoryManager.c:39-62 | malloc fails exactly when no free extent is large enough |
| KRModel.NextFitIsNearest | Kernel/memory_manager/memoryManager.c:38-62 | The node used is the nearest one after free_node that fits, free_node itself coming last |
| KRModel.NextBlockIsBelow | Kernel/memory_manager/memoryManager.c:41-56 | After a block was cut off a node the next search starts with the rest of that node: if that is large enough the next block lies directly below the first |
| KRModel.NextAfterWhole | Kernel/memory_manager/memoryManager.c:43-56 | After a node was taken whole the next search starts with the node that followed it |
| KRModel.JoinedIsLast | Kernel/memory_manager/memoryManager.c:100-121 | After a free that joined the block to the node below it that node is searched last |
| KRModel.FreedIsNext | Kernel/memory_manager/memoryManager.c:100-121 | After a free that joined nothing below the next search starts with the node that the block became |
| KRModel.MallocKeepsInv | Kernel/memory_manager/memoryManager.c:28-65 | malloc keeps the invariant unless it takes the only node whole; the new block was free before |
| KRModel.FreeKeepsInv | Kernel/memory_manager/memoryManager.c:67-122 | For every live block the abstract free keeps the invariant, and exactly the units of the block become free |
| KRModel.ExhaustsIsReached | Kernel/memory_manager/memoryManager.c:28-65 | On every heap of two units or more the first malloc may take the only node whole |
| KRModel.MergesUnderOnlyIsReached | Kernel/memory_manager/memoryManager.c:28-122 | On every heap of nine units or more four calls, all within the invariant, leave a live block directly below the only node |
| KRModel.BaseListedIsSafe | Kernel/memory_manager/memoryManager.c:28-122 | While the node at base is listed no free can break the list, and only a malloc that takes exactly that node unlists it |
| KRModel.ApartIsCanonical | Kernel/memory_manager/memoryManager.c:100-119 | Extents that do not touch are determined by the units they cover: full coalescing makes the list unique |
| KRModel.NothingLive | Kernel/memory_manager/memoryManager.c:124-132 | With nothing live the list is the initial one |
| KRAllocator.StopsAtCur | Kernel/memory_manager/memoryManager.c:79-98 | The walk of free stops at the node just below the block, or at the highest one, and at no other node |
| KRAllocator.RepAfterFree | Kernel/memory_manager/memoryManager.c:100-121 | The two joins turn the memory of the old heap into that of the new one |
| KRAllocator.RepAfterWhole | Kernel/memory_manager/memoryManager.c:43-46 | Unlinking a node taken whole leaves the memory of the new heap |
| KRAllocator.RepAfterCut | Kernel/memory_manager/memoryManager.c:47-52 | Cutting a block from the end of a node leaves the memory of the new heap |
| KRAllocator.SumAround | Kernel/memory_manager/memoryManager.c:141-148 | Once around the ring sums the whole free list, wherever it starts |
| KRAllocator.ExhaustedListIsBroken | Kernel/memory_manager/memoryManager.c:43-54 | After the only node was handed out whole it is still on the free list: no heap in which that block is live has this memory |
| KRAllocator.UnderOnlyIsBroken | Kernel/memory_manager/memoryManager.c:101-121 | After the block below the only node was freed the list holds two nodes, one inside the other: this is the memory of no heap |
| KRAllocator.FreeList.InitializeMemoryManager | Kernel/memory_manager/memoryManager.c:124-132 | One self-linked node of header_blocks units |
| KRAllocator.FirstBlockPassesEnd | Kernel/memory_manager/memoryManager.c:124-132 | The first block that malloc hands out holds the last of these units and reaches at least 16 bytes past the end of the heap given |
| KRAllocator.FreeList.Malloc | Kernel/memory_manager/memoryManager.c:28-65 | On headers in memory: the abstract malloc, and exactly what happens instead when the only node is taken whole |
| KRAllocator.FreeList.TakeFrom | Kernel/memory_manager/memoryManager.c:41-56 | Taking a node whole or cutting its end refines the abstract step |
| KRAllocator.FreeList.Free | Kernel/memory_manager/memoryManager.c:67-122 | On headers in memory: the pointer that malloc answered for a live block frees that block as abstractly, NULL and pointers that are none of malloc are ignored, and exactly what happens instead in the case the source gets wrong |
| KRAllocator.PointerNames | Kernel/memory_manager/memoryManager.c:67-77 | The pointer that malloc answered for any live block passes every test of free and names that block |
| KRAllocator.MallocThenFree | Kernel/memory_manager/memoryManager.c:28-122 | malloc and then free of its answer, in memory: the same free extents and live blocks, linked and sized as before |
| KRAllocator.FreeList.WalkTo | Kernel/memory_manager/memoryManager.c:79-98 | The search finds the node before the block and never takes one of its early returns for a live block |
| KRAllocator.FreeList.Splice | Kernel/memory_manager/memoryManager.c:100-119 | The two joins, header by header |
| KRAllocator.FreeList.SumRing | Kernel/memory_manager/memoryManager.c:141-148 | The loop terminates and yields the number of free units |
| KRAllocator.FreeList.GetMemoryInfo | Kernel/memory_manager/memoryManager.c:134-153 | The report is 16 times the free units after its own allocation; with 16 times the live units it makes up the total |
| KRAllocator.FreeList.UserWrite | Kernel/memory_manager/memoryManager.c:54 | What the user of a live block stores past its header disturbs nothing |
| KernelRuns.ReachableStates | Kernel/scheduler/processManager.c:117-166 | In every reachable state readyCount is the number of READY processes, so the search loop ends; pids are distinct and below pidCounter; no value is negative or positive beside waiters; a process blocked by semWait is in exactly one queue, of a semaphore with value 0; a process that has not exited has its own semaphore at 0 |
| KernelRuns.RunKeepsInv | Kernel/scheduler/processManager.c:117-166 | The invariant holds along every run of ticks and system calls |
| KernelRuns.AfterInitSchedulerInv | Kernel/scheduler/processManager.c:59-75 | initScheduler establishes the invariant, whatever semaphores were created before it |
| KernelRuns.BootSems | Kernel/kernel.c:114-117 | At boot these are the lock of the pipe table and the two semaphores of the keyboard pipe, numbered from 0 and unused, as AfterInitSchedulerInv asks |
| BoundedWaiting.DispatchedInTime | Kernel/scheduler/processManager.c:117-166 | A process that is and stays READY, at queue index p, is the current one after at most currentCycles + 1 + 21 * p calls of scheduleTask, whatever the others do |
| BoundedWaiting.WaitIsBounded | Kernel/scheduler/processManager.c:117-166 | As long as it is READY in the queue there have been fewer calls than that |
| BoundedWaiting.ScheduleProgress | Kernel/scheduler/processManager.c:117-166 | Each call of scheduleTask dispatches the process or lowers its bound |
| BoundedWaiting.StepProgress | Kernel/scheduler/processManager.c:270-373 | No step raises the bound, and one that ends in scheduleTask lowers it |
| BoundedWaiting.SearchMovesForward | Kernel/scheduler/processManager.c:143-157 | The search never moves a READY process backwards and leaves its PCB alone, whatever it frees or wakes |
| Quantum.QuantumIsPriority | Kernel/scheduler/processManager.c:117-166 | A process that scheduleTask has chosen and that stays READY is the current one for as many further calls as its priority said then, whatever else is called and whoever becomes READY; at the next tick, with another process READY, it is not |
| Quantum.KeepsProcessor | Kernel/scheduler/processManager.c:123-129 | Whoever is current, the idle process too, keeps the processor through all of its ticks, each costing it one |
| Quantum.DispatchGivesPriority | Kernel/scheduler/processManager.c:141-164 | Whoever is chosen gets as many ticks as its priority says, the idle process too |
| Quantum.ScheduleMovesOn | Kernel/scheduler/processManager.c:117-166 | With its ticks used up the current process is not chosen again while another is READY |
| Quantum.InTurn | Kernel/scheduler/processManager.c:137-157 | The queue is served in turn: the first READY process is chosen, and those passed over move behind the others in their order |
| Quantum.StoppedGivesWay | Kernel/scheduler/processManager.c:277-321 | Blocking or killing the current process takes the processor from it |
| Quantum.FrontIsReady | Kernel/scheduler/processManager.c:117-166 | After any call that ends in scheduleTask the current process is READY or the idle one |
| Quantum.YieldMakesWay | Kernel/scheduler/processManager.c:330-335 | yield makes way for any other READY process; with none the caller goes on with its ticks given anew |
| Quantum.NiceSets | Kernel/scheduler/processManager.c:294-310 | The priority asked for, forced into 0..20, for a process in the queue; nothing else changes, and nothing at all if it is not there |
| Quantum.StartsReady | Kernel/scheduler/processManager.c:169-203 | A READY process at the end of the queue, of priority 2 or 1, with a pid and a semaphore that no other process has; nothing else changes |
| Lifecycle.DeadStayDead | Kernel/scheduler/processManager.c:466-486 | Between any two points of a run a process keeps its pid, and once EXITED or TERMINATED is never READY or BLOCKED again |
| Lifecycle.WaitPidBlocks | Kernel/scheduler/processManager.c:362-373 | waitpid on a process that has not exited blocks the caller on that process |
| Lifecycle.WaiterReleasedOnlyAfterExit | Kernel/scheduler/processManager.c:362-373 | As long as that process lives nothing releases the caller |
| Exit.KillReleases | Kernel/scheduler/processManager.c:466-486 | And its end does: after a killTask that is not refused, whatever scheduleTask does then, whoever can run and waits for the process first (other than itself) is READY and waits no more; if nobody does, the semaphore of the process has one unit more |
| Exit.ExitPosts | Kernel/scheduler/processManager.c:466-486 | Up to the scheduler call the exit changes that semaphore, the waiter and the process itself, and nothing else |
| Exit.KillRefused | Kernel/scheduler/processManager.c:277-284 | init, the shell, unknown and dead processes cannot be killed: nothing happens |
| Exit.LaterWaitPidCollects | Kernel/scheduler/processManager.c:362-373 | A process killed while nobody waits can be waited for at any later time of a run: the first waitpid does not block, and terminates it |
| Exit.RunKeepsAwaited | Kernel/scheduler/processManager.c:466-486 | Until somebody waits for it a process that has exited keeps its state and the unit of its semaphore along every run |
| Exit.WaitPidCollects | Kernel/scheduler/processManager.c:362-373 | waitpid on a process that has exited blocks exactly if the unit is gone; otherwise it takes it, marks the process TERMINATED and does nothing else |
| Exit.SetsStateOnly | Kernel/scheduler/processManager.c:466-486 | Terminating, blocking and resuming set the state of one process or are refused, and do nothing else |
| Exit.FreeingReleases | Kernel/scheduler/processManager.c:95-97 | freeProcess of a process that was terminated before it exited makes the first of its waiters that can run READY |
| Lifecycle.ScheduleKeepsProcesses | Kernel/scheduler/processManager.c:117-166 | scheduleTask adds no process and loses only TERMINATED ones; what runs next is READY |
| Lifecycle.ScheduleDispatches | Kernel/scheduler/processManager.c:117-164 | The idle process is chosen exactly when nobody is READY and the current process may not go on; whoever else runs is READY |
| KernelInvariant.PostWakesFirstLive | Kernel/semaphores/sem.c:133-156 | A post skips waiters that died, makes the first live one READY and leaves the value, or empties the queue and adds one; nothing else changes |
| KernelInvariant.DrainKeepsInv | Kernel/semaphores/sem.c:139-155 | The draining loop keeps the invariant |
| KernelInvariant.WakeKeepsInv | Kernel/semaphores/sem.c:143-152 | Handing the post to a waiter keeps the invariant |
| KernelSteps.ScheduleKeepsInv | Kernel/scheduler/processManager.c:117-166 | scheduleTask keeps the invariant |
| KernelSteps.FreeHeadKeepsInv | Kernel/scheduler/processManager.c:88-114 | freeProcess keeps it: whoever waited is released, and pids stay below the counter although it may step back |
| KernelSteps.ChangeStateKeepsInv | Kernel/scheduler/processManager.c:466-486 | changeState keeps the invariant, through the nested post of an exit |
| KernelSteps.WaitEntryKeepsInv | Kernel/semaphores/sem.c:107-131 | semWait keeps the invariant, whether it takes a unit or blocks |
| KernelSteps.PostKeepsInv | Kernel/semaphores/sem.c:133-156 | semPost of a semaphore that belongs to no process keeps it |
| KernelSteps.CloseKeepsInv | Kernel/semaphores/sem.c:87-105 | semClose keeps it |
| KernelSteps.OpenKeepsInv | Kernel/semaphores/sem.c:52-70 | semOpen keeps it |
| KernelSteps.StartKeepsInv | Kernel/scheduler/processManager.c:169-203 | startTask keeps it |
| Kernel.Kernel.InitScheduler | Kernel/scheduler/processManager.c:59-75 | The state after initScheduler, behind the semaphores created earlier, with the idle process taken out of the queue |
| Kernel.Kernel.ScheduleTask | Kernel/scheduler/processManager.c:117-166 | On the queue and the current process: the abstract scheduler, including the search loop |
| Kernel.Kernel.FindReady | Kernel/scheduler/processManager.c:143-157 | The loop terminates and refines the abstract search |
| Kernel.Kernel.FreeProcess | Kernel/scheduler/processManager.c:88-114 | Release of waiters, close of the own semaphore, step back of the pid counter |
| Kernel.Kernel.ChangeState | Kernel/scheduler/processManager.c:466-486 | State, count of ready processes and refusal as specified, for current and queued processes |
| Kernel.Kernel.ResumeTask | Kernel/scheduler/processManager.c:324-327 | A process is resumed unless it is unknown or dead |
| Kernel.Kernel.StartTask | Kernel/scheduler/processManager.c:169-203 | A new READY process at the end of the queue with a semaphore of its own |
| Kernel.Kernel.KillTask | Kernel/scheduler/processManager.c:277-291 | The process exits and releases its waiter; a process that kills itself is switched away; the pid, or -1 for init, the shell, an unknown process or a dead one |
| Kernel.Kernel.BlockTask | Kernel/scheduler/processManager.c:313-321 | The process blocks; the current one is switched away; 0, or -1 for an unknown process or a dead one |
| Kernel.Kernel.Nice | Kernel/scheduler/processManager.c:294-310 | The priority is clamped to 0..20; only queued processes are found, others answer -1 |
| Kernel.Kernel.Yield | Kernel/scheduler/processManager.c:330-335 | The rest of the quantum is given up |
| Kernel.Kernel.WaitPid | Kernel/scheduler/processManager.c:362-373 | Wait for the exit; a caller that need not wait makes the process TERMINATED and gets its pid; -1 for an unknown process |
| Kernel.Kernel.SemOpen | Kernel/semaphores/sem.c:52-70 | Attach to the semaphore of that name, in either case of letters, with its value left alone, or create it with the value asked for |
| Kernel.Kernel.SemInit | Kernel/semaphores/sem.c:72-83 | A nameless semaphore with a fresh id and the value asked for |
| Kernel.Kernel.SemClose | Kernel/semaphores/sem.c:87-105 | Nameless or last: destroyed; otherwise one attached process less |
| Kernel.Kernel.SemWait | Kernel/semaphores/sem.c:107-131 | A unit, or a place at the end of the queue and a switch to another process; -1 for an unknown id |
| Kernel.Kernel.EnterWait | Kernel/semaphores/sem.c:107-131 | The same up to the switch |
| Kernel.Kernel.JoinQueue | Kernel/semaphores/sem.c:120-129 | The blocking half: the pid ends the queue and the caller is BLOCKED on that semaphore |
| Kernel.Kernel.SemPost | Kernel/semaphores/sem.c:133-156 | The draining loop terminates and refines the law of PostWakesFirstLive |
| Kernel.Kernel.SemValue | Kernel/semaphores/sem.c:158-164 | The value, -1 for an unknown id |
| Handoff.KernelPostIsPost | Kernel/semaphores/sem.c:133-156 | With all waiters alive, a post of the kernel is the direct hand-over that pipes and client protocols are built on |
| Handoff.KernelWaitIsWait | Kernel/semaphores/sem.c:107-131 | In every state that satisfies the invariant semWait takes a unit or a queue place as the hand-over does, and BLOCKS the caller exactly when it may not go on |
| SemaphoreRuns.RunIsHandoffRun | Kernel/semaphores/sem.c:107-156 | Along every run, seen at a semaphore that no process owns, that is not closed and is posted while its waiters live: a semWait of it is a Wait by the caller, who gives up the processor exactly if Wait does not let it go on; a semPost is a Post and makes READY exactly whom Post names; every other call and tick leaves value and queue alone |
| SemaphoreRuns.CreatedWithValue | Kernel/semaphores/sem.c:52-83 | semInit, and semOpen of a new name, create a semaphore with a new id, the value asked for, nobody in its queue and one process attached; no other semaphore changes |
| SemaphoreRuns.FirstWaitsGoOn | Kernel/semaphores/sem.c:52-156 | Along every run from there, of the semWaits on it exactly the first as many go on at once as the value said and posts have added since |
| SemaphoreRuns.RunAddsUp | Kernel/semaphores/sem.c:52-156 | Along every run units less waiters are what they were, more by the posts and less by the waits; attachedProcesses are what they were, more by the opens and less by the closes |
| SemaphoreRuns.GoesOnWhileUnits | Kernel/semaphores/sem.c:107-131 | A semWait goes on at once exactly while the waits before it are fewer than the units and posts there have been |
| SemaphoreRuns.CloseDestroysIff | Kernel/semaphores/sem.c:87-105 | semClose destroys a semaphore exactly if it has no name or one process attached |
| SemaphoreRuns.SameNameIsCase | Kernel/semaphores/sem.c:302-305 | Names are the same exactly if they differ in the case of letters only |
| SemaphoreRuns.OpenAgainAttaches | Kernel/semaphores/sem.c:52-70 | A later semOpen of the name, in any case of letters, finds the semaphore created |
| SemaphoreRuns.ValueOrUnknown | Kernel/semaphores/sem.c:158-164 | semValue answers the value, and -1 exactly for an unknown id |
| SemaphoreRuns.UnknownIsIgnored | Kernel/semaphores/sem.c:87-156 | A wait, post or close of an unknown id does nothing |
| IdleWait.SafeIffUnit | Kernel/drivers/keyboard.c:152-155 | A semWait made while the idle process is current keeps the invariant if and only if the semaphore is unknown or has a unit left |
| IdleWait.FullPipeBlocksIdle | Kernel/drivers/keyboard.c:152-155 | A run from boot leads to the idle process running with the keyboard pipe full, where the next character makes it wait |
| PidReuse.StartIsSafeIff | Kernel/scheduler/processManager.c:88-114 | Starting a process keeps the invariant if and only if no queue holds the pid it gets |
| PidReuse.FreeingLeavesPidHeld | Kernel/scheduler/processManager.c:88-114 | freeProcess leaves the next pid in a queue if and only if the process freed has the highest pid and some queue other than that of its own semaphore still holds it |
| PidReuse.ReuseIsReached | Kernel/scheduler/processManager.c:88-114 | Seven calls from boot lead there: the next process gets the pid of one that was killed and collected while it waited, and the next post of that semaphore is lost on it |
| PidReuse.SwallowedIff | Kernel/semaphores/sem.c:133-156 | A post neither wakes anybody nor adds to the value if and only if the first live process in the queue is READY |
| PidReuse.NoPostIsSwallowed | Kernel/semaphores/sem.c:133-156 | While the invariant holds no post is lost like that |
| PidReuse.ReuseSwallowsPost | Kernel/semaphores/sem.c:133-156 | After such a reuse the next post is lost on the new process, if those queued in front of it are dead |
| Pipes.PipeIsFifo | Kernel/pipes/pipes.c:88-105 | For every interleaving of blocking readers and writers: what was read is a prefix of what was written, unread bytes are intact in the circular buffer, occupied bytes and free slots are accounted for by semaphore values and processes let through, and each writer stores its bytes in order |
| Pipes.NoStuckWaiters | Kernel/pipes/pipes.c:88-178 | Readers wait only on an empty pipe or for a process that can move, writers only on a full one; never both sides with nobody able to move |
| Pipes.StepKeepsInv | Kernel/pipes/pipes.c:88-178 | Each stretch of code between two semaphore operations keeps balance, buffer contents and queues |
| Pipes.OrderKept | Kernel/pipes/pipes.c:172-178 | What a writer has stored is what it brought, in order, but for the byte it still holds |
| Pipes.CreatedInv | Kernel/pipes/pipes.c:180-201 | createPipe establishes the invariant, whatever the buffer holds |
| PipeBuffer.PipeObject.constructor | Kernel/pipes/pipes.c:180-201 | A new pipe object is the created pipe |
| PipeBuffer.PipeObject.EnterRead | Kernel/pipes/pipes.c:97 | The reader goes on exactly if there are more bytes than readers let through |
| PipeBuffer.PipeObject.FinishRead | Kernel/pipes/pipes.c:99-105 | In place: the oldest unread byte is returned and its slot given back |
| PipeBuffer.PipeObject.EnterWrite | Kernel/pipes/pipes.c:174 | The writer goes on exactly if there are more free slots than writers let through |
| PipeBuffer.PipeObject.FinishWrite | Kernel/pipes/pipes.c:175-177 | In place: the byte is appended to what was written, and no unread byte is overwritten |
| PipeTable.TableCounts | Kernel/pipes/pipes.c:45-129 | After any run of opens and closes ids are distinct, a pipe exists exactly while it was opened more often than closed, and its count is that difference |
| PipeTable.CloseUndoesOpen | Kernel/pipes/pipes.c:45-129 | Opening and closing leaves the table as it was |
| PipeTable.Table.GetPipe | Kernel/pipes/pipes.c:210-220 | From the cache or not, the answer is what a search of the queue would find |
| PipeTable.Table.PipeOpen | Kernel/pipes/pipes.c:45-58 | One more process on an existing pipe, or a new pipe with one; no pipe is exchanged, emptied or otherwise touched, and a new one is empty |
| PipeTable.Table.PipeClose | Kernel/pipes/pipes.c:109-129 | One process less; the last one removes the pipe, and only that pipe, from queue and cache, and the others are not touched; -1 for an unknown id |
| PipeTable.Table.CreatePipe | Kernel/pipes/pipes.c:180-201 | The new pipe ends the queue |
| PipeTable.Table.Destroy | Kernel/pipes/pipes.c:121-124 | The pipe leaves the queue and the cache |
| LinkedQueue.FirstMatchIsFirst | Kernel/lib/queue.c:129-144 | The position found is the first match, and the only one with that property |
| LinkedQueue.TakenIsGone | Kernel/lib/queue.c:162-192 | Where at most one element can match, it is gone afterwards and the rest is there |
| LinkedQueue.TakeConserves | Kernel/lib/queue.c:162-192 | Taking loses nothing but the element it returns |
| LinkedQueue.Queue.Enqueue | Kernel/lib/queue.c:70-91 | On linked nodes: the element ends the sequence, also after last was left dangling |
| LinkedQueue.Queue.Dequeue | Kernel/lib/queue.c:58-68 | The first element, NULL when empty |
| LinkedQueue.Queue.Peek | Kernel/lib/queue.c:93-98 | The first element, which stays |
| LinkedQueue.Queue.Find | Kernel/lib/queue.c:129-144 | The first match in order, NULL without one |
| LinkedQueue.Queue.TakeElement | Kernel/lib/queue.c:162-192 | The first match is returned and removed at the head, in the middle or at the tail |
| LinkedQueue.Queue.Unlink | Kernel/lib/queue.c:171-186 | first and last follow a removal at either end |
| LockedCounter.LockedIncrements | Userland/SampleCodeModule/tests/test_sync.c:12-59 | For any number of processes and any interleaving: at most one is between semWait and semPost, the counter is the sum of completed increments, a blocked process always has a holder to wait for, and every attached process means the semaphore that exists now |
| LockedCounter.FinalValue | Userland/SampleCodeModule/tests/test_sync.c:21-97 | With the semaphore, or with one process at most, when all have finished nothing was lost, the sum is exact wherever it fits 64 bits, and the semaphore is gone; as many increments as decrements, equally often, end at 0 |
| UnlockedCounter.ExactIffLocked | Userland/SampleCodeModule/tests/test_sync.c:21-97 | For any processes that add something other than 0: every complete run ends at the sum asked for if and only if the semaphore is used or there is one process at most |
| UnlockedCounter.LosesWithoutSemaphore | Userland/SampleCodeModule/tests/test_sync.c:12-19 | Without the semaphore and with two processes or more some complete run ends short by exactly one increment of the second process |
| UnlockedCounter.WithoutSemaphoreLosesUpdates | Userland/SampleCodeModule/tests/test_sync.c:45-53 | So one increment and one decrement can end at another value than 0 |
| LockedCounter.AttachedKept | Kernel/semaphores/sem.c:52-105 | Through destruction and re-creation of the named semaphore, attachedProcesses counts the processes using it and all of them hold its id |
| LockedCounter.LockedKept | Userland/SampleCodeModule/tests/test_sync.c:45-53 | Each step keeps mutual exclusion and the queue of blocked processes |
| LockedCounter.CountedKept | Userland/SampleCodeModule/tests/test_sync.c:12-19 | Each step keeps the counter equal to the completed increments, in 64-bit arithmetic |
| Philosophers.TableIsPeaceful | Userland/SampleCodeModule/lib/phylo.c:17-42 | On a ring of any size from 2, over every interleaving: never two neighbours EATING, and while the gate is free every WAITING philosopher has an EATING neighbour; whoever queues at the gate waits for one inside it |
| Philosophers.NeverStuck | Userland/SampleCodeModule/lib/phylo.c:17-42 | No deadlock: in every reachable state, on a ring of any size and whatever the private semaphores start with, some philosopher can move |
| Philosophers.MealsApartIffZero | Userland/SampleCodeModule/lib/phylo.c:155 | Neighbours never are in their meals together, in any run, if and only if the private semaphores are created with 0; the source creates them with 1 |
| Philosophers.ZeroKeepsApart | Userland/SampleCodeModule/lib/phylo.c:26-42 | With 0 whoever is in its meal is EATING |
| Philosophers.WalksIn | Userland/SampleCodeModule/lib/phylo.c:26-33 | A philosopher whose semaphore already has a unit walks through philoWait in five moves, whatever the states of its neighbours |
| Philosophers.SettledKept | Userland/SampleCodeModule/lib/phylo.c:17-42 | Each statement keeps both ring invariants, up to the tests that are still to be made |
| Philosophers.GatesKept | Userland/SampleCodeModule/lib/phylo.c:26-42 | Each statement keeps the gate exclusive and each private semaphore private |
| Philosophers.PeaceByTest | Userland/SampleCodeModule/lib/phylo.c:17-24 | testEat makes no two neighbours eat |
| PhilosopherTable.Table.TestEat | Userland/SampleCodeModule/lib/phylo.c:17-24 | On the array: the abstract test, with its post |
| PhilosopherTable.Table.Sit | Userland/SampleCodeModule/lib/phylo.c:29-30 | The gated part of philoWait: it eats exactly if no neighbour does, and nobody is left waiting for nothing |
| PhilosopherTable.Table.Rest | Userland/SampleCodeModule/lib/phylo.c:38-40 | The gated part of philoRest: both neighbours are served if they can be |
| PhilosopherTable.Table.constructor | Userland/SampleCodeModule/lib/phylo.c:134-160 | The table as it is set |
| Numerals.DigitsDenote | Kernel/naiveConsole.c:86-93 | The numeral denotes the number and has no redundant leading zero |
| Numerals.OnlyNumeral | Userland/SampleCodeModule/lib/ustdlib.c:169-185 | It is the only such string, so two printers that produce numerals agree |
| Numerals.LengthBound | Kernel/naiveConsole.c:80-93 | A number has at most k digits exactly if it is below base to the k |
| Printers.UintToBase | Kernel/naiveConsole.c:80-111 | Forward digits and reversal in place: the buffer holds the numeral and its terminator, the rest is untouched, the result is the length |
| Printers.WriteBackwards | Kernel/naiveConsole.c:86-93 | The first loop writes the numeral lowest digit first |
| Printers.ReversePrefix | Kernel/naiveConsole.c:98-108 | The two pointers reverse the text in place |
| Printers.ConsoleBufferFits | Kernel/naiveConsole.c:80-96 | 64 characters hold the numeral of a 64-bit number and its terminator if and only if the base is above 2 or the number is below 2^63 |
| Printers.Itoa | Userland/SampleCodeModule/lib/ustdlib.c:169-185 | Backwards from the end: the same numeral, for every 64-bit number |
| Printers.Atoi | Userland/SampleCodeModule/lib/ustdlib.c:187-200 | The digits after leading blanks, as a 64-bit number, for every string |
| Printers.StrToHex | Userland/SampleCodeModule/lib/ustdlib.c:238-261 | The hexadecimal number as a 32-bit int, -1 if anything else comes before the terminator, for every string |
| Printers.AtoiUndoesPrinting | Userland/SampleCodeModule/lib/ustdlib.c:187-200 | _atoi gives back a printed number, behind any blanks and before anything that is no digit, exactly if it is below 2^63 |
| Printers.StrToHexUndoesPrinting | Userland/SampleCodeModule/lib/ustdlib.c:238-261 | strToHex gives back a number printed in base 16 exactly if it is below 2^31 |
| Printers.StrToHexIgnoresCase | Userland/SampleCodeModule/lib/ustdlib.c:238-261 | strToHex reads both cases of letters alike |
| Printers.StrToHexRejects | Userland/SampleCodeModule/lib/ustdlib.c:241-245 | Anything but a hexadecimal digit before the terminator makes it answer -1 |
| BmfsModel.CreateIsLowestFit | Bootloader/BMFS/bmfs.c:610-719 | create refuses exactly a taken name, a full directory, or a request for which no free place exists; otherwise the file gets the lowest place of all and its record is new while the others stay, and extents stay disjoint inside the disk and names distinct |
| BmfsModel.ScanIsLowest | Bootloader/BMFS/bmfs.c:663-685 | The scan of the gaps finds the lowest place and fails only where there is none |
| BmfsModel.ReachableDirectories | Bootloader/BMFS/bmfs.c:610-719 | Whatever is created on a formatted disk with sizes of 1 MiB or more, in any order that qsort may leave, extents never overlap, stay on the disk, and names never repeat |
| BmfsModel.ApartIffNonEmpty | Bootloader/BMFS/bmfs.c:610-719 | On every formatted disk two files never share a block, over any series of creates with sizes from some smallest one on and however qsort settles ties, if and only if that smallest size is at least 1 |
| BmfsModel.EmptyFileOverlaps | Bootloader/BMFS/bmfs.c:610-719 | On every formatted disk four creates of which the second is empty give the same block to two files, in a run in which qsort leaves the first file before the empty one that starts with it |
| BmfsModel.EmptyRequests | Bootloader/BMFS/bmfs.c:615-620 | Only the sizes 0 and 2^64 - 1 ask for none |
| BmfsModel.BlocksFor | Bootloader/BMFS/bmfs.c:615-620 | The blocks asked for hold maxsize MiB, with less than a block to spare |
| BmfsModel.CmpOrders | Bootloader/BMFS/bmfs.c:597-608 | The cut of the difference to an int does not change the order on disks of fewer than 2^31 blocks |
| BmfsModel.SortedKeeps | Bootloader/BMFS/bmfs.c:661 | Sorting by that comparison orders the extents and keeps them apart |
| BmfsModel.OnlyOrder | Bootloader/BMFS/bmfs.c:597-661 | Files of their own blocks have exactly one order that qsort may leave |
| BmfsDirectory.Disk.FindFile | Bootloader/BMFS/bmfs.c:205-231 | The first record of that name before the end marker, deleted ones aside; nothing exactly if there is none |
| BmfsDirectory.Disk.CountEntries | Bootloader/BMFS/bmfs.c:636-651 | The records in use, and the first that is deleted or ends the directory |
| BmfsDirectory.Disk.FindSpace | Bootloader/BMFS/bmfs.c:663-685 | The loop refines the abstract scan |
| BmfsDirectory.Disk.Create | Bootloader/BMFS/bmfs.c:610-719 | On the array of records: the abstract create, record for record; the file created has room for maxsize MiB and no block to spare; soundness for every request of at least one block |

## Left out

- BuddyAllocator.Buddies.Malloc: the sixteen sizes from 2^64 - 23 to 2^64 - 8 are excluded: their sum with the header wraps to 1..16 bytes, and the 16-byte block handed out is smaller than its own header. WrapHandsOutTooSmall covers the other sizes that wrap.
- BuddyAllocator.Buddies.InitializeMemoryManager: heaps under 32 bytes have no block with room for a header, and from 2^30 bytes on the shifts reach the sign of an int or the fixed array of lists; both are excluded.
- BuddyAllocator.Buddies.Free: pointers that are not live blocks, double frees among them, are excluded; the source does not detect them.
- KRAllocator.FreeList.Free: a pointer into the heap that is aligned but names no live block is excluded; which of those the source notices depends on their neighbours.
- KRAllocator.FreeList.Malloc: a request within 15 bytes of 2^64, whose unit count wraps, is excluded.
- KRAllocator.FreeList.GetMemoryInfo: the 32-bit width of the sums is not modelled, and the case in which its own allocation takes the only node whole is excluded; what the list then becomes is stated by Malloc.
- Kernel.Kernel.FreeProcess: the arguments, the stack and the pipes of the process are not modelled, nor is the end-of-file byte it writes to its output pipe.
- Kernel.Kernel.StartTask: arguments, names, stack frames, file descriptors and parents are not modelled, and memory does not run out; before the first tick no process is current, and then only ticks and the start of processes are modelled.
- Kernel.Kernel.ChangeState: the search for orphans on termination is not modelled; it stops before the last queue entry, so orphans need not reach init.
- KernelRuns.RunKeepsInv: callers keep to what Legal says: blockTask and resumeTask are not used on a process that waits on a semaphore, nobody but the kernel posts or closes the semaphore of a process, initial values are not negative, and the idle process is left alone while it is the current one and then waits only where a unit is left (IdleWait). No caller controls that a pid is not handed out again while a queue still holds it; that case ends a run; PidReuse says which freeProcess leads to it, shows a run that gets there, and says what it does.
- KernelRuns.ReachableStates: a semaphore that is destroyed takes its queue with it; the processes in it stay blocked, and the statement says so.
- Kernel.Kernel.SemOpen: the empty name, which belongs to semInit, and negative initial values are excluded.
- Kernel.Kernel.SemWait: a wait for which no unit is left is excluded while the idle process is current, where it breaks the invariant (SafeIffUnit).
- Kernel.Kernel.EnterWait: the same.
- Kernel.Kernel.BlockTask: processes that wait on a semaphore are excluded, and the idle process while it is the current one.
- Kernel.Kernel.ResumeTask: the idle process is excluded while it is the current one.
- Kernel.Kernel.KillTask: the idle process is excluded while it is the current one.
- Kernel.Kernel.SemInit: negative initial values are excluded.
- Kernel.Kernel.WaitPid: the answer of a caller that blocks is given when it is released and is not part of the result.
- Kernel.Kernel.SemClose: the 16-bit width of attachedProcesses is modelled in LockedCounter only.
- Kernel.Kernel.ScheduleTask: saved stack pointers and registers are not modelled; a context switch is a change of the current process.
- Pipes.PipeIsFifo: readers and writers are not killed while they use the pipe, nobody closes it under them, and its semaphores are used by nobody else.
- PipeTable.Table.PipeOpen: allPipesSem is taken to be free, memory not to run out, and counts not to reach 2^31.
- PipeTable.Table.PipeClose: the source looks the pipe up before it takes allPipesSem; the model takes both together.
- PipeBuffer.PipeObject.EnterWrite: pipeWrite is this write for every character of its string; the answer -1 for an unknown pipe is modelled for pipeClose only.
- LinkedQueue.Queue.Enqueue: allocation does not fail; freed nodes are simply no longer reachable.
- SemaphoreRuns.RunIsHandoffRun: where a client stands in its own code is not part of the kernel's state, so the runs of Pipes, LockedCounter and Philosophers are composed of these waits and posts and are not themselves runs of the kernel.
- LockedCounter.LockedIncrements: at most 65536 processes, the range of attachedProcesses; no other program uses the semaphore's name and no process is killed; the arguments have been parsed.
- LockedCounter.FinalValue: the update of the shared variable is modelled on values, not in place, since other processes act between its load and its store.
- Philosophers.TableIsPeaceful: the ring keeps its size; philosophers that join or leave during the meal, the printing of the table and the setting up under a closed gate are not modelled.
- UnlockedCounter.ExactIffLocked: processes that add a multiple of 2^64, and so nothing, are excluded.
- Printers.UintToBase: bases from 2 to 36, for which a digit is one letter.
- Printers.Itoa: bases from 2 to 16, for which the source has digits.
- BmfsModel.CreateIsLowestFit: directories with deleted records, in which the scan meets stale extents, and disks of fewer than three blocks are excluded; names must fit their 32 bytes and not read as a marker.
- BmfsDirectory.Disk.Create: qsort is modelled as an insertion sort with the same comparison, which is the only order there is on the directories the method accepts (OnlyOrder), and writing the directory to disk is left to the caller.
- Spin locks around semaphores: with interrupts off they never spin.
- getMemoryInfo of the buddy allocator: it weights each block by its place in its list, so it is not the free total.
- getSemInfo, getPipeInfo, getSchedulerInfo, the iterators' own interface and freeQueue: snapshots and loops over operations proved here.
- killCurrentForeground and terminateChildren: they combine the calls modelled here, and share the loop that misses the last queue entry.
- Interrupt set-up, drivers, console, shell, loader, memory copying, random numbers and square root: hardware, user interface or easy members.
