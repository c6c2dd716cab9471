# A verified model of the kernel's threads, memory, disk and inode code

The kernel is a small 32-bit x86 teaching system. This project models five parts of it in Dafny and
proves what they promise, keeping the code as it is written, off-by-one errors included. Where a
property fails of the code as written, the project states the exact condition under which it holds,
and gives an input on which it does not.

`dafny verify dfyconfig.toml` checks everything.

## What is modelled

**Threads, semaphores and the re-entrant lock** (`ThreadSteps`, `ThreadInvariant`,
`ThreadPreservation`, `ThreadRuns`, `BoundedWaiting`, `TimeSlices`, `TagLists`, `Kernel`). A region with
interrupts off is one atomic step; everything else can be preempted, so every thread has a program counter with
one point for each statement of `lock_acquire` and `lock_release`. `ThreadSteps.Next` is the step
function. `Kernel.Machine` runs the same steps down to the pointers: one tag per thread, which is
linked into the ready list or into the waiter list of a semaphore, in the lists of `TagLists`. Each
event leaves the state that the step function prescribes and lists that are well formed, share no
node and hold just the queues of that state. The main results are about every run from the state that
`system_thread_init` leaves: mutual exclusion with re-entrancy, no lost wakeup, the scheduler's
queues, the code's own assertions, a bound on waiting, and the exact length of a time slice. Mutual
exclusion is stated in terms of what happened in the run (completed `sem_down`s minus `sem_up`s), not of
the fields of the lock.

**Lists and bitmaps** (`IntrusiveLists`, `Bitmaps`). The pointer-level list with its two sentinels
refines a sequence; the bitmap search is first fit.

**Pages and address spaces** (`Paging`, `AddressSpaces`, `PageBooks`, `PageCounts`, `PageShortage`,
`PageRelease`, `PageStates`, `PageTaking`, `PageGiving`, `PageRuns`, `PagePools`, `PageExamples`,
`PageSystem`, `PoolLayout`, `PageManager`, `UserProcess`). Physical memory is a sequence of 4 KB frames;
`Paging.Walk` is the two-level translation of section 4.3 of the Intel SDM, Volume 3A, and
`Paging.UserWalk` what section 4.6 allows of it in user mode. `PageManager.Manager` runs
`page_table_add`, `malloc_pages` and `free_pages`, reading and writing page tables only through
virtual addresses of the self-map. `PageBooks` and `PageRelease` say what these do to memory and
bitmaps, and `PageRuns` what holds over every run of them: which bits are set, which frames are taken
and which pages are mapped is accounted for at every moment, relative to the start. How a request ends
is read off the state before it: `PageCounts` counts free frames and missing page tables.
`PagePools.PagePool` runs the manager and keeps the account. `AddressSpaces` says what all page
directories share in every reachable state, and `PageSystem` that at every moment each frame of the two
pools is free, a page of data, a directory or a page table, in all address spaces together.

**The heap** (`RamLists`, `Arenas`, `ArenaLists`, `ArenaSteps`, `Heap`). `Heap.Allocator` runs
`sys_malloc` and `sys_free` on words of memory: arena headers, and free lists whose links lie inside
the free blocks. A region is live from the `sys_malloc` that returned it to the `sys_free` that took
it back; which regions are live is read off the memory layout, and each call changes that set by
exactly one region and no byte of another. Pages come from `PagePools.PagePool`, so that each outcome
of `malloc_pages` and `free_pages` is an outcome of the heap's calls, with its exact condition.

**Disk and inodes** (`Ide`, `Layout`, `Inodes`, `OpenInodes`, `IoQueue`). Sector transfers in chunks
through the registers of an ATA channel, the layout numbers of a formatted partition, inode records on
disk with `inode_sync` and `inode_open`, the list of open inodes over every run of opens and closes,
and the keyboard's ring buffer.

## Where the code departs from its intent

- `bitmap_scan` looks at one bit more than the bitmap has (lib/bitmap.c:39-63). `Bitmaps.ScanExact`
  says when the answer is wrong, `Bitmaps.ScanLeavesBitmap` gives a bitmap for which it is.
- `pfree` and `free_pages` compare with `>` at the first user frame (kernel/memory.c:436,492), and
  `free_pages` reads, after its last page, the page-table entry of the page behind, which is a page
  fault where a 4 MB region has no page table (kernel/memory.c:501,515). So the release of an allocation
  stops on a failed assertion exactly when it starts with the first user frame, and otherwise faults
  exactly when the page behind it has no page table: `PageRelease.FreeUndoesMalloc`,
  `PageGiving.ReleaseOutcome`, and for `sys_free` `Heap.Allocator.SysFree`. `PageExamples.Examples` has an
  input for each, `Heap.LargeFreeFaults` the request `malloc(3899392)` of a new process. In the kernel heap
  neither happens: `PageGiving.KernelReleases`.
- `mem_pool_init` keeps page counts in 16 bits (kernel/memory.c:39-41): from 514 MB on frames are lost, and with
  514 MB all of them. `PoolLayout.InitPoolsShare`, `PoolLayout.LargeMemoryLost`.
- A large `sys_malloc` rounds up without the header (kernel/memory.c:354,372): `Heap.LargeCovers`,
  `Heap.LargeFallsShort`. The rounding also wraps for sizes above 0xfffff000.
- `malloc_pages` does not roll back (kernel/memory.c:228-230). A request for n pages runs out of frames
  exactly when fewer than n frames of the pool are free (`PageCounts.GrowExactly`); then all of them are
  gone, and the pages of the run with them (`PageTaking.RefusedTakesAll`). So an answer of 0 leaves the
  virtual bitmap as it was exactly when no run of free bits was found, and the pools exactly when there was
  no such run or no free frame. `PageExamples.RefusedExample` is a process that loses a frame and two pages.
- `page_table_add` does not notice that `palloc` has no frame for a page table, and makes frame 0 one
  (kernel/memory.c:202). The first table there does the pages no harm; the second wipes it. What
  `malloc_pages` promises of the pages of a process holds if and only if the pages that there are frames for
  lack at most as many page tables as the kernel pool has frames, and one more if frame 0 is not yet a
  page table of the process (`PageCounts.UserCounts`, `PageShortage.PagesKeptIff`). Beyond that an assertion
  fails, or two pages lie in one frame: `PageShortage.FirstPageLost`, and `PageExamples.LostExample`, where
  `malloc_pages` returns an address at which nothing is mapped. Between processes it is the same with one
  frame 0 for all of them: `PageSystem.KeptHereIff`.
- The loader puts one page table into entries 0 and 768 of the first directory
  (boot/loader.asm:135-142): `AddressSpaces.LowAlias`. `Paging.MapAloneIff` says in general when
  mapping a page changes no other.
- `data_start_lba` is computed from the wrong field (fs/fs.c:40): `Layout.StoredDataStart`,
  `Layout.StoredDataStartFails`.
- A record that ends with its sector makes `inode_locate` read one sector more than it needs
  (fs/inode.c:15): `Inodes.LastRecordReadsOn`.
- The assertion of `thread_yield` looks for the pcb instead of its tag in the ready list
  (thread/thread.c:216), so it always passes, and the model has no assertion there.

## Model

| member | source | states |
|---|---|---|
| ThreadRuns.MutualExclusion | thread/sync.c:19-87 | in every state of every run: at most one thread has completed a sem_down on a lock without its sem_up; value is 0 exactly when there is one; holder is null or that thread, also before holder is written; outside the calls holder_repeat_num is the owner's nesting depth |
| ThreadRuns.NoLostWakeup | thread/sync.c:22-31 | a semaphore with value 1 and waiters always has a thread that left its waiter list, is running or ready, and has yet to test value again |
| ThreadRuns.SchedulerQueues | thread/thread.c:113-149 | exactly one thread is RUNNING, the current one; READY means on the ready list, once; waiters are BLOCKED, and a general_tag is in at most one list, at most once |
| ThreadRuns.AssertionsHold | thread/thread.c:113-192 | in a run without misuse no assertion of the scheduler, the semaphores or the lock fails, and schedule always finds a thread |
| ThreadRuns.RunInvariant | thread/thread.c:113-221 | every state that a run reaches without a failed assertion satisfies the invariant |
| ThreadRuns.Preemptible | thread/sync.c:57-87 | in every state of every run the timer can interrupt outside the calls and before every statement of lock_acquire and lock_release |
| ThreadRuns.EntriesInside | thread/sync.c:57-87 | sem_downs completed minus sem_ups by a thread on a lock are 1 while its program counter and depth say it is inside, else 0 |
| ThreadPreservation.EventOk | thread/sync.c:19-87 | each event fails an assertion exactly when it is a misuse of the interface, and otherwise keeps the invariant |
| ThreadPreservation.DownBlockedOk | thread/sync.c:22-30 | a sem_down of 0, which suspends the caller among the waiters, fails no assertion and keeps the invariant |
| ThreadPreservation.DownFreeOk | thread/sync.c:31-33 | a sem_down of 1, which for a lock makes the caller the owner before holder says so, fails no assertion and keeps the invariant |
| ThreadPreservation.SuspendOk | thread/thread.c:162-174 | thread_lock outside sem_down, and of the idle thread, keeps the invariant |
| ThreadPreservation.WakeOk | thread/thread.c:176-192 | thread_unlock of a suspended thread keeps the invariant |
| ThreadPreservation.MisuseFails | thread/sync.c:77-77 | misuse, such as a release by a thread that is not the holder, always stops on an assertion |
| ThreadInvariant.ScheduleOk | thread/thread.c:113-149 | schedule fails no assertion, since idle is blocked when the ready list is empty, and changes only statuses and queues |
| BoundedWaiting.BoundedWait | device/timer.c:23-43 | while a thread waits and nothing is unlocked, fewer timer interrupts than its rank pass, over any stretch of a run |
| BoundedWaiting.RankStep | thread/thread.c:113-149 | the rank, current ticks + 1 plus ticks + 1 of those ahead, falls by one per timer interrupt, rises on no other event but an unlock, and is 0 when the thread runs |
| TimeSlices.TimerClocks | device/timer.c:34-43 | a timer interrupt counts one elapsed tick of the current thread, modulo 2^32; with ticks left it takes one and the thread runs on, without it the thread gets its priority as ticks and goes behind all ready threads; no other clock moves |
| TimeSlices.EventClocks | thread/thread.c:113-149 | no other event moves the priority, the ticks or the elapsed ticks of a thread |
| TimeSlices.StartClock | thread/thread.c:66-68 | a new thread has its priority as ticks, no elapsed ticks, and is the last of the ready list |
| TimeSlices.SliceLength | thread/thread.c:119-126 | from the end of one slice of a thread to the end of its next, exactly priority + 1 timer interrupts meet it, over any stretch of a run |
| TimeSlices.RunsItsSlice | thread/thread.c:119-126 | a thread dispatched after its slice ended, which neither suspends nor yields while others are ready, is switched away after exactly priority + 1 timer interrupts |
| TimeSlices.ElapsedCounts | device/timer.c:34-34 | over any stretch of a run elapsed_ticks grows by the number of timer interrupts that met the thread, modulo 2^32 |
| Kernel.Machine.HandleEvent | thread/thread.c:113-221 | one event with mutable fields and pointer lists, in any state a run can reach: the step of the step system, stopped exactly on misuse; afterwards the ready list and all waiter lists are well formed again, no two share a node, and they hold just the tags of the new state's queues, in order |
| Kernel.Start | thread/thread.c:151-160 | the machine starts in the given initial state, with well formed lists |
| Kernel.QueuesApart | thread/sync.c:22-31 | in a reachable state the tag of the running thread is in no list, and that of a thread outside the loop of sem_down in no waiter list, so that every append and push finds its tag unlinked |
| TagLists.Lists.AllApart | thread/thread.h:86-86 | two of the lists never share a node |
| TagLists.Lists.Append | lib/kernel/list.c:27-30 | appending the tag of a thread that is in no list: that queue gains it, all other lists keep all their pointers' order and stay well formed |
| TagLists.Lists.Push | lib/kernel/list.c:22-25 | likewise at the front |
| TagLists.Lists.Pop | thread/thread.c:138-140 | list_pop and get_pcb give the first thread of the queue, whose tag is then in no list; the others stay well formed |
| IntrusiveLists.List.InsertBefore | lib/kernel/list.c:11-20 | on a well-linked list, inserts into the sequence and writes no pointer but four |
| IntrusiveLists.List.Push | lib/kernel/list.c:22-25 | prepends |
| IntrusiveLists.List.Append | lib/kernel/list.c:27-30 | appends |
| IntrusiveLists.List.Remove | lib/kernel/list.c:32-38 | deletes exactly that element, which keeps its own pointers |
| IntrusiveLists.List.Pop | lib/kernel/list.c:40-45 | removes and returns the first element |
| IntrusiveLists.List.Find | lib/kernel/list.c:47-57 | terminates, and finds exactly the members |
| IntrusiveLists.List.Len | lib/kernel/list.c:59-69 | terminates with the length of the sequence |
| IntrusiveLists.List.IsEmpty | lib/kernel/list.c:71-74 | true exactly for the empty sequence |
| IntrusiveLists.MoveFirst | thread/sync.c:41-51 | the pop from one list and push to another leave both well linked and disjoint, so one tag per thread is enough |
| IntrusiveLists.AppendThenRemove | lib/kernel/list.c:27-38 | removing what was just appended restores every pointer |
| Bitmaps.Bitmap.Init | lib/bitmap.c:5-8 | clears the bits of the bitmap and no other |
| Bitmaps.Bitmap.ScanTest | lib/bitmap.c:10-15 | nonzero exactly for a set bit |
| Bitmaps.Bitmap.Scan | lib/bitmap.c:17-65 | for one bit exact first fit inside the bitmap; for more, exact first fit over one bit more than the bitmap has; -1 exactly when there is no such run |
| Bitmaps.ScanExact | lib/bitmap.c:39-63 | the answer is first fit inside the bitmap if and only if it is not the case that the bitmap ends in cnt - 1 free bits, has no other run, and a zero bit follows |
| Bitmaps.ScanLeavesBitmap | lib/bitmap.c:39-63 | a bitmap of one byte for which a run that leaves it is reported |
| Bitmaps.Bitmap.Set | lib/bitmap.c:67-82 | changes exactly one bit |
| Bitmaps.SetBitAt | lib/bitmap.c:70-79 | the byte update by mask changes bit index and no other |
| Paging.PdeIsPteTwice | kernel/memory.c:144-158 | pde_addr is pte_addr twice |
| AddressBits.PteBitsValue | kernel/memory.c:144-152 | for every 32-bit address the number that the C expression of pte_addr gives, bit by bit, is Paging.PteAddr of the number of the address |
| AddressBits.PdeBitsValue | kernel/memory.c:154-158 | and pde_addr is Paging.PdeAddr |
| AddressBits.PdeBitsTwice | kernel/memory.c:144-158 | pde_addr is pte_addr twice, on 32-bit vectors |
| Paging.SelfMapPte | kernel/memory.c:144-152 | under a directory that maps itself, pte_addr(v) translates to the page-table entry of v |
| Paging.SelfMapPde | kernel/memory.c:154-158 | and pde_addr(v) to the directory entry of v |
| Paging.MapTranslates | kernel/memory.c:177-208 | after page_table_add(v, p) every address v + o of the page translates to p + o |
| Paging.MapUsable | kernel/memory.c:184-207 | after page_table_add, user mode can read, and write, every byte of the page if and only if the page table is new or the directory entry that was there allows it |
| Paging.EntryBits | kernel/memory.c:191-207 | an entry has the bits P, R/W and U/S and no other below the frame |
| Paging.MapFrame | kernel/memory.c:184-197 | with a page table present, the translation of any address in any directory changes exactly when it goes through the same word of the same table |
| Paging.MapFrameNewTable | kernel/memory.c:199-207 | with a new page table in a frame that was none, the page of v is mapped, the table shows in the self-map window, and no other translation changes |
| Paging.MapAloneIff | kernel/memory.c:184-197 | mapping v changes nothing else if and only if no other directory entry holds the page table of v |
| AddressSpaces.KernelHalfInvariant | userprog/process.c:64-82 | in every state reached from boot by mapping, unmapping, new directories and data writes, all directories hold the same present entries 768..1022, and their page tables are apart |
| AddressSpaces.KernelSeenAlike | userprog/process.c:74-77 | a kernel address translates alike in every address space |
| AddressSpaces.KernelMapSeenByAll | kernel/memory.c:184-191 | a kernel page mapped in one process is mapped, to the same frame, in all |
| AddressSpaces.UserMapIsPrivate | kernel/memory.c:177-208 | a page mapped below 0xc0000000 changes no other address space and no other page of its own |
| AddressSpaces.TablesOnce | boot/loader.asm:159-172 | no page table is in two entries of one directory, entry 0 aside |
| AddressSpaces.BootInv | boot/loader.asm:126-173 | the tables the loader leaves satisfy the invariant |
| AddressSpaces.BootTranslates | boot/loader.asm:135-172 | the loader maps the first MB at 0 and at 0xc0000000 and nothing else below the self-map; its page tables lie one behind the other behind the directory |
| AddressSpaces.LowAlias | boot/loader.asm:135-142 | in the first directory the first page of the kernel heap is also mapped at 0x00100000 |
| UserProcess.CreatePageDir | userprog/process.c:64-82 | create_page_dir fails no assertion, and memory becomes the mapping of a free frame followed by its installation as a directory |
| UserProcess.FillPageDir | userprog/process.c:74-80 | the writes to the new page leave the current kernel entries, the directory itself at the end, in an entry open to the user, and zeros |
| UserProcess.NewProcess | userprog/process.c:64-82 | the invariant of the address spaces holds with the new directory, its kernel half shows what the others show, and its lower half is empty |
| UserProcess.SpaceIsGood | kernel/memory.c:177-208 | that invariant gives the page allocator what it needs of a directory |
| UserProcess.KernelNeedsNoTable | kernel/memory.c:184-191 | malloc_pages never makes a page table for the kernel half, and gets to its end if and only if there are n free frames |
| PageSystem.FreshFromPalloc | kernel/memory.c:160-175 | in every state reached from boot by malloc_pages with page tables enough, free_pages, new address spaces and data writes, in any address spaces: a frame that palloc can hand out is no directory and no page table anywhere, and every address space is one the allocator can work in |
| PageSystem.FramesAccounted | kernel/memory.c:160-175 | in every such state, of both pools and all address spaces: a frame is free exactly when it was free after boot and is now no page of data, no directory and no page table of any address space, and none is two of these |
| PageSystem.KeptHereIff | kernel/memory.c:199-207 | malloc_pages in a process keeps the invariant of all address spaces if and only if the missing page tables are at most the free kernel frames, and one more while frame 0 is a page table nowhere |
| PageSystem.GrowInv | kernel/memory.c:210-244 | with page tables enough, malloc_pages in any address space, also when it runs out of frames, fails no assertion, keeps directories, page tables and pages of data apart from each other and from the free frames, and keeps the account of all frames |
| PageSystem.ReleaseInv | kernel/memory.c:482-520 | free_pages of pages of data keeps them apart, too |
| PageSystem.ReleaseAccounted | kernel/memory.c:482-520 | and the account: exactly the frames of these pages are free again |
| PageSystem.NewProcessFrame | userprog/process.c:64-82 | with a frame that palloc can hand out, and no other hypothesis on it, the new address space satisfies what NewProcess states |
| PageManager.Memory.LoadPte | kernel/memory.c:180-187 | the word read through pte_addr is the page-table entry of v |
| PageManager.Memory.StorePde | kernel/memory.c:203-203 | the word written through pde_addr is the directory entry of v |
| PageManager.Memory.ClearTable | kernel/memory.c:204-204 | the memset through the self-map clears exactly the frame of the page table |
| PageManager.Memory.AddrVirtualToPhy | kernel/memory.c:296-300 | agrees with the translation by the processor wherever the page is present |
| PageManager.Memory.PageTablePteRemove | kernel/memory.c:472-480 | clears the present bit of the entry of v; all other bits of the entry and all other words of memory stay |
| PageManager.Pool.Palloc | kernel/memory.c:160-175 | takes the first free frame, or returns 0 and changes nothing when there is none |
| PageManager.VirtualAddrs.SetRun | kernel/memory.c:105-109 | sets exactly the bits of the run |
| PageManager.RunSetBack | kernel/memory.c:465-469 | clearing the bits of a run that was free brings the bitmap back |
| PageManager.Manager.VaddrGetPages | kernel/memory.c:92-142 | the address of the first run of free bits, whose bits are set, or 0; the user assertion |
| PageManager.Manager.AddPage | kernel/memory.c:177-208 | through the self-map alone, does what PageTableAdd says; fails its first assertion exactly when the page is mapped, its second never; afterwards user mode can write every byte of the page, unless the directory entry that was there forbids it |
| PageManager.Manager.MallocPages | kernel/memory.c:210-244 | the run of pages that bitmap_scan finds; memory, pools and outcome (address, 0 without roll-back, failed assertion) are those of PageBooks.Grow, and the page tables put into frame 0 are counted |
| PageManager.Manager.PfreeFrame | kernel/memory.c:433-447 | clears the one bit that the comparison as written selects |
| PageManager.Manager.ReleasePages | kernel/memory.c:482-520 | memory, pools and outcome (done, failed assertion, page fault, a bit behind the user bitmap) are those of PageRelease.FreePages, and exactly the bits of the run are cleared |
| PageBooks.PallocTakes | kernel/memory.c:160-175 | the frame handed out was free, and no other frame stops being free |
| PageBooks.GrowProgress | kernel/memory.c:210-244 | while no second page table gets into frame 0, malloc_pages fails no assertion; its pages, or those it got to before it ran out of frames, are mapped one by one to distinct frames that were free, every other page is as before, and the pools lack exactly the frames used for pages and page tables |
| PageCounts.UserCounts | kernel/memory.c:199-207 | for a process that is so if and only if, in the state before the call, the pages that there are frames for lack no more page tables than the kernel pool has frames, and one for frame 0 if it is none yet |
| PageCounts.GrowExactly | kernel/memory.c:224-230 | then malloc_pages of n pages gets to its end if and only if n frames are free, and otherwise takes all of them; it makes exactly the missing page tables, and puts those beyond the free kernel frames into frame 0 |
| PageShortage.PagesKeptIff | kernel/memory.c:199-207 | what GrowProgress promises of a process holds if and only if the page tables suffice; when they do not, an assertion fails or two pages of the process lie in one frame |
| PageShortage.FirstPageLost | kernel/memory.c:199-207 | two pages on either side of a 4 MB boundary, no page table for them and no kernel frame: malloc_pages gets to its end, and the first page is not mapped |
| PageRelease.RemovePage | kernel/memory.c:472-480 | removing one page changes the translation of that page only |
| PageRelease.PfreeFrees | kernel/memory.c:433-447 | after pfree exactly that frame is free in addition, unless it is the first of the user pool, which stays taken |
| PageRelease.ReleaseOnePage | kernel/memory.c:482-520 | free_pages of any one page: which frames and page tables make it fault, stop, or clear a bit behind the user bitmap, and that otherwise exactly the page and its frame go |
| PageRelease.StopsAtStranger | kernel/memory.c:495-511 | a page whose frame is of the other pool, or of none, stops the release of the whole run |
| PageRelease.ShrinkReturns | kernel/memory.c:482-520 | the loop gives back page after page, and gets to its end exactly when the page behind the run has a page table |
| PageRelease.FreeUndoesMalloc | kernel/memory.c:482-520 | with frames and page tables enough before malloc_pages, the free_pages after it fails an assertion if and only if the first user frame was free before; else faults if and only if the run ends with a 4 MB region and the next has no page table; else completes, and every page and both bitmaps are as before, but for new page tables |
| PageGiving.ReleaseOutcome | kernel/memory.c:482-520 | the same three outcomes, with their exact conditions, for a live allocation at any time of any run; a completed release takes away exactly that allocation |
| PageGiving.KernelReleases | kernel/memory.c:507-519 | free_pages of a live allocation of the kernel heap always completes |
| PageTaking.MallocInv | kernel/memory.c:210-244 | with page tables enough, malloc_pages, served or out of frames, keeps all allocations mapped, held and pairwise apart |
| PageTaking.MallocSince | kernel/memory.c:210-244 | and the account of bits, frames and pages since the start |
| PageTaking.RefusedTakesAll | kernel/memory.c:228-230 | a request for more pages than there are free frames leaves no frame in the pool and loses the whole run of pages; the books are as before exactly when there was no frame |
| PageGiving.ReleaseInv | kernel/memory.c:482-520 | free_pages keeps the allocations that are left |
| PageGiving.ReleaseSince | kernel/memory.c:482-520 | and the account |
| PageRuns.RunInvariant | kernel/memory.c:210-244 | over every run of malloc_pages with page tables enough, also those that run out of frames, and free_pages, in any order: the allocations are mapped, held and pairwise apart, free bits stand for unmapped pages, and the account is right |
| PageRuns.Account | kernel/memory.c:433-470 | at any time of any run: a bit is set exactly when it was set at the start or its page is in a live or a lost allocation; a frame is free exactly when it was free at the start, is behind no such page and is no page table made since |
| PageRuns.AllReturned | kernel/memory.c:433-470 | when all allocations have been returned, in any order, and none was lost, the virtual bitmap, the user pool and every page are as at the start, and the kernel pool but for new page tables; for the kernel heap it is the same |
| PageRuns.NoSharing | kernel/memory.c:210-244 | two pages of live allocations are never in the same frame |
| PageRuns.LiveUsable | kernel/memory.c:210-244 | at any time of any run user mode can read and write every byte of a live allocation |
| PageRuns.Releasable | kernel/memory.c:482-520 | a live allocation can be released exactly when it does not start with the first user frame and the page behind it has a page table; in the kernel heap always |
| PageRuns.BootStarts | kernel/memory.c:26-82 | the state after mem_init is a start of such runs |
| PoolLayout.InitPoolsOk | kernel/memory.c:29-53 | the two pools lie behind the boot tables and inside memory, apart, less than a byte of the bitmap between them |
| PoolLayout.InitPoolsShare | kernel/memory.c:35-53 | they share all frames behind the boot tables but at most fourteen, half and half, if and only if these are fewer than 131071; with more, 65536 or more are lost |
| PoolLayout.LargeMemoryLost | kernel/memory.c:39-41 | with 514 MB both pools are empty |
| PageRuns.ProcessStarts | userprog/process.c:85-93 | so is the state of a process of which nothing is mapped |
| PageRuns.StackStarts | userprog/process.c:27-27 | and that of a process once its stack is mapped, which works when there are a frame and a page table for it; user mode can then write 0xbffff000 to 0xbfffffff |
| PagePools.PagePool.Malloc | kernel/memory.c:210-244 | which of five answers malloc_pages gives, each exactly under its condition on the state before: a failed assertion (the count, or a user run from 0xbffff000 on), no run of free bits, too few page tables (then an assertion fails or two pages share a frame), fewer than n free frames, or the pages; the account of the state it leaves; an answer of 0 changes the virtual bitmap exactly when a run was found, and the pools exactly when there was also a free frame |
| PagePools.PagePool.Free | kernel/memory.c:482-520 | how free_pages ends, and the account of the state it leaves; for the kernel heap it completes |
| PageExamples.FirstStops | kernel/memory.c:507-511 | a first request of a process that is given the first user frame cannot be released: free_pages stops on its assertion |
| PageExamples.FirstFaults | kernel/memory.c:495-503 | one that ends with a 4 MB region behind which nothing is mapped cannot either: free_pages faults |
| PageExamples.Examples | kernel/memory.c:482-520 | two concrete states for this, and the request of 952 pages |
| PageExamples.LostExample | kernel/memory.c:199-207 | a concrete process, with no kernel frame free: its request for two pages is answered with an address, and the first of the pages is not mapped |
| PageExamples.RefusedExample | kernel/memory.c:228-230 | a concrete process that asks for two pages with one frame left, is answered 0, and has lost the frame and both pages |
| RamLists.InsertLinks | lib/kernel/list.c:11-20 | inserting into a list that lies in memory writes four words and nothing else |
| RamLists.RemoveLinks | lib/kernel/list.c:32-38 | removing writes two words and nothing else |
| Arenas.PerArenaFits | kernel/memory.c:302-314 | the number of blocks is what fits behind the header |
| Arenas.BlocksApart | kernel/memory.c:317-322 | blocks of an arena do not overlap |
| Arenas.BlocksInRow | kernel/memory.c:317-322 | the first block lies right behind the header of 12 bytes, each other right behind the one before |
| Arenas.BlockInPage | kernel/memory.c:325-328 | a block lies in the page of its arena behind the header, so that block_to_arena finds the arena |
| Arenas.LiveDisjoint | kernel/memory.c:330-430 | live regions do not overlap |
| Arenas.LiveNotFree | kernel/memory.c:330-430 | nor do they overlap a block of a free list |
| Arenas.LiveInArena | kernel/memory.c:317-328 | a live region lies inside the pages of its arena, behind the header |
| Arenas.NothingLiveNothingHeld | kernel/memory.c:555-571 | there are arenas exactly while something is live |
| ArenaLists.AppendBlock | kernel/memory.c:557-557 | a freed block enters its list; every other list stays linked, and no word changes outside that list and the block |
| ArenaLists.RemoveBlock | kernel/memory.c:563-569 | a block leaves its list, likewise |
| ArenaSteps.PageWrite | kernel/memory.c:398-402 | writing to pages that no arena owns disturbs no list, no header and no live byte |
| ArenaSteps.EnteredCount | kernel/memory.c:557-558 | after list_append and cnt + 1 the count is the number of free blocks of the arena again |
| ArenaSteps.LeftCount | kernel/memory.c:421-425 | after list_pop and cnt - 1 too, and the count was at least 1 |
| ArenaSteps.SplitStep | kernel/memory.c:408-415 | one more block of a new arena is in the list, no live byte changed |
| ArenaSteps.DrainStep | kernel/memory.c:563-569 | one block fewer of a free arena is in the list, no live byte changed |
| ArenaSteps.Drained | kernel/memory.c:559-571 | with all its blocks out the arena goes, and the same regions are live as before |
| Heap.Allocator.BlockDesInit | kernel/memory.c:302-314 | seven descriptors with empty lists: the invariant of a heap without arenas |
| Heap.Allocator.SysMalloc | kernel/memory.c:330-430 | a request that a free list can meet is met, any other is answered exactly as malloc_pages answers for the pages of its arena: a pointer, no memory (no run of free bits, or fewer free frames than pages), too few page tables (then malloc_pages failed an assertion or put two pages into one frame), or else a failed assertion, which happens if and only if the count is 0 or 3840 and more or a user run starts at or above 0xbffff000; a pointer is a new live region, all zero, of the smallest of the seven sizes that is large enough, or of pages that the request without header fills, less the header; it is the first block of its free list, or lies behind the header of the pages that bitmap_scan found; exactly that region becomes live and no byte of another changes |
| Heap.Allocator.SysFree | kernel/memory.c:522-574 | a region that is not the last of its arena: the call completes, and the block is the last of its free list; the last one: the call completes if and only if the arena does not start with the first user frame and the page behind it has a page table, stops on an assertion in the first case and faults in the second; in the kernel heap it always completes; on completion exactly the region freed is no longer live, no byte of another changes, and the pages are returned |
| Heap.LargeFreeFaults | kernel/memory.c:548-553 | malloc(3899392) as the first request of a process is served, with 952 pages, and its sys_free faults |
| Heap.LargeFreeExample | kernel/memory.c:548-553 | a concrete process for which it does |
| Heap.Allocator.SplitArena | kernel/memory.c:408-415 | all blocks of the new arena are in the list, each once; the assertion never fails |
| Heap.Allocator.DrainArena | kernel/memory.c:563-569 | all blocks of the arena leave the list; the assertion never fails |
| Heap.Allocator.ElemFindIn | lib/kernel/list.c:47-57 | the walk through memory ends, and finds exactly the blocks of the list |
| Heap.Allocator.FindClass | kernel/memory.c:378-384 | the smallest of the seven classes that is large enough |
| Heap.Allocator.FreeAll | kernel/memory.c:522-574 | freeing all live regions, in any order, gets to its end if and only if every arena can be returned, and always in the kernel heap; then no arena is left, and if no request was refused for want of frames, the virtual bitmap, the user pool and every page are as at the start, and the kernel pool but for new page tables, in the kernel heap exactly |
| Heap.LargeCovers | kernel/memory.c:354-372 | a large region covers the request if and only if (size - 1) % 4096 < 4084 |
| Heap.PagesEnough | kernel/memory.c:354-354 | a large request counts as many pages as its bytes fill, and no page more; above 0xfffff000 it counts none |
| Heap.LargeFallsShort | kernel/memory.c:354-372 | 4096 bytes asked for, 4084 given |
| Ide.DeviceSees | device/ide.c:145-156 | from the five register bytes the device reads a block address, byte by byte, the drive, and the count that were meant, 256 included |
| Ide.DiskAddressable | device/ide.c:39-39 | on the disk of 80 MB every request that lies on the disk passes the assertions on max_lba, and none that starts behind it |
| Ide.Channel.ReadFromSector | device/ide.c:165-177 | the buffer gets the bytes of the sectors that the registers name |
| Ide.Channel.WriteToSector | device/ide.c:179-191 | the drive gets the bytes of the buffer at the sectors that the registers name |
| Ide.Channel.Read | device/ide.c:212-245 | for any number of sectors one bulk copy in order; stops on an assertion exactly when a chunk starts behind max_lba or the count is 0, on the disk of 80 MB exactly when the count is 0 |
| Ide.Channel.Write | device/ide.c:247-282 | likewise into the drive; the other drive and all other sectors stay |
| Ide.WriteThenRead | device/ide.c:212-282 | what was written is read back, every other sector is unchanged |
| Layout.LayoutSound | fs/fs.c:18-42 | for every partition larger than the metadata: the regions follow one another, the data blocks are the free sectors less one for each 4096 or part of them, the block bitmap has a bit for each, data ends in the partition, with at most one wasted sector up to 2^24 sectors |
| Layout.StoredDataStart | fs/fs.c:40-40 | the stored data_start_lba is 1216, and right if and only if start and block bitmap add up to 605 |
| Layout.StoredDataStartFails | fs/fs.c:40-40 | a partition whose stored data start lies in front of it |
| Inodes.Located | fs/inode.c:6-25 | the position found is the byte of record no, the sectors read contain the record, and the 4096 records lie in the inode table |
| Inodes.LastRecordReadsOn | fs/inode.c:15-22 | for the last record a sector behind the inode table is read |
| Inodes.RecordRoundTrip | fs/inode.c:27-53 | the 76 bytes of a record give back its fields |
| Inodes.EncodeLayout | fs/inode.h:7-12 | the 76 bytes of a record are the fields of struct inode at their offsets, lowest byte first: number 0, size 4, count 8, flag 12, sectors from 16, tag 68 and 72 |
| Inodes.DecodeLayout | fs/inode.h:7-12 | and these bytes are what a record is read from |
| Inodes.OtherRecord | fs/inode.c:27-53 | writing one record changes no byte of another |
| Inodes.SyncOpenRoundTrip | fs/inode.c:27-97 | number, size and sectors survive inode_sync and an uncached inode_open; the count, the flag and the tag are zero on disk |
| OpenInodes.Partition.Sync | fs/inode.c:27-53 | stops exactly when the number or the sector is out of range, and else the drive is the old one with that record replaced: byte for byte the fields of the inode, with zeros for count, flag and tag |
| OpenInodes.Partition.OpenFromDisk | fs/inode.c:72-97 | a new inode whose fields are those that the bytes of the record on the drive hold, with count 1, at the end of the list; the disk stays |
| OpenInodes.Partition.Open | fs/inode.c:55-97 | the list and the inode returned are those of the specification: the cached inode with its count raised, or a new one |
| OpenInodes.Partition.Close | fs/inode.c:99-113 | the list is that of the specification: the count lowered, the inode removed when it reaches 0 |
| OpenInodes.Partition.SyncThenOpen | fs/inode.c:27-97 | an inode written back and read from the disk again has the same fields and count 1 |
| OpenInodes.MemInode.Init | fs/inode.c:115-125 | number set, everything else zero |
| OpenInodes.CacheInvariant | fs/inode.c:55-113 | over every run of opens and closes in which no number is opened while it is open 2^32 - 1 times: no number and no inode twice, and each count is opens minus closes, positive |
| OpenInodes.OpenCountsIff | fs/inode.c:65-69 | an open keeps the counts right if and only if its number is not open 2^32 - 1 times already |
| OpenInodes.ReopenSame | fs/inode.c:62-71 | an open of an open number returns the inode already there |
| OpenInodes.LastCloseRemoves | fs/inode.c:102-111 | an inode leaves the list exactly at its last close |
| OpenInodes.CountWraps | fs/inode.c:67-67 | the run of 2^32 opens of one number, with nothing open before, ends with the count 0; one more open and one close take the inode out of the list, with 2^32 opens outstanding |
| IoQueue.RunIsFifo | device/ioqueue.c:11-75 | over any run of non-blocking puts and gets the bytes read are a prefix of the bytes written and the unread ones are the rest |
| IoQueue.FullAndEmpty | device/ioqueue.c:16-25 | full means 63 unread bytes, never more, and empty none |
| IoQueue.Queue.PutChar | device/ioqueue.c:59-75 | appends to the unread bytes, or does nothing when full |
| IoQueue.Queue.GetChar | device/ioqueue.c:41-57 | removes the oldest unread byte, or does nothing when empty |

## Left out

- Boot code, assembly, port I/O, interrupt-controller setup, TSS, GDT, console, keyboard and system-call wrappers: hardware plumbing. `switch_to` is "the current thread changes"; the loader appears as the tables it leaves, with entries it does not write assumed zero.
- TLB: the model translates from memory at each access, so a stale entry cannot be seen.
- ThreadRuns.MutualExclusion: `holder_repeat_num` does not wrap at 2^32 in the model.
- ThreadRuns.AssertionsHold: the stack canary in `intr_timer_handler` and the interrupt-status assertions are not modelled; regions with interrupts off are steps instead. Nor is the walk of the ready list in `thread_start` (thread/thread.c:95), which runs with interrupts on: an element under the walk can be popped and enter another list, and the walk then never meets the tail of the ready list. The model has one atomic append there; `all_thread_list`, walked in line 99, is not modelled.
- Starvation of semaphore waiters: woken threads can be overtaken and `thread_unlock` pushes to the front, so no progress is claimed.
- `thread_start` enters a thread into the model when it is appended to the ready list; building its pcb and `all_thread_list` are not modelled.
- `allocate_next_pid`: it returns `next_pid` after the release, so uniqueness does not hold.
- `ticks_to_sleep` and `busy_wait`: timing only.
- IoQueue.Queue.PutChar: blocking and wake-up are not modelled; the code sleeps holding `io_lock` and passes the wrong argument to `ioq_wakeup`.
- Bitmaps.Bitmap.Scan: the byte behind a bitmap is part of that bitmap's own array, although in memory the kernel's bitmaps lie behind one another.
- PageManager.Manager.PfreeFrame: for the same reason the bit that is cleared for the first user frame is not seen to be the first bit of the user bitmap.
- PageManager.Manager.MallocPages: the allocator is sequential; `malloc_kernel_pages` takes no lock in the code, and `get_a_page` is not modelled; what `mem_pool_init` computes is in `PoolLayout`.
- PageBooks.GrowProgress: of a page table in frame 0 the model says what becomes of the pages; that it also overwrites the loader's descriptor table, which lies in that frame (boot/loader.asm:6, boot/boot.inc:1), is outside of a model of memory without segments.
- PageCounts.GrowExactly: requests to the kernel pool are for pages whose page tables are all there, as those of the kernel half are.
- PagePools.PagePool.Malloc: nothing is said of the account once page tables were too few; two pages are one then.
- PageRuns.RunInvariant: a run is of one virtual pool of one address space that nothing else draws frames from; the frames of all address spaces together are accounted for in `PageSystem`, the bits of a virtual bitmap only here.
- AddressSpaces.KernelHalfInvariant: programs write to frames that are neither directories nor page tables, and kernel threads map kernel addresses only; both are conditions on the steps of a run. That new tables and directories are fresh is a condition there too, which `PageSystem.FreshFromPalloc` derives from the pools.
- UserProcess.NewProcess: that the new frame is fresh is a hypothesis, which `PageSystem.NewProcessFrame` derives.
- Heap.Allocator.SysMalloc: the words of the heap and the physical memory of the page tables are two memories in the model; that writes to pages of data leave all page tables alone is `UserProcess.StoreInPage`.
- Heap.Allocator.SysFree: nothing is said of the heap after a failed assertion or a page fault.
- Heap.Allocator.FindClass: a process has its own seven descriptors; the model is one set of descriptors and one virtual pool at a time.
- Ide.Channel.ReadFromSector: the transfer between device and buffer is one block, and interrupts, `busy_wait` failures and the channel lock are left out.
- OpenInodes.Partition.Open: memory for an inode and its buffer is always found; the code does not check the `sys_malloc` results.
- OpenInodes.CacheInvariant: given that records on disk carry their own number.
- Inodes.SyncOpenRoundTrip: the addresses in `inode_tag` while an inode is in memory; the list of open inodes is a sequence.
- `partition_format` beyond the layout numbers, `partition_scan`, directories, files and `bitmap_sync`: unfinished in the code, or with indexing slips.
- String routines, `itoa` and `vsprintf`: easy members.
