# A verified model of the kernel

This project models, in Dafny, the kernel of a small priority round-robin operating system for ARMv7-A, and proves
properties of whole runs of it. `dafny verify dfyconfig.toml` checks everything.

All handlers run with interrupts masked (`Cpu.WithModeIs` and the paths of `Cpu.Processor`), so a tick or a system call
is one step. The model has three layers.

* **Classes with the source's own fields and loops**: the ready lists (`ReadyLists`), the page and block allocators
  (`Pages`, `Blocks`), the page-table builders (`Mmu`, `PageTables`), the handlers that work on all of them
  (`Handlers`), the two assembler paths of a preemption (`Cpu`), the byte queue (`Queue`), C strings (`Strings`), the
  listing loops (`Listing`, `DirCalls`) and the directory tree (`DirTree`). Each method is proved against a
  specification on values.
* **The specification**: what each handler does to the kernel record (`Sched`, `KernelState`, `Context`), and the
  translation that a first-level page table describes (`Mmu.Walk`, after section B3.5 of the ARM Architecture Reference
  Manual ARMv7-A/R, ARM DDI 0406C).
* **Runs**: `Steps` defines the events (user instructions with an optional store, tick, yield, create, fork, exit, and
  a call that answers in a buffer) and the relation `Reaches`. `Invariants`, `Ownership`, `Scheduling`, `Isolation`,
  `Modes`, `Orderly`, `Resumption`, `ForkCopy` and `Heaps` prove what runs keep, `FirstRuns` how a new task starts, and
  `FailingExit` gives a run that goes wrong.

`Layout` holds the addresses that several modules use, and `Words`, `Seqs`, `DLists`, `Mem`, `Paths` and
`AllocatorRuns` the arithmetic, list, memory, tree and run lemmas that they share. Machine words are bounded integers
with every wrap-around written out; bitwise operations are defined bit by bit. Memory is a sequence of 2^30 words.

The properties to read first are `Isolation.PreemptionIsTransparent`, `Resumption.RoundResumes`,
`Isolation.Isolation`, `Modes.RunKeepsModes`, `Orderly.ProperIsolation`, `Orderly.ProperPreemption`,
`Invariants.RunKeepsInv`, `Ownership.Conservation`, `Scheduling.ExitDecidedByTrace`, `Scheduling.ChosenExactly`,
`Mmu.PteInitRefinesTranslation`, `PageTables.TaskTableWindow`, `ForkCopy.ForkCopies`, `Heaps.BlocksApart`,
`Listing.RoundTrip`, `Queue.PrefixExactly`, `Paths.PathsDifferExactly` and `Paths.DownUp`.

Some of the code does not do what its form suggests. The model follows the code, and these lemmas say exactly when it
is right:

* exit removes a task from its ready list only when it is the last one there: `Invariants.ExitExactlyAtTail` and
  `Scheduling.ExitDecidedByTrace` give the condition, `Scheduling.ExitAfterOwnCreation` the family of runs that fail
  and `FailingExit.ExitFailsFromBoot` one of them;
* the kernel writes with privilege where a task tells it to: its frame at the stack pointer, its answers in a buffer,
  and what `reload_ostick` leaves under the context that is resumed, so that page tables isolate a task only from
  stores: `Isolation.Isolation` has the conditions, `Isolation.PushReachesPage`, `Isolation.BufferReachesPage` and
  `Isolation.ReloadReachesPage` the failing inputs;
* the mode of a task is restored from user memory, so that whoever writes a saved status decides the privilege of the
  task: `Modes.RunKeepsModes` has the condition, `Modes.PushSetsStatus`, `Modes.ForkChildReachesStatus` and
  `Modes.EscapeReachesPage` the failing inputs;
* a forked child may write its parent's whole page, TASK_INFO included, and may do so after the parent has gone:
  `ForkCopy.ForkChildReachesTaskInfo`, `Isolation.GrantsOutlive`;
* a created task starts with a status word whose mode field is reserved: `FirstRuns.CreatedTaskStarts`;
* a read of the IPC queue that asks for too much delivers bytes that nobody wrote: `Queue.PrefixExactly`,
  `Queue.UnderrunFails`;
* `page_num_cal` comes out short for one family of ranges: `Mmu.PageNumExact`, `Mmu.PageNumFails`;
* the kernel block table is indexed in the wrong unit: `Blocks.KblkPlacement`, `Blocks.KblkIndexFails`;
* a block that is freed into an empty list keeps its next field: `Blocks.PageBlocks.Free`;
* `lsdir` cuts names that contain the delimiter: `Listing.RoundTrip`, `Listing.RoundTripFails`;
* sibling directories may share a name, and then paths and `chdir` do not tell them apart: `Paths.PathsDifferExactly`,
  `Paths.UpDown`, `Paths.UpDownFails`.

## Model

| member | source | states |
|---|---|---|
| Isolation.PreemptionIsTransparent | src/kernel/exception.s:43-118 | a live task that a tick or a yield interrupts with its stack pointer in its own page, reload_ostick not reaching the frame it leaves, continues, when it is next chosen, with the same pc, sp, lr, r0-r8, r11, status flags and control bits, after every run, forks included, in which each step spares its page: user code is unprivileged and runs with a table not built for that page, and the kernel writes no frame, no buffer and no words of reload_ostick there |
| Resumption.RoundResumes | src/kernel/task.c:37-92 | from any secure state whose running task is the tail of the first non-empty list and unprivileged, the contexts on that list being in their own pages with such statuses, every choice of as many ticks and yields as the list has tasks is a possible run, ends with that task current again and the list as it was, and the task continues where it was interrupted |
| Resumption.SwitchLeavesRoom | src/kernel/task_asm.s:84-88 | a task that was just switched to can be interrupted again at once: its stack pointer is just above the context it was resumed from |
| Resumption.ShellResumes | src/kernel/task_asm.s:23-59 | the booted shell continues after any tick or yield, for every stack pointer with room for a frame in its page and every unprivileged, unmasked status; the first context, past which first_run leaves it, is such a place |
| Isolation.Isolation | src/kernel/mmu.c:229-263 | in every run, forks included, in which each step spares a live task t, that is t does not run, user code is unprivileged and was not granted the page of t, and no frame, no buffer and nothing that reload_ostick writes goes into it: the page and the saved context address of t, its being live, and every private word of its page stay as they are, but for the 16 bytes under its context once it is resumed itself |
| Isolation.IsolationWithoutForks | src/kernel/mmu.c:229-263 | where every table was built for one page, as after boot: in every run without forks in which t does not run, user code is unprivileged, and the kernel writes nothing into the page of t, t is isolated whatever the others store |
| Isolation.RunKeepsOwnGrants | src/kernel/task.c:201-221 | without forks every table stays built for the page of its task alone |
| Isolation.OwnGrantsSpare | src/kernel/mmu.c:229-243 | then no unprivileged instruction of another task reaches the page of a live task |
| Isolation.HomePushSpares | src/kernel/exception.s:86-101 | a tick or a call by a task whose stack pointer and buffer are in its own page, and that resumes a task whose context is in its own page, writes nothing into the page of another live task |
| Isolation.PushReachesPage | src/kernel/exception.s:86-101 | a task interrupted with its stack pointer in the private words of the page of another live task overwrites them, whatever its table grants: the condition on pushes cannot be dropped |
| Isolation.ReloadReachesPage | src/kernel/task_asm.s:91-95 | a task resumed from a context in the page of another live task has reload_ostick overwrite words of that page |
| Isolation.BufferReachesPage | src/kernel/syscall.c:241-306 | a call that answers in a buffer in the page of another live task overwrites it, whatever the table of the caller grants |
| Modes.RunKeepsModes | src/kernel/task_asm.s:68-100 | over every run, forks included, in which no step writes the saved status word of another live task, and the return path of calls restores an unprivileged status, user code stays unprivileged and interruptible |
| Modes.PushSetsStatus | src/kernel/task_asm.s:68-100 | a frame pushed so that its r0 lands on the saved status of the task that is chosen next gives that task the mode named by r0 |
| Modes.ForkChildReachesStatus | src/kernel/syscall.c:151-152 | the table of a forked child permits it to write the saved status of its parent |
| Modes.PrivilegedStore | src/kernel/task_asm.s:99-100 | a task in a privileged mode may store to any private word of any page, whatever its table was built for |
| Modes.EscapeReachesPage | src/kernel/task_asm.s:68-100 | so two steps break isolation: the pushed r0 makes the next task privileged, and its store changes the page of a third |
| Orderly.BootIsSettled | src/kernel/main.c:62-100 | the booted system has tables for one page each, contexts in their own pages and unprivileged statuses |
| Orderly.RunKeepsSettled | src/kernel/task.c:82-92 | every run without forks in which tasks enter the kernel with stack pointer and buffer in their own page, and the return path restores an unprivileged status, keeps that, whatever user code stores |
| Orderly.ProperIsolation | src/kernel/mmu.c:229-263 | in such a run a live task that does not run is isolated: its context and its private words stay what they are |
| Orderly.ProperPreemption | src/kernel/exception.s:43-118 | and no task notices that it was preempted: it continues with its own registers |
| PageTables.PrivilegedWindow | src/kernel/exception.s:100-101 | no entry of a task table in the DRAM window stops a privileged write: the push lands wherever the stack pointer says |
| Isolation.GrantsOutlive | src/kernel/syscall.c:151-152 | the section of its parent that a child was granted stays granted over any run, also after the parent has exited and its page was given to another task |
| Isolation.PermittedStore | src/kernel/mmu.c:229-243 | of the stores of unprivileged code that the active table permits in the DRAM window, runs leave out exactly those to a TASK_INFO or to block descriptors |
| Isolation.PermittedLoad | src/kernel/mmu.c:229-243 | in every state with those properties unprivileged code can read, in the DRAM window, exactly the kernel image and the pages its table was built for |
| Isolation.RunKeepsSecure | src/kernel/task.c:82-92 | every run keeps: the invariants, a page table for each live task that grants exactly the sections it was built for and nothing else in the DRAM window, the active table being that of the current task, and the page of a task that has exited but still runs being free |
| Isolation.BootIsSecure | src/kernel/main.c:62-100 | the state that run_first_sched hands to the shell has these properties, whatever memory held before |
| Isolation.StepWrites | src/kernel/syscall.c:38-43 | no step writes any word but: user code the word it stores to; the kernel the frame it pushes, in a creation or a fork the page and the kernel block it takes, in another call the caller's buffer, and in a switch the 16 bytes under the context that is resumed |
| Isolation.StoreWrites | src/kernel/mmu.c:229-243 | a permitted store in the DRAM window goes to the address it names; that of unprivileged code to a section granted to the running task |
| Isolation.StepKeepsTask | src/kernel/task.c:154-188 | a step keeps page and table of every task, and the saved context of every task but the running one |
| Isolation.SwitchSaves | src/kernel/interrupt.c:228-234 | a switch leaves the frame of the running task on its stack, at the address recorded in its TASK_INFO, if the context it resumes is not within 16 bytes above it |
| Invariants.StepKeepsInv | src/kernel/task.c:37-56 | every step keeps the whole invariant: each live task once, in the list of its priority; every waiting task READY; pages and kernel blocks partitioned and owned one to one; saved contexts in place |
| Invariants.RunKeepsInv | src/kernel/syscall.c:38-43 | so does every run, forks included; in a run no store and no pushed frame reaches a TASK_INFO or block descriptors, of whatever page |
| Ownership.BootKeepsInv | src/kernel/main.c:62-82 | and the booted system starts with it, with the shell alone on the last list |
| Invariants.Progress | src/kernel/task.c:37-56 | choose_task always returns: an enabled step can always be taken |
| Invariants.PickFirstNonEmpty | src/kernel/task.c:39-54 | where the queued tasks are READY, choose_task settles on the first non-empty list |
| Invariants.SwitchEffect | src/kernel/task.c:82-92 | what a tick or a yield changes: one list is rotated, its head becomes current and RUNNING, the task that ran is READY, and the table of the chosen task is active |
| Invariants.AdmitKeepsInv | src/kernel/task.c:201-221 | a creation keeps the invariant |
| Invariants.ExitKeepsInv | src/kernel/syscall.c:79-94 | an exit of the tail of a list keeps the invariant |
| Invariants.ExitExactlyAtTail | src/kernel/task.c:296-321 | an exit keeps the invariant if and only if the task is the tail of its list: task_pop removes nothing else |
| Ownership.ExitReleases | src/kernel/syscall.c:79-94 | an exit marks the task TERMINATE, puts its page and the block of its table, and no other, at the end of the free lists, touches no other task, and leaves the task current on its own table |
| Invariants.OwnPageFound | src/kernel/memory.c:327-340 | which_page(stk_bottom) of a live task is the page it was given |
| Invariants.ForkContextPlaced | src/kernel/syscall.c:128-130 | the child's context lies at the parent's offset in the child's own page, clear of TASK_INFO and block descriptors |
| Ownership.PagesAreOwned | src/kernel/syscall.c:79-182 | in every state with the invariant, each in-use page except that of the path tree belongs to exactly one live task |
| Ownership.BlocksAreOwned | src/kernel/mmu.c:229-243 | and each allocated kernel block except that of the IPC queue is the page table of exactly one live task |
| Ownership.Conservation | src/kernel/syscall.c:79-182 | over any run, in-use pages and kernel blocks number the live tasks plus one, and both change by creations and forks minus exits |
| Scheduling.SwitchChooses | src/kernel/task.c:37-56 | a decision runs the head of the lowest-numbered non-empty list and moves it to the tail |
| Scheduling.Waiting | src/kernel/task.c:37-56 | with nothing created at higher priority, a task at position i waits at position i - d after d decisions, whatever is created below or beside it and whoever exits |
| Scheduling.ChosenExactly | src/kernel/task.c:37-56 | it is chosen by decision number i + 1 and by none before |
| Scheduling.RoundRobin | src/kernel/task.c:37-56 | d decisions over an undisturbed first list turn it by d places and run its d-th task |
| Scheduling.FullRound | src/kernel/task.c:37-56 | as many decisions as the list has tasks run each once, in list order, and restore the list: after d of them the d-th task of the list is current |
| Scheduling.DistanceFromTail | src/kernel/task.c:245-266 | in every run, the running task has behind it on its list exactly the tasks enqueued at its priority since it was chosen |
| Scheduling.ExitDecidedByTrace | src/kernel/task.c:296-321 | so it is the tail exactly when none was enqueued, and an exit keeps the system's invariant exactly then |
| Scheduling.ExitAfterOwnCreation | src/kernel/syscall.c:79-94 | the family of runs in which exit fails: a task that creates one of its own priority and then exits stays on the ready list while its page is on the free list |
| FailingExit.ExitFailsFromBoot | src/kernel/syscall.c:79-94 | a run of three steps from boot that ends in that family: its exit breaks the invariant and leaves the task listed with its page free |
| Scheduling.NeverChosenAgain | src/kernel/syscall.c:79-94 | a task that has exited is on no list and no later decision chooses it |
| Scheduling.TickMarksExitedReady | src/kernel/interrupt.c:232-234 | although the tick that follows marks it READY |
| ForkCopy.ForkCopies | src/kernel/syscall.c:108-153 | the child is READY at its parent's priority; its stack equals the parent's beyond TASK_INFO except in the r0 slots; its context is at the same offset and holds the parent's registers, r0 being 0 in the child and the child's id in the parent |
| ForkCopy.ForkShares | src/kernel/syscall.c:151-152 | in the DRAM window the child may write its own page and the parent's, and nothing else |
| ForkCopy.ForkChildReachesTaskInfo | src/kernel/syscall.c:151-152 | the table of a forked child permits such a store: to the TASK_INFO of its parent |
| FirstRuns.ForkedChildStarts | src/kernel/syscall.c:108-153 | a forked child that is chosen for the first time continues as its parent at the fork, with r0 = 0 and its stack pointer at the same offset in its own page, after any run that spared it |
| FirstRuns.CreatedTaskStarts | src/kernel/task.c:154-188 | a created task that is chosen for the first time, after any run that spared it, starts at its entry point with r0-r8, r11 and lr zero and sp past its first context, unless the r0 slot of its creator lay in that context; its status word is zero in flags and control bits, so its mode field is a reserved one |
| FirstRuns.CreatorAnswered | src/kernel/syscall.c:157-182 | the creator finds the id of the new task in its r0 slot, and the rest of its context as it was pushed unless that lies in the stack that is cleared |
| FirstRuns.ShellFrame | src/kernel/main.c:82 | after boot, whatever memory held, the 4096 bytes of the shell's stack at 0x82200000 are zero but for its entry point in the r9 slot, and its first context is at 0x82200fc0 |
| FirstRuns.ShellStarts | src/kernel/task_asm.s:23-59 | first_run on that context enters the shell at its entry point, in user mode with interrupts on, the other registers zero and sp at 0x82200ff8 |
| FirstRuns.ClearedStack | src/kernel/task.c:201-209 | of a new task's stack every word is zero but the r9 slot of its first context, which holds the entry point |
| ForkCopy.HandlersApply | src/kernel/syscall.c:79-153 | when a fork or an exit is enabled, the state meets what the handlers rely on: the page found is not the path-tree head, the kernel block is an allocated one |
| Handlers.Kernel.constructor | src/kernel/main.c:62-100 | boot, on page lists, block lists, ready lists and physical memory, ends in the state Boot, of which BootIsSecure, ShellFrame and ShellStarts say what it is |
| Handlers.Kernel.Sched | src/kernel/task.c:82-92 | sched refines Dispatch |
| Handlers.Kernel.DoTaskCreate | src/kernel/task.c:201-221 | do_task_create refines its specification on values, of which ShellFrame, TaskTableWindow and AdmitKeepsInv say what it is: page, stack, first context with its entry point, id, list entry, page table |
| Handlers.Kernel.TaskCreateHandler | src/kernel/syscall.c:157-182 | task_create_handler refines TaskCreate, with the new id in the caller's r0 slot |
| Handlers.Kernel.TimerIsr | src/kernel/interrupt.c:222-246 | timer0_isr refines SwitchAway |
| Handlers.Kernel.YieldHandler | src/kernel/syscall.c:55-66 | yield_handler refines the same SwitchAway |
| Handlers.Kernel.ForkHandler | src/kernel/syscall.c:108-153 | fork_handler, with its page, stack copy, r0 slots, list entry and two page tables, refines Fork |
| Handlers.Kernel.ExitHandler | src/kernel/syscall.c:79-94 | exit_handler refines Exit: the task off its list if it is the tail, page and page table back on their free lists |
| Handlers.ClearStack | src/kernel/task.c:154-188 | the stack area is zeroed and the entry point put in the r9 slot of the first context |
| Handlers.DuplicateStack | src/kernel/syscall.c:113-120 | the 4 KiB copy of fork |
| ReadyLists.ReadyLists.constructor | src/kernel/task.c:121-129 | task_init: five empty lists |
| ReadyLists.ReadyLists.Enqueue | src/kernel/task.c:245-266 | the linked list of the task's priority gains the task at its end, other lists keep their links |
| ReadyLists.ReadyLists.Dequeue | src/kernel/task.c:269-292 | the head is taken off and returned |
| ReadyLists.ReadyLists.TaskPop | src/kernel/task.c:296-321 | the task is taken off only if it is last; otherwise nothing changes |
| ReadyLists.ReadyLists.FirstReady | src/kernel/task.c:39-43 | the search stops at the first list with a READY head |
| ReadyLists.ReadyLists.ChooseTask | src/kernel/task.c:37-56 | the head of that list goes to its tail, is marked RUNNING and is returned |
| Cpu.Processor.IrqEntryOstick | src/kernel/exception.s:43-106 | instruction by instruction: the tick path of irq_entry leaves the frame of the interrupted task on its own stack, its address in r0, supervisor mode with interrupts masked, room for the next interrupt on the IRQ stack inside [0x9df00000, 0xa0000000) |
| Cpu.Processor.SwitchTask | src/kernel/task_asm.s:68-100 | instruction by instruction: switch_task makes the user view the one that the frame describes, around a call that may change any caller-saved register and the 16 bytes under the context; it writes nothing else but the kernel stack; up to the last msr interrupts are masked, as every kernel instruction of the model requires |
| Cpu.Processor.FirstRun | src/kernel/task_asm.s:23-59 | instruction by instruction: first_run makes the user view the one that the context describes, but in user mode with interrupts on, and writes nothing but the 16 bytes under the context |
| Cpu.Processor.SvcEntry | src/kernel/exception.s:132-182 | instruction by instruction: svc_entry leaves the same frame for a system call, with the address after the svc instruction, its address in r1, in supervisor mode with interrupts masked and with r0 and r2-r8 kept |
| Cpu.Processor.Preempt | src/kernel/exception.s:43-118 | interrupt entry, irq_entry, then any code that leaves the frame alone and any values in the registers, and switch_task: the interrupted code continues |
| Cpu.Processor.Yield | src/kernel/exception.s:132-182 | svc entry, svc_entry, the same in between, and switch_task: the code continues after the svc instruction |
| Cpu.WithModeIs | src/kernel/exception.s:86-90 | bic and two orr on the status word set exactly the mode asked for and bits 6 and 7, which mask interrupts, and keep every other bit, for every status word |
| Context.ResumeContinues | src/kernel/task_asm.s:74-100 | resuming the frame of some registers continues them, for any kernel status word |
| Context.MsrWrites | src/kernel/task_asm.s:99-100 | msr without a suffix takes over the flags and the control byte, and nothing else |
| Pages.PagesTile | src/kernel/memory.c:57-60 | the pages tile [0x82100000, 0x9df00000): each address lies in one page, found by ROUNDDOWN |
| Pages.WhichPageFinds | src/kernel/memory.c:327-340 | the search of which_page finds the in-use page of any address inside it |
| Pages.AnyPageRun | src/kernel/memory.c:87-193 | after any run of page_alloc and page_free of pages other than the path tree's, all 446 pages are on exactly one list, the path-tree page is still the in-use head, and which_page is right for every in-use page |
| Pages.PageLists.constructor | src/kernel/memory.c:48-83 | page_list_init: every page on the free list in address order, doubly linked |
| Pages.PageLists.PageAlloc | src/kernel/memory.c:87-104 | the free head, given a second free page, moves to the end of the in-use list, links and status included |
| Pages.PageLists.PageFree | src/kernel/memory.c:108-116 | the page moves to the end of the free list; its status is not written back |
| Pages.PageLists.InsertToInuseList | src/kernel/memory.c:144-165 | append to the in-use list |
| Pages.PageLists.AddToFreeListEnd | src/kernel/memory.c:120-140 | append to the free list, which an empty list does without clearing prev |
| Pages.PageLists.DeleteFromInuseList | src/kernel/memory.c:169-193 | removal from head, middle or end; the head needs a successor |
| Pages.PageLists.WhichPage | src/kernel/memory.c:327-340 | the walk returns the in-use page that starts at the rounded address, or the last one |
| AllocatorRuns.RunsKeepPartition | src/kernel/memory.c:300-400 | any run of allocations and releases keeps used and free ids a partition |
| AllocatorRuns.RunsKeepFirst | src/kernel/memory.c:169-193 | the first used id stays first while it is not released itself |
| Blocks.AnyRun | src/kernel/memory.c:255-400 | after any run from blks_init, blocks 3 to 255 are live or free and not both, live blocks do not overlap, and they leave the task block and the descriptors alone |
| Heaps.RunKeepsHeaps | src/kernel/syscall.c:186-201 | over every run with calls of malloc and free, every task's blocks 3 to 255 are on the list of its page or handed out and not both, and the list is not empty |
| Heaps.BlockInPage | src/kernel/syscall.c:186-201 | every block handed out to a live task lies in its own page, beyond the stack and the block descriptors |
| Heaps.BlocksApart | src/kernel/syscall.c:186-201 | no two blocks handed out to live tasks share a byte |
| Heaps.MallocIsOwn | src/kernel/syscall.c:186-193 | malloc puts in the caller's r0 slot the start of the first free block of the caller's own page, which was not handed out, and takes that block off the list |
| Heaps.FreeReturns | src/kernel/memory.c:379-400 | free takes back the block that the address lies in, to the end of the list of the task in whose page that is, and leaves every other block and heap as it was |
| Heaps.BootHeaps | src/kernel/memory.c:255-296 | the booted shell has all its blocks free |
| Blocks.WhichBlkInverts | src/kernel/memory.c:379-390 | which_blk finds the descriptor of any address inside a block, so free_blk returns the descriptor that was allocated |
| Blocks.BlocksDisjoint | src/kernel/memory.c:455-469 | two blocks of a page do not overlap |
| Blocks.KblkPlacement | src/kernel/memory.c:473-481 | the first kernel block index, counted in 4 KiB units, is inside the 64-entry table if and only if the rounded end of kernel data is under 256 KiB above 0x82000000; then every block is aligned, beyond that end and inside the kernel page |
| Blocks.KblkIndexFails | src/kernel/memory.c:473-481 | an end of kernel data for which the index is outside the table |
| Blocks.KernelBlocks.constructor | src/kernel/memory.c:445-484 | kpage_blks_init: the blocks from that index on are free, the head keeping its prev |
| Blocks.KernelBlocks.Alloc | src/kernel/memory.c:531-549 | kblk_alloc returns the start of the free head, which becomes used; a second free block is needed |
| Blocks.KernelBlocks.Scan | src/kernel/memory.c:508-513 | the scan in 4 KiB units finds the block inside the table although its bound is 256 |
| Blocks.KernelBlocks.Free | src/kernel/memory.c:503-527 | kblk_free appends exactly that block to the free list |
| Blocks.PageBlocks.constructor | src/kernel/memory.c:255-296 | blks_init: blocks 3 to 255 free, in order; the no-op initialisation test is modelled as no test |
| Blocks.PageBlocks.Alloc | src/kernel/memory.c:300-322 | blk_alloc returns the start of the head block, keeping its links |
| Blocks.PageBlocks.Free | src/kernel/memory.c:393-400 | free_blk puts the block of the address at the end of the list; if the list was empty, that is a list again if and only if the next field of the block was NULL, since nothing clears it |
| Words.RoundUpExact | src/common.h:65-82 | ROUNDUP gives the least multiple not below its argument exactly when its 32-bit sum does not wrap |
| Words.OrIsAdd | src/kernel/mmu.c:24-27 | OR-ing a value below 2^k onto a multiple of 2^k is adding it |
| Mmu.PteIsDescriptor | src/kernel/mmu.c:56-61 | the assembled word is the section descriptor: base, S, AP[1:0], domain 0, type 0b10, for every address |
| Mmu.PteAddrIsSum | src/kernel/mmu.c:24-27 | the entry address is the 16 KiB-aligned base plus four times the section number, for every base and address |
| Mmu.PteInitLoop | src/kernel/mmu.c:36-67 | the loop of pte_init, on words of memory, computes PteInit; its own rounding and index arithmetic in 32 bits |
| Mmu.PteInitRefinesTranslation | src/kernel/mmu.c:36-67 | for ranges that start at sections, of which page_num_cal counts the sections rightly and whose image does not wrap, and any aligned table: a walk maps each address of the virtual range to the physical one at the same distance, with the AP asked for, domain 0, section type; other addresses translate as before |
| Mmu.PteInitWalk | src/kernel/mmu.c:36-67 | the same for ranges that are not aligned or wrap, section by section |
| Mmu.PteInitKeeps | src/kernel/mmu.c:55-66 | no word outside the entries of the range is changed |
| Mmu.PageNumExact | src/kernel/mmu.h:92 | page_num_cal counts the sections that a range touches if and only if the range does not both begin in section 0 and end in the last one |
| Mmu.PageNumFails | src/kernel/mmu.h:92 | such a range: of the whole address space pte_init maps nothing |
| PageTables.MemMapLoop | src/kernel/mmu.c:71-80 | mem_map computes MemMap |
| PageTables.MemMapIsIdentity | src/kernel/mmu.c:71-80 | the kernel table is the identity below 0xa0000000, strongly ordered, lets the kernel write and execute everywhere and the user write nowhere and read from 0x82000000 on |
| PageTables.MemMapEntries | src/kernel/mmu.c:71-80 | its first 2560 entries are those identity sections, all other words keep their value |
| PageTables.MemMapTiles | src/kernel/mmu.c:71-80 | the six ranges have 2560 entries together, and the first word after them is where kpage.free_start begins |
| PageTables.SetPteLoop | src/kernel/mmu.c:248-255 | set_pte computes SetPte |
| PageTables.TaskTableLoop | src/kernel/mmu.c:229-243 | the four ranges of task_pgt_setup compute TaskTable |
| PageTables.TaskTableWindow | src/kernel/mmu.c:229-243 | whatever the block held, the new table is the identity on the DRAM window and the device registers, strongly ordered, lets the user write exactly the task's page, read exactly that and the kernel image, and touch no device |
| PageTables.ForkTableWindow | src/kernel/syscall.c:151-152 | after fork's extra set_pte: the same with exactly the child's and the parent's page |
| PageTables.SetPteWindow | src/kernel/mmu.c:248-255 | set_pte adds one page to those a table lets the user write and read, and changes nothing else |
| PageTables.TablesStayInBlock | src/kernel/mmu.c:229-255 | both builders change no word outside the 16 KiB block |
| Mem.MemSet | src/klib/mem.c:8-16 | the fill loop |
| Mem.MemCpy | src/klib/mem.c:38-48 | the forward copy loop, between ranges that do not overlap |
| Queue.Queue.Init | src/klib/queue.c:11-25 | kq_init: an empty queue over zeroed slots, or -1 without a block |
| Queue.Queue.Enqueue | src/klib/queue.c:58-69 | appends to the contents, or returns -1 and changes nothing when full |
| Queue.Queue.Dequeue | src/klib/queue.c:73-86 | removes the first byte and zeroes its slot, or returns 255 when empty |
| Queue.Queue.Read | src/kernel/ipc.c:20-32 | n bytes: the contents in order, then 255 for each byte missing |
| Queue.Queue.Write | src/kernel/ipc.c:36-50 | the first min(n, space) bytes are accepted; 0 is returned exactly when all fit |
| Queue.Fifo | src/kernel/ipc.c:20-50 | over any interleaving of reads and writes, what went in is what came out, fillers apart, followed by what is still there |
| Queue.OneMoreWrite | src/kernel/ipc.c:36-50 | after any calls, one more write adds the bytes, in order, for which there is room |
| Queue.OneMoreRead | src/kernel/ipc.c:20-32 | and one more read of n delivers n bytes: the first of the queue, which leave it, then 255 for each byte missing |
| Queue.PrefixExactly | src/kernel/ipc.c:20-50 | the bytes read are at every moment a prefix of those accepted if and only if no read asks for more than the queue holds |
| Queue.UnderrunFails | src/kernel/ipc.c:20-32 | a run in which they are not: one read of the fresh queue |
| Strings.Strlen | src/klib/string.c:12-20 | the length up to the first zero |
| Strings.Strcmp | src/klib/string.c:23-39 | 0 for equal strings and 1 for different ones |
| Strings.Strcpy | src/klib/string.c:66-76 | the copy loop, which _strcat repeats |
| Strings.Strcat | src/klib/string.c:42-63 | the string at dest becomes the concatenation, and nothing after its terminator changes |
| Strings.Strncpy | src/klib/string.c:79-90 | count characters whatever they are, and a zero |
| Strings.StrtokFst | src/klib/string.c:98-124 | for any delimiter: the text before its first occurrence goes to token, the index after it or NULL is returned, and the search stays within the buffer |
| Listing.AddEntry | src/kernel/syscall.c:297-306 | the body of the listing loops: the name and the delimiter are appended exactly if the space check with sizeof(delim) passes |
| Listing.TakesLongestPrefix | src/kernel/syscall.c:298-301 | the names taken are the longest prefix whose listing leaves two characters of the buffer free |
| Listing.RoundTrip | src/userproc/commands.c:21-27 | splitting gives back the joined names and one empty token if and only if no name has a semicolon at its end or before another one |
| Listing.RoundTripFails | src/userproc/commands.c:21-27 | two names that come back as two others |
| Listing.ShowNames | src/userproc/commands.c:21-27 | the token loop of lsdir over any buffer contents shows the pieces between delimiters, in order, each after a line break unless it is empty, and ends, without a read outside the buffer |
| Listing.NextToken | src/userproc/commands.c:22-26 | one turn of it: an empty token is shown alone, any other after a line break |
| Listing.OneLineEach | src/userproc/commands.c:25-26 | for n names that are not empty, and the empty token at the end, the texts shown are 2n + 1: a line break and the name for each, in order, and an empty text |
| DirCalls.Session.GetSubdir | src/kernel/syscall.c:282-307 | the buffer holds the listing of the longest fitting prefix of the subdirectory names, followed by zeros |
| DirCalls.Session.GetFdir | src/kernel/syscall.c:311-336 | the same for the files |
| DirCalls.ListingSplits | src/userproc/commands.c:9-42 | that listing, split, is exactly those names and one empty token, if and only if none of them has a semicolon at its end or before another one |
| DirCalls.Session.Lsdir | src/userproc/commands.c:9-42 | lsdir shows the pieces between delimiters of the listing of the subdirectories and then of that of the files, whatever the names; where no name is empty or hides a delimiter, the texts are a line break and a name for each subdirectory that fits, an empty text, and the same for the files |
| DirCalls.Session.LsdirShowsNames | src/userproc/commands.c:9-42 | where no name is empty or hides a delimiter, lsdir can be called: every piece fits the token buffer |
| DirTree.DirTree.constructor | src/kernel/file.c:37-50 | path_tree_init |
| DirTree.DirTree.CreateRoot | src/kernel/file.c:54-70 | the root, or -1 when there is one |
| DirTree.DirTree.CreatePathNode | src/kernel/file.c:74-108 | the tree gains one node, last among the children of its parent, and all other links stay what the record of creations prescribes |
| DirTree.DirTree.FindEndSibling | src/kernel/file.c:112-119 | the walk ends at the last of the list |
| DirTree.DirTree.CreateFileUnderNode | src/kernel/file.c:160-226 | the same for a file, which also goes to the end of the list of all files and has the read and write functions of its type: console read for types 0 and 2, console write for 1 and 2, IPC read and write for 3, otherwise none |
| DirTree.DirTree.Bytes | src/kernel/file.c:79-80 | nodes take 36 bytes of the page of the tree and files 48, one behind the other |
| DirTree.FileListPush | src/kernel/file.c:230-250 | the file becomes the last of the doubly linked list of all files |
| DirTree.DirTree.FindFile | src/kernel/file.c:268-279 | the first file of the list with the name, or NULL |
| DirTree.DirTree.FindTargetSubdir | src/kernel/file.c:283-303 | the parent for "..", else the first child with the name, or NULL |
| DirTree.NewName | src/kernel/file.c:86-95 | the name buffer holds the name, terminated |
| DirCalls.Session.Chdir | src/kernel/syscall.c:341-357 | the current directory becomes the target and r0 is 0, or it stays and r0 is -1 |
| DirCalls.Session.GetFullPath | src/kernel/syscall.c:360-387 | the buffer gains the root-to-cwd concatenation of names |
| Paths.NextInSnoc | src/kernel/file.c:97-104 | a new node changes the end of its parent's list and no other list |
| Paths.UpDown | src/kernel/syscall.c:341-357 | ".." and then the name of the directory left leads back if and only if the name is not ".." and no earlier sibling has it |
| Paths.UpDownFails | src/kernel/syscall.c:341-357 | a tree with two directories of one name, from the second of which ".." and its name lead to the first |
| Paths.DownUp | src/kernel/syscall.c:341-357 | chdir down by any names but "..", where that succeeds, and then up as many times leads back |
| Paths.UpsFollowTrail | src/kernel/file.c:297-299 | n times ".." leads to the n-th directory of the way to the root, and fails past the root |
| Paths.PathAfterChdir | src/kernel/syscall.c:341-387 | a successful chdir down adds the name to the full path, one up removes the last name |
| Paths.AncestorsPrefix | src/kernel/syscall.c:360-387 | every directory on the way to the root has a prefix of the full path |
| Paths.NamesSnoc | src/kernel/file.c:97-104 | in a listing a new entry comes last, in that of its parent only |
| Paths.BackwardsIsPath | src/kernel/syscall.c:373-386 | the walk to the root and the concatenation on the way back give the path |
| Paths.PathsDifferExactly | src/kernel/syscall.c:360-387 | where names are a slash and slash-free text, full paths are different if and only if sibling names are |
| Paths.FollowComponents | src/kernel/file.c:283-303 | chdir along the components of the path of a directory leads from the root to it |
| Paths.Along | src/kernel/file.c:289-294 | walking a sibling list visits the children in the order of their creation |

## Left out

Assumptions about callers, which the source does not check:

- Allocation needs two free nodes: `page_alloc`, `kblk_alloc` and `blk_alloc` write to the second one without a test (src/kernel/memory.c:93-94, 318-319, 541-542), so exhausted allocators, and the branch of `blk_alloc` for the last block, are excluded.
- Priorities are 0 to 4, task ids stay below 2^31, a task exits at most once, and the shell never exits; after an exit a task only spins (src/klib/usyscall.c:27-31).
- When the kernel is entered, the frame below the user stack pointer and the 16 bytes under it, which reload_ostick will use, are word aligned and lie in the stack or free area of a user page, not necessarily the task's own. A frame that reaches a TASK_INFO, block descriptors, the page of the path tree or kernel memory is excluded from runs, and so is a buffer that does; the source writes there too (`PageTables.PrivilegedWindow`) and then works with what it has overwritten. User code runs in ARM state.
- A caller of fork has its stack pointer in the stack of its page (the condition ContextOnStack of `Steps.Enabled`); the source would place the child's context outside the copied stack otherwise.
- Calls get valid numbers, file descriptors, path names and argument addresses, and free gets an address inside a block that was handed out: the source checks none of them.
- User stores go to aligned words in 0x82000000-0xa0000000, and privileged ones only to private words of user pages; outside this window page tables keep what the block held before, and nothing is claimed. A store to the TASK_INFO or the block descriptors of any page is excluded from runs, although tables permit it, for the task's own page and, after a fork, for its parent's (`Isolation.PermittedStore`, `ForkCopy.ForkChildReachesTaskInfo`): after such a store the lists, contexts and tables are what the task wrote, and `Invariants.RunKeepsInv` and all properties of runs fail.
- Blocks and pages are not freed twice, and the path tree stays within its page.
- A listing buffer is not empty: `_strlen` reads its first character.

Simplifications:

- Physical memory is modelled in words; `_memset` and `_memcpy` of the kernel appear as word loops. Strings, names and the queue are arrays of characters or bytes.
- TASK_INFO, page descriptors and block descriptors are objects of their own; only their addresses constrain the words of memory that are claimed to be private.
- The kernel's own stacks and data are not part of the memory of `Steps`, where C functions keep their frames; only reload_ostick runs on a user stack, and writes within the 16 bytes that its compiled frame takes (bin/bos). `Cpu` models it and get_act_irqnum as calls that leave garbage in caller-saved registers.
- `msr cpsr, r12` is read as the assembler's CPSR_fc, so only flags and control bits are claimed to be restored.
- `page_list[PAGE_NUM]`, one past the array (src/kernel/memory.c:67), is a further element of the list.
- The loop of `kpage_blks_init` that starts from an uninitialised counter marks entries FULL and is not modelled; no other code reads that mark.
- `i << 20` in `pte_init` is taken modulo 2^32.
- `switch_mm` is the assignment of the active table; `syscall_handler`'s switches to the kernel table and back are invisible between steps.
- Words a user task sees after a system call other than r0 come from compiler frame layout and are arbitrary in the model.
- The page of the path tree and the block of the IPC queue are taken at boot; the tree and the queue themselves are modelled on objects and arrays, not on those words.
- The mode field 0, which a created task is given (`FirstRuns.CreatedTaskStarts`) and which the architecture reserves, is read as unprivileged: it is the user mode of the 26-bit architectures. On a processor that keeps the previous mode instead, created tasks run privileged, and the properties that ask for unprivileged code do not hold of them.
- What privileged user code does besides stores and changes of its own registers (CP15, banked registers, masking) is not modelled; the properties of isolation ask for unprivileged code.
- The return path of `svc_entry` reads SPSR in system mode, where the architecture leaves its value open (src/kernel/exception.s:185-199): the registers and the status after a call are arbitrary in the model, and `Modes.RunKeepsModes` and `Orderly.RunKeepsSettled` ask that the status is unprivileged.

Contracts weaker than the source, or with conditions that the source does not test:

- Handlers.Kernel.DoTaskCreate: `blks_init`, `open_console_in_out` and the current directory are not part of the record.
- Handlers.Kernel.TaskCreateHandler: the same, and the directory inherited from the caller.
- Handlers.Kernel.ForkHandler: `blks_init` and the copied files, current directory and callback are not part of the record.
- Blocks.PageBlocks.Alloc: the call for the last free block is excluded; it dereferences NULL after setting no_free_blks.
- Mem.MemSet: words where `_memset` fills bytes; the kernel calls it with word-aligned ranges.
- Mem.MemCpy: words where `_memcpy` copies bytes, likewise.
- DirTree.DirTree.CreatePathNode: names of 16 characters or more are excluded; the source copies them past the buffer.
- DirTree.DirTree.CreateFileUnderNode: the same.
- DirTree.NewName: the same.
- DirCalls.Session.GetFullPath: the tree is at most 16 deep and the buffer has room; otherwise `getfullpath_handler` only prints a warning and overruns it.
- DirCalls.Session.Lsdir: every piece between delimiters fits the token buffer of 16 characters; `strtok_fst` overruns it otherwise.

Not modelled:

- UART, timer, watchdog, LED, pin and clock registers, interrupt controller and other interrupts than the tick.
- CP15 and TLB maintenance, `start.s`, the return path of `svc_entry`, and the abort handlers.
- The tree that `file_in_ram_init` builds at boot: its calls are modelled, not their sequence.
- The file-descriptor table, console reads and writes, getcwd, printing, the shell and the test programs.
