/** The handlers of task.c, syscall.c and interrupt.c over the real data structures, each verified to do exactly what
    KernelState says: the record k follows the state of the lists, tables and memory step by step. */
module Handlers {
  import opened Words
  import opened Layout
  import opened Seqs
  import opened Mmu
  import opened PageTables
  import opened Mem
  import opened Sched
  import opened KernelState
  import Pages
  import Blocks
  import ReadyLists

  const FOR_KERN: nat := 4
  const FOR_QUEUE: nat := 5

  /** The fields of TASK_INFO agree with the record. */
  ghost predicate Matches(info: ReadyLists.TaskInfo, t: Task)
    reads info`status, info`context, info`pgtbase
  {
    && info.priority == t.priority && info.stkBottom == t.stkBottom
    && info.status == t.status && info.context == t.context && info.pgtbase == t.pgtbase
  }

  /** The memory of a new stack. */
  method ClearStack(mem: array<Word>, pgstart: Word, entry: Word) returns (context: Word)
    requires IsPageStart(pgstart) && mem.Length == MEM_WORDS
    modifies mem
    ensures context == FirstContext(pgstart) && mem[..] == FreshStack(old(mem[..]), pgstart, entry)
  {
    MemSet(mem, pgstart / 4, 0, STACK_WORDS);
    context := FirstContext(pgstart);
    Store(mem, (context + 36) / 4, entry);
  }

  /** The child's stack as a copy of the parent's. */
  method DuplicateStack(mem: array<Word>, pg: Word, parent: Word)
    requires IsPageStart(pg) && IsPageStart(parent) && pg != parent && mem.Length == MEM_WORDS
    modifies mem
    ensures mem[..] == Copy(Fill(old(mem[..]), pg / 4, STACK_WORDS, 0), pg / 4, parent / 4, STACK_WORDS)
  {
    hide Copy, Fill;
    MemSet(mem, pg / 4, 0, STACK_WORDS);
    PagesApart(pg, parent);
    MemCpy(mem, pg / 4, parent / 4, STACK_WORDS);
  }

  lemma PagesApart(a: Word, b: Word)
    requires IsPageStart(a) && IsPageStart(b) && a != b
    ensures a / 4 + STACK_WORDS <= b / 4 || b / 4 + STACK_WORDS <= a / 4
    ensures a / 4 + STACK_WORDS <= MEM_WORDS && b / 4 + STACK_WORDS <= MEM_WORDS
  {
    assert a == Sec(a) * SECTION && b == Sec(b) * SECTION;
  }

  class Kernel {
    const ready: ReadyLists.ReadyLists
    const pages: Pages.PageLists
    const blks: Blocks.KernelBlocks
    const mem: array<Word>
    /** curr_running_task, the active table, and the last task id. */
    var curr: ReadyLists.TaskInfo?
    var ttbr: Word
    var taskid: int

    ghost var k: KernelState.Kernel

    ghost predicate TasksMatch()
      reads this`k, ready, ready.tasks
    {
      && |ready.tasks| == |k.tasks|
      && forall i :: 0 <= i < |k.tasks| ==> Matches(ready.tasks[i], k.tasks[i])
    }

    ghost predicate Structures()
      reads ready, ready.heads, ready.tasks`next, ready.tasks`prev, pages, pages.pages, blks, blks.blks
    {
      ready.Valid() && pages.Valid() && blks.Valid() && pages.n == Pages.PAGE_NUM
    }

    /** Everything but the choice of the running task. */
    ghost predicate Core()
      reads this, ready, ready.heads, ready.tasks, pages, pages.pages, blks, blks.blks, mem
    {
      && mem.Length == MEM_WORDS && Structures() && TasksMatch()
      && ready.ready == k.ready && taskid == |k.tasks| - 1
      && pages.free == k.free && pages.inuse == k.inuse && blks.free == k.kfree && blks.used == k.kused
      && mem[..] == k.mem && Ranged(k)
    }

    ghost predicate Valid()
      reads this, ready, ready.heads, ready.tasks, pages, pages.pages, blks, blks.blks, mem
    {
      Core() && ttbr == k.ttbr && k.cur < |k.tasks| && curr == ready.tasks[k.cur]
    }

    /** kernal_entry: the kernel table at base, the allocators with kernel data ending at freeStart, a page for the
        path tree, a block for the IPC queue, the shell, and run_first_sched. */
    constructor (mem: array<Word>, base: Word, freeStart: Word, shell: Word)
      requires mem.Length == MEM_WORDS
      requires Blocks.KPAGE_START <= freeStart < Blocks.KPAGE_END
      requires RoundUp(freeStart, Blocks.KBLK_SIZE) < Blocks.KPAGE_START + 0x4_0000
      requires 0 <= Blocks.FirstKblk(freeStart) < Blocks.KBLK_NUM - 2
      modifies mem
      ensures Valid()
      ensures k == Boot(MemMap(old(mem[..]), base), Blocks.FirstKblk(freeStart), shell)
    {
      hide ReadyLists.ReadyLists.Valid, Blocks.KernelBlocks.Valid, Pages.PageLists.Valid, MemMap, Boot, Core, RoundUp;
      this.mem := mem;
      ready := new ReadyLists.ReadyLists();
      pages := new Pages.PageLists(Pages.PAGE_NUM);
      blks := new Blocks.KernelBlocks(freeStart);
      curr, ttbr, taskid := null, 0, -1;
      new;
      Start(base, Blocks.FirstKblk(freeStart), shell);
    }

    /** The rest of kernal_entry, from freshly initialised structures. */
    method Start(base: Word, ghost first: nat, shell: Word)
      requires first + 2 < Blocks.KBLK_NUM && mem.Length == MEM_WORDS
      requires Structures() && ready.tasks == [] && ready.ready == [[], [], [], [], []] && taskid == -1
      requires pages.free == Range(0, Pages.PAGE_NUM) && pages.inuse == []
      requires blks.free == Range(first, Blocks.KBLK_NUM) && blks.used == []
      modifies this, ready, ready.heads, pages, pages.pages, blks, blks.blks, mem
      ensures Valid() && k == Boot(MemMap(old(mem[..]), base), first, shell)
    {
      hide Structures, MemMap, KernelState.DoTaskCreate, Dispatch, Pick, StatusOf;
      ghost var m: Memory := MemMap(mem[..], base);
      Reserve(base, first, m);
      BootSchedulable(m, first, shell);
      DoTaskCreate(LOWEST_PRIORITY, shell);
      Sched();
    }

    /** The kernel table, the page of the path tree and the block of the IPC queue. */
    method Reserve(base: Word, ghost first: nat, ghost m: Memory)
      requires first + 2 < Blocks.KBLK_NUM && mem.Length == MEM_WORDS
      requires Structures() && ready.tasks == [] && ready.ready == [[], [], [], [], []] && taskid == -1
      requires pages.free == Range(0, Pages.PAGE_NUM) && pages.inuse == []
      requires blks.free == Range(first, Blocks.KBLK_NUM) && blks.used == []
      requires m == MemMap(mem[..], base)
      modifies this`k, pages, pages.pages, blks, blks.blks, mem
      ensures Core() && k == Initial(m, first) && ready.tasks == []
    {
      hide MemMap, Structures, TasksMatch, Ranged, Range;
      k := Initial(m, first);
      NoTasks();
      MapMemory(base);
      var tree := TakePage(Pages.FULL);
      TakeQueueBlock();
      RangeTail(0, Pages.PAGE_NUM);
      RangeTail(first, Blocks.KBLK_NUM);
      Reserved(first, m);
    }

    lemma Reserved(first: nat, m: Memory)
      requires first + 2 < Blocks.KBLK_NUM && mem.Length == MEM_WORDS && mem[..] == m
      requires Structures() && TasksMatch() && ready.ready == [[], [], [], [], []] && taskid == -1
      requires pages.free == Range(1, Pages.PAGE_NUM) && pages.inuse == [] + [0]
      requires blks.free == Range(first + 1, Blocks.KBLK_NUM) && blks.used == [] + [first]
      requires k == Initial(m, first)
      ensures Core()
    {
      hide Structures, TasksMatch, Ranged;
      BootSchedulable(m, first, 0);
    }

    lemma NoTasks()
      requires k.tasks == [] && ready.tasks == []
      ensures TasksMatch()
    {
    }

    method MapMemory(base: Word)
      requires mem.Length == MEM_WORDS && Structures() && TasksMatch()
      modifies mem
      ensures Structures() && TasksMatch() && mem[..] == MemMap(old(mem[..]), base)
    {
      hide MemMap, Structures, TasksMatch;
      MemMapLoop(mem, base);
    }

    /** kq_init's kblk_alloc. */
    method TakeQueueBlock()
      requires Structures() && TasksMatch() && 2 <= |blks.free|
      modifies blks`head, blks`free, blks`used, blks.blks
      ensures Structures() && TasksMatch()
      ensures blks.free == old(blks.free)[1..] && blks.used == old(blks.used) + [old(blks.free)[0]]
    {
      hide ReadyLists.ReadyLists.Valid, Blocks.KernelBlocks.Valid, Pages.PageLists.Valid;
      var data := blks.Alloc(FOR_QUEUE);
    }

    // ---------------------------------------------------------------- one structure at a time

    /** page_alloc, and the page marked for its purpose. */
    method TakePage(purpose: nat) returns (pg: Pages.PageInfo)
      requires Structures() && TasksMatch() && 2 <= |pages.free| && purpose != Pages.FREE
      modifies pages`freeHead, pages`inuseHead, pages`free, pages`inuse, pages.pages
      ensures Structures() && TasksMatch()
      ensures pages.free == old(pages.free)[1..] && pages.inuse == old(pages.inuse) + [old(pages.free)[0]]
      ensures old(pages.free)[0] < Pages.PAGE_NUM && pg.pgstart == Pages.PageStart(old(pages.free)[0])
      ensures pg.top == pg.pgstart + 4 * (SECTION / 4 - 1)
      ensures pg.taskStkTop == pg.pgstart + 4 * (STACK_WORDS - 1)
    {
      hide ReadyLists.ReadyLists.Valid, Blocks.KernelBlocks.Valid, Pages.List, NoDup;
      PartitionHead(0, pages.n, pages.free, pages.inuse);
      pg := pages.PageAlloc();
      pg.pageStatus := purpose;
    }

    /** task_enqueue of a task that is new. */
    method EnqueueNew(task: ReadyLists.TaskInfo)
      requires Structures() && TasksMatch()
      requires task !in ready.tasks && task.taskId == |ready.tasks| && task.priority < MAXNUM_PRIORITY
      requires forall i :: 0 <= i < |ready.ready[task.priority]| ==> ready.ready[task.priority][i] < |ready.tasks|
      modifies ready`ready, ready`tasks, ready.heads, ready.tasks`next, ready.tasks`prev, task`next, task`prev
      ensures Structures()
      ensures ready.tasks == old(ready.tasks) + [task]
      ensures ready.ready == Enqueue(old(ready.ready), task.priority, task.taskId)
    {
      hide ReadyLists.ReadyLists.Valid, Blocks.KernelBlocks.Valid, Pages.PageLists.Valid, TasksMatch;
      assert task.taskId !in ready.ready[task.priority];
      ready.Register(task);
      ready.Enqueue(task);
    }

    /** A kernel block filled with the table of a task page. */
    method TableFor(pgstart: Word, top: Word) returns (base: Word)
      requires mem.Length == MEM_WORDS && Structures() && 2 <= |blks.free|
      requires IsPageStart(pgstart) && top == PageTop(pgstart)
      modifies blks`head, blks`free, blks`used, blks.blks, mem
      ensures Structures()
      ensures blks.free == old(blks.free)[1..] && blks.used == old(blks.used) + [old(blks.free)[0]]
      ensures old(blks.free)[0] < Blocks.KBLK_NUM && base == Blocks.KblkStart(old(blks.free)[0])
      ensures mem[..] == TaskTable(old(mem[..]), pgstart, base)
    {
      hide ReadyLists.ReadyLists.Valid, Blocks.KernelBlocks.Valid, Pages.PageLists.Valid, TaskTable;
      base := blks.Alloc(FOR_KERN);
      TaskTableLoop(mem, pgstart, top, base);
    }

    /** List entry and page table of a new task. */
    method LinkTask(task: ReadyLists.TaskInfo, pgstart: Word, top: Word)
      requires mem.Length == MEM_WORDS && Structures() && TasksMatch() && 2 <= |blks.free|
      requires task !in ready.tasks && task.taskId == |ready.tasks| && task.priority < MAXNUM_PRIORITY
      requires forall i :: 0 <= i < |ready.ready[task.priority]| ==> ready.ready[task.priority][i] < |ready.tasks|
      requires IsPageStart(pgstart) && top == PageTop(pgstart)
      modifies ready`ready, ready`tasks, ready.heads, ready.tasks`next, ready.tasks`prev,
               task`next, task`prev, task`pgtbase, blks`head, blks`free, blks`used, blks.blks, mem
      ensures Structures()
      ensures ready.tasks == old(ready.tasks) + [task]
      ensures ready.ready == Enqueue(old(ready.ready), task.priority, task.taskId)
      ensures blks.free == old(blks.free)[1..] && blks.used == old(blks.used) + [old(blks.free)[0]]
      ensures old(blks.free)[0] < Blocks.KBLK_NUM && task.pgtbase == Blocks.KblkStart(old(blks.free)[0])
      ensures mem[..] == TaskTable(old(mem[..]), pgstart, task.pgtbase)
    {
      hide Structures, TaskTable, TasksMatch;
      EnqueueNew(task);
      var base := TableFor(pgstart, top);
      SetTable(task, base);
    }

    method SetTable(task: ReadyLists.TaskInfo, base: Word)
      requires Structures()
      modifies task`pgtbase
      ensures Structures() && task.pgtbase == base
    {
      hide ReadyLists.ReadyLists.Valid, Blocks.KernelBlocks.Valid, Pages.PageLists.Valid;
      task.pgtbase := base;
    }

    /** The record after a creation agrees with the structures when its parts do. */
    ghost method Recorded(was: KernelState.Kernel, m: Memory, t: Task)
      requires mem.Length == MEM_WORDS && Structures() && Ranged(was) && CanAllocate(was) && t.priority < MAXNUM_PRIORITY
      requires k == Admit(was, m, t)
      requires |ready.tasks| == |was.tasks| + 1
      requires forall i :: 0 <= i < |was.tasks| ==> Matches(ready.tasks[i], was.tasks[i])
      requires Matches(ready.tasks[|was.tasks|], t.(pgtbase := Blocks.KblkStart(was.kfree[0])))
      requires ready.ready == k.ready && taskid == |was.tasks|
      requires pages.free == k.free && pages.inuse == k.inuse && blks.free == k.kfree && blks.used == k.kused
      requires mem[..] == k.mem
      ensures Core()
    {
      hide Structures, TaskTable;
    }

    // ---------------------------------------------------------------- handlers

    /** choose_task on lists that agree with the record. */
    method Choose() returns (task: ReadyLists.TaskInfo)
      requires Structures() && TasksMatch() && ready.ready == k.ready && Schedulable(k)
      modifies ready`ready, ready.heads, ready.tasks`next, ready.tasks`prev, ready.tasks`status
      ensures Structures() && ready.tasks == old(ready.tasks)
      ensures var p := Pick(k.ready, StatusOf(k), 0);
              && ready.ready == Rotate(k.ready, p)
              && task.taskId == k.ready[p][0] < |ready.tasks| && task == ready.tasks[task.taskId]
      ensures |ready.tasks| == |k.tasks| && forall i :: 0 <= i < |k.tasks| ==>
                Matches(ready.tasks[i], k.tasks[i].(status := if i == task.taskId then Running else k.tasks[i].status))
    {
      hide ReadyLists.ReadyLists.Valid, Pages.PageLists.Valid, Blocks.KernelBlocks.Valid, Pick, StatusOf, Rotate;
      SamePick(k, ready);
      task := ready.ChooseTask();
    }

    /** sched, entered with curr_running_task == NULL. */
    method Sched()
      requires Core() && Schedulable(k)
      modifies this`curr, this`ttbr, this`k, ready`ready, ready.heads,
               ready.tasks`next, ready.tasks`prev, ready.tasks`status
      ensures Valid() && ready.tasks == old(ready.tasks)
      ensures k == Dispatch(old(k))
    {
      hide Structures, Pick, StatusOf, Dispatch, Ranged, Rotate, TasksMatch;
      ghost var was := k;
      DispatchRecord(k);
      curr := Choose();
      ttbr := curr.pgtbase;
      k := Dispatch(k);
      Dispatched(was);
    }

    /** The record after a dispatch agrees with the structures when its parts do. */
    ghost method Dispatched(was: KernelState.Kernel)
      requires Ranged(was) && Schedulable(was) && mem.Length == MEM_WORDS && Structures()
      requires k == Dispatch(was) && |ready.tasks| == |was.tasks| && k.cur < |ready.tasks|
      requires forall i :: 0 <= i < |was.tasks| ==>
                 Matches(ready.tasks[i], was.tasks[i].(status := if i == k.cur then Running else was.tasks[i].status))
      requires ready.ready == k.ready && taskid == |was.tasks| - 1
      requires pages.free == was.free && pages.inuse == was.inuse && blks.free == was.kfree && blks.used == was.kused
      requires mem[..] == was.mem
      ensures Core()
    {
      hide Structures, Pick, StatusOf, Dispatch, Ranged, Rotate;
      DispatchRecord(was);
    }

    /** The end of every creation, from record was and memory m: the task t enters its list and a kernel block becomes
        its page table. */
    method EnterTask(task: ReadyLists.TaskInfo, pgstart: Word, top: Word,
                     ghost was: KernelState.Kernel, ghost m: Memory, ghost t: Task)
      requires Ranged(was) && CanAllocate(was) && t.priority < MAXNUM_PRIORITY && mem.Length == MEM_WORDS
      requires pgstart == Pages.PageStart(was.free[0]) && IsPageStart(pgstart) && top == PageTop(pgstart)
      requires k == was && mem[..] == m && Matches(task, t) && t.status == Ready && t.pgtbase == 0
      requires task !in ready.tasks && task.taskId == |ready.tasks|
      requires Structures() && TasksMatch() && ready.ready == was.ready && taskid == |was.tasks|
      requires pages.free == was.free[1..] && pages.inuse == was.inuse + [was.free[0]]
      requires blks.free == was.kfree && blks.used == was.kused
      modifies this`k, ready`ready, ready`tasks, ready.heads, ready.tasks`next, ready.tasks`prev,
               task`next, task`prev, task`pgtbase, blks`head, blks`free, blks`used, blks.blks, mem
      ensures Core() && ready.tasks == old(ready.tasks) + [task]
      ensures k == Admit(was, m, t) && task.pgtbase == Blocks.KblkStart(was.kfree[0])
    {
      hide Structures, TaskTable;
      LinkTask(task, pgstart, top);
      k := Admit(was, m, t);
      Recorded(was, m, t);
    }

    /** _memset of the new stack, and the entry point in the r9 slot of its first context. */
    method PrepareStack(pgstart: Word, entry: Word) returns (context: Word)
      requires IsPageStart(pgstart) && mem.Length == MEM_WORDS
      requires Structures() && TasksMatch()
      modifies mem
      ensures Structures() && TasksMatch()
      ensures context == FirstContext(pgstart) && mem[..] == FreshStack(old(mem[..]), pgstart, entry)
    {
      hide Structures, TasksMatch, FreshStack;
      context := ClearStack(mem, pgstart, entry);
    }

    /** A creation without its list entry and page table: page, stack, TASK_INFO. */
    method CreateTask(prio: nat, entry: Word, ghost was: KernelState.Kernel)
      returns (task: ReadyLists.TaskInfo, pgstart: Word, top: Word)
      requires Ranged(was) && CanAllocate(was) && mem.Length == MEM_WORDS
      requires was == k && Core()
      modifies this`taskid, pages`freeHead, pages`inuseHead, pages`free, pages`inuse, pages.pages, mem
      ensures fresh(task) && task.taskId == |ready.tasks| && task !in ready.tasks
      ensures Matches(task, NewTask(was, prio)) && taskid == |was.tasks|
      ensures pgstart == Pages.PageStart(was.free[0]) && IsPageStart(pgstart) && top == PageTop(pgstart)
      ensures mem[..] == FreshStack(old(mem[..]), pgstart, entry)
      ensures Structures() && TasksMatch()
      ensures pages.free == was.free[1..] && pages.inuse == was.inuse + [was.free[0]]
    {
      hide Structures, TasksMatch, FreshStack, Ranged;
      assert |ready.tasks| == |was.tasks| by { TasksCount(); }
      assert was.free[0] < Pages.PAGE_NUM by { RangedHead(was); }
      PageStartIs(was.free[0]);
      var pg := TakePage(Pages.FOR_TASK);
      pgstart, top := pg.pgstart, pg.top;
      var context := PrepareStack(pgstart, entry);
      taskid := taskid + 1;
      task := new ReadyLists.TaskInfo(taskid, prio, pgstart, context);
    }

    lemma TasksDistinct()
      requires Structures()
      ensures forall i, j :: 0 <= i < |ready.tasks| && 0 <= j < |ready.tasks| && i != j ==> ready.tasks[i] != ready.tasks[j]
    {
    }

    lemma TasksCount()
      requires TasksMatch()
      ensures |ready.tasks| == |k.tasks|
    {
    }

    /** do_task_create. */
    method DoTaskCreate(prio: nat, entry: Word)
      requires Ranged(k) && CanAllocate(k) && prio < MAXNUM_PRIORITY && mem.Length == MEM_WORDS
      requires Core()
      modifies this`k, this`taskid, ready`ready, ready`tasks, ready.heads, ready.tasks`next, ready.tasks`prev,
               pages`freeHead, pages`inuseHead, pages`free, pages`inuse, pages.pages,
               blks`head, blks`free, blks`used, blks.blks, mem
      ensures Core() && k == KernelState.DoTaskCreate(old(k), prio, entry)
      ensures |ready.tasks| == |old(ready.tasks)| + 1 && ready.tasks[..|old(ready.tasks)|] == old(ready.tasks)
      ensures fresh(ready.tasks[|old(ready.tasks)|])
    {
      hide Structures, TasksMatch, FreshStack;
      ghost var was := k;
      PageStartIs(was.free[0]);
      var task, pgstart, top := CreateTask(prio, entry, was);
      EnterTask(task, pgstart, top, was, FreshStack(was.mem, pgstart, entry), NewTask(was, prio));
    }

    /** task_create_handler. */
    method TaskCreateHandler(context: Word, prio: nat, entry: Word)
      requires Ranged(k) && CanAllocate(k) && prio < MAXNUM_PRIORITY && mem.Length == MEM_WORDS
      requires |k.tasks| < WORD_RANGE
      requires Valid()
      modifies this`k, this`taskid, ready`ready, ready`tasks, ready.heads, ready.tasks`next, ready.tasks`prev,
               pages`freeHead, pages`inuseHead, pages`free, pages`inuse, pages.pages,
               blks`head, blks`free, blks`used, blks.blks, mem
      ensures Valid() && k == KernelState.TaskCreate(old(k), context, prio, entry)
    {
      hide Structures, TasksMatch, FreshStack, Ranged;
      ghost var was := k;
      RangedHead(was);
      PageStartIs(was.free[0]);
      assert |ready.tasks| == |was.tasks| by { TasksCount(); }
      var task, pgstart, top := CreateTaskFor(context, prio, entry, was);
      EnterTask(task, pgstart, top, was, FreshStack(was.mem, pgstart, entry)[context / 4 := |was.tasks|],
                NewTask(was, prio));
    }

    /** The first half of task_create_handler: CreateTask, and the new id for the caller. */
    method CreateTaskFor(context: Word, prio: nat, entry: Word, ghost was: KernelState.Kernel)
      returns (task: ReadyLists.TaskInfo, pgstart: Word, top: Word)
      requires Ranged(was) && CanAllocate(was) && mem.Length == MEM_WORDS && |was.tasks| < WORD_RANGE
      requires was == k && Core()
      modifies this`taskid, pages`freeHead, pages`inuseHead, pages`free, pages`inuse, pages.pages, mem
      ensures fresh(task) && task.taskId == |ready.tasks| && task !in ready.tasks
      ensures Matches(task, NewTask(was, prio)) && taskid == |was.tasks|
      ensures pgstart == Pages.PageStart(was.free[0]) && IsPageStart(pgstart) && top == PageTop(pgstart)
      ensures mem[..] == FreshStack(old(mem[..]), pgstart, entry)[context / 4 := |was.tasks|]
      ensures Structures() && TasksMatch()
      ensures pages.free == was.free[1..] && pages.inuse == was.inuse + [was.free[0]]
    {
      hide Structures, TasksMatch, FreshStack, Ranged;
      assert |ready.tasks| == |was.tasks| by { TasksCount(); }
      task, pgstart, top := CreateTask(prio, entry, was);
      ReturnValue(context, task.taskId);
    }

    /** The r0 slot of a saved context. */
    method ReturnValue(context: Word, value: Word)
      requires mem.Length == MEM_WORDS && Structures() && TasksMatch()
      modifies mem
      ensures Structures() && TasksMatch() && mem[..] == old(mem[..])[context / 4 := value]
    {
      hide Structures, TasksMatch;
      Store(mem, context / 4, value);
    }

    /** What timer0_isr and yield_handler do before sched. */
    method Suspended(context: Word)
      requires k.cur < |k.tasks| && Valid()
      modifies this`k, this`curr, ready.tasks`context, ready.tasks`status
      ensures Core() && curr == null && k == Suspend(old(k), context) && ready.tasks == old(ready.tasks)
    {
      hide Structures;
      assert forall i :: 0 <= i < |ready.tasks| && i != k.cur ==> ready.tasks[i] != curr by { TasksDistinct(); }
      curr.context := context;
      curr.status := Ready;
      curr := null;
      k := Suspend(k, context);
    }

    /** timer0_isr. */
    method TimerIsr(context: Word)
      requires Shaped(k) && Schedulable(Suspend(k, context)) && Valid()
      modifies this`curr, this`ttbr, this`k, ready`ready, ready.heads, ready.tasks
      ensures Valid() && k == SwitchAway(old(k), context)
    {
      hide Structures, TasksMatch, Dispatch, Suspend, Ranged, Pick, StatusOf;
      Suspended(context);
      Sched();
    }

    /** yield_handler. */
    method YieldHandler(context: Word)
      requires Shaped(k) && Schedulable(Suspend(k, context)) && Valid()
      modifies this`curr, this`ttbr, this`k, ready`ready, ready.heads, ready.tasks
      ensures Valid() && k == SwitchAway(old(k), context)
    {
      hide Structures, TasksMatch, Dispatch, Suspend, Ranged, Pick, StatusOf;
      Suspended(context);
      Sched();
    }

    // ---------------------------------------------------------------- exit

    /** The running task marked, and taken off its list if it is the last one there. */
    method PopCurrent(task: ReadyLists.TaskInfo)
      requires Structures() && task.priority < MAXNUM_PRIORITY
      requires task.taskId < |ready.tasks| && task == ready.tasks[task.taskId]
      requires task.taskId in ready.ready[task.priority]
      modifies task`status, ready`ready, ready.heads, ready.tasks`next, ready.tasks`prev
      ensures Structures() && ready.tasks == old(ready.tasks) && task.status == Terminate
      ensures ready.ready == old(ready.ready)[task.priority := Pop(old(ready.ready)[task.priority], task.taskId)]
    {
      hide ReadyLists.ReadyLists.Valid, Pages.PageLists.Valid, Blocks.KernelBlocks.Valid;
      task.status := Terminate;
      ready.TaskPop(task);
    }

    /** which_page and page_free on the page of a task that is not the head of the in-use list. */
    method ReleasePage(stkBottom: Word, ghost inuse: seq<nat>)
      requires inuse != [] && forall i :: 0 <= i < |inuse| ==> inuse[i] < Pages.PAGE_NUM
      requires inuse == pages.inuse && Structures()
      requires Pages.WhichPageId(inuse, RoundDown(stkBottom, SECTION)) != inuse[0]
      modifies pages`freeHead, pages`inuseHead, pages`free, pages`inuse, pages.pages
      ensures Structures()
      ensures var id := Pages.WhichPageId(inuse, RoundDown(stkBottom, SECTION));
              pages.free == old(pages.free) + [id] && pages.inuse == Without(inuse, id)
    {
      hide ReadyLists.ReadyLists.Valid, Blocks.KernelBlocks.Valid, Pages.WhichPageId, Without, Pages.List;
      var pg := pages.WhichPage(stkBottom);
      ghost var id := Pages.WhichPageId(inuse, RoundDown(stkBottom, SECTION));
      pages.PageFree(pg, id);
    }

    /** free_pgt. */
    method ReleaseTable(pgtbase: Word, ghost blk: nat)
      requires Structures() && blks.free != []
      requires blk in blks.used && blk < Blocks.KBLK_NUM && pgtbase == Blocks.KblkStart(blk)
      modifies blks`free, blks`used, blks.blks
      ensures Structures()
      ensures blks.free == old(blks.free) + [blk] && blks.used == Without(old(blks.used), blk)
    {
      hide ReadyLists.ReadyLists.Valid, Pages.PageLists.Valid, Blocks.KernelBlocks.Valid, Without;
      DivMod(pgtbase, 4096, 0x8_2000 + 4 * blk, 0);
      blks.Free(pgtbase, blk);
    }

    /** The three of them. */
    method ReleaseTask(task: ReadyLists.TaskInfo, ghost inuse: seq<nat>, ghost blk: nat)
      requires Structures() && task.priority < MAXNUM_PRIORITY
      requires task.taskId < |ready.tasks| && task == ready.tasks[task.taskId]
      requires task.taskId in ready.ready[task.priority]
      requires inuse != [] && forall i :: 0 <= i < |inuse| ==> inuse[i] < Pages.PAGE_NUM
      requires inuse == pages.inuse && Pages.WhichPageId(inuse, RoundDown(task.stkBottom, SECTION)) != inuse[0]
      requires blk in blks.used && blk < Blocks.KBLK_NUM && task.pgtbase == Blocks.KblkStart(blk) && blks.free != []
      modifies task`status, ready`ready, ready.heads, ready.tasks`next, ready.tasks`prev,
               pages`freeHead, pages`inuseHead, pages`free, pages`inuse, pages.pages, blks`free, blks`used, blks.blks
      ensures Structures() && ready.tasks == old(ready.tasks) && task.status == Terminate
      ensures ready.ready == old(ready.ready)[task.priority := Pop(old(ready.ready)[task.priority], task.taskId)]
      ensures var id := Pages.WhichPageId(inuse, RoundDown(task.stkBottom, SECTION));
              pages.free == old(pages.free) + [id] && pages.inuse == Without(inuse, id)
      ensures blks.free == old(blks.free) + [blk] && blks.used == Without(old(blks.used), blk)
    {
      hide Structures, Pages.WhichPageId, Without, Pop;
      PopCurrent(task);
      ReleasePage(task.stkBottom, inuse);
      ReleaseTable(task.pgtbase, blk);
    }

    /** exit_handler, for a live task whose page is not that of the path tree. */
    method ExitHandler()
      requires Shaped(k) && k.tasks[k.cur].priority < MAXNUM_PRIORITY
      requires k.cur in k.ready[k.tasks[k.cur].priority] && CurPage(k) != k.inuse[0]
      requires 0 <= KblkOf(k.tasks[k.cur].pgtbase) < Blocks.KBLK_NUM && KblkOf(k.tasks[k.cur].pgtbase) in k.kused
      requires k.tasks[k.cur].pgtbase == Blocks.KblkStart(KblkOf(k.tasks[k.cur].pgtbase)) && k.kfree != []
      requires Valid()
      modifies this`k, ready`ready, ready.heads, ready.tasks,
               pages`freeHead, pages`inuseHead, pages`free, pages`inuse, pages.pages, blks`free, blks`used, blks.blks
      ensures Valid() && k == KernelState.Exit(old(k))
    {
      hide Structures, Ranged, Pages.WhichPageId, Without, Pop;
      ghost var was, blk: nat := k, KblkOf(k.tasks[k.cur].pgtbase);
      assert CurNumbered() by { TasksNumbered(); }
      InuseInRange(was);
      ReleaseTask(curr, was.inuse, blk);
      k := KernelState.Exit(was);
      Left(was);
    }

    /** The record after an exit agrees with the structures when its parts do. */
    ghost method Left(was: KernelState.Kernel)
      requires Shaped(was) && was.tasks[was.cur].priority < MAXNUM_PRIORITY && mem.Length == MEM_WORDS && Structures()
      requires CurPage(was) != was.inuse[0] && 0 <= KblkOf(was.tasks[was.cur].pgtbase) < Blocks.KBLK_NUM
      requires k == KernelState.Exit(was) && |ready.tasks| == |was.tasks| && taskid == |was.tasks| - 1
      requires curr == ready.tasks[k.cur] && ttbr == was.ttbr && mem[..] == was.mem
      requires forall i :: 0 <= i < |was.tasks| ==>
                 Matches(ready.tasks[i], was.tasks[i].(status := if i == was.cur then Terminate else was.tasks[i].status))
      requires ready.ready == k.ready && pages.free == k.free && pages.inuse == k.inuse
      requires blks.free == k.kfree && blks.used == k.kused
      ensures Valid()
    {
      hide Structures, Ranged, Pages.WhichPageId, Without, Pop;
      ExitRecord(was);
    }

    ghost predicate CurNumbered()
      reads this`k, this`curr, ready`tasks
    {
      && k.cur < |ready.tasks| && curr == ready.tasks[k.cur] && curr.taskId == k.cur
      && forall i :: 0 <= i < |ready.tasks| && i != k.cur ==> ready.tasks[i] != curr
    }

    lemma TasksNumbered()
      requires Valid()
      ensures CurNumbered()
    {
    }

    // ---------------------------------------------------------------- fork

    /** Memory of the child's stack, and the two return values. */
    method CopyStack(pg: Word, parent: Word, at: Word, context: Word, id: Word)
      requires IsPageStart(pg) && IsPageStart(parent) && pg != parent && mem.Length == MEM_WORDS
      requires Structures() && TasksMatch()
      modifies mem
      ensures Structures() && TasksMatch()
      ensures mem[..] == Copy(Fill(old(mem[..]), pg / 4, STACK_WORDS, 0), pg / 4, parent / 4, STACK_WORDS)
                         [at / 4 := 0][context / 4 := id]
    {
      hide Structures, TasksMatch, Copy, Fill;
      DuplicateStack(mem, pg, parent);
      ReturnValue(at, 0);
      ReturnValue(context, id);
    }

    /** The first half of fork_handler: page, stack copy and TASK_INFO of the child. */
    method Duplicate(context: Word, ghost was: KernelState.Kernel)
      returns (task: ReadyLists.TaskInfo, pgstart: Word, top: Word, parent: Word)
      requires Shaped(was) && CanAllocate(was) && |was.tasks| < WORD_RANGE && mem.Length == MEM_WORDS
      requires ContextOnStack(was, context) && was.free[0] != CurPage(was)
      requires was == k && Valid()
      modifies this`taskid, pages`freeHead, pages`inuseHead, pages`free, pages`inuse, pages.pages, mem
      ensures fresh(task) && task.taskId == |ready.tasks| && task !in ready.tasks
      ensures Matches(task, ForkedTask(was, context)) && taskid == |was.tasks|
      ensures pgstart == Pages.PageStart(was.free[0]) && IsPageStart(pgstart) && top == PageTop(pgstart)
      ensures CurPage(was) < Pages.PAGE_NUM && parent == Pages.PageStart(CurPage(was)) && IsPageStart(parent)
      ensures mem[..] == ForkedMemory(was, context)
      ensures Structures() && TasksMatch()
      ensures pages.free == was.free[1..] && pages.inuse == was.inuse + [was.free[0]]
    {
      hide Structures, Ranged, Copy, Fill, Pages.WhichPageId;
      assert |ready.tasks| == |was.tasks| && Matches(curr, was.tasks[was.cur]);
      hide TasksMatch;
      RangedHead(was);
      CurPageInUse(was);
      PageStartIs(was.free[0]);
      PageStartIs(CurPage(was));
      parent := CurrentPage(was);
      var pg := TakePage(Pages.FOR_TASK);
      pgstart, top := pg.pgstart, pg.top;
      taskid := taskid + 1;
      var at: Word := StkTop(pgstart) - (StkTop(curr.stkBottom) - context);
      CopyStack(pgstart, parent, at, context, taskid);
      task := new ReadyLists.TaskInfo(taskid, curr.priority, pgstart, at);
    }

    /** which_page(curr_running_task->stk_bottom)->pgstart. */
    method CurrentPage(ghost was: KernelState.Kernel) returns (pgstart: Word)
      requires Shaped(was) && was == k && Valid()
      ensures CurPage(was) < Pages.PAGE_NUM && pgstart == Pages.PageStart(CurPage(was))
    {
      hide ReadyLists.ReadyLists.Valid, Blocks.KernelBlocks.Valid, Pages.WhichPageId, Pages.List;
      CurPageInUse(was);
      var page := pages.WhichPage(curr.stkBottom);
      pgstart := page.pgstart;
    }

    /** fork_handler. */
    method ForkHandler(context: Word)
      requires Shaped(k) && CanAllocate(k) && |k.tasks| < WORD_RANGE && mem.Length == MEM_WORDS
      requires ContextOnStack(k, context) && k.tasks[k.cur].priority < MAXNUM_PRIORITY && k.free[0] != CurPage(k)
      requires Valid()
      modifies this`k, this`taskid, ready`ready, ready`tasks, ready.heads, ready.tasks`next, ready.tasks`prev,
               pages`freeHead, pages`inuseHead, pages`free, pages`inuse, pages.pages,
               blks`head, blks`free, blks`used, blks.blks, mem
      ensures Valid() && k == KernelState.Fork(old(k), context)
    {
      hide Structures, TasksMatch, Ranged, ForkedMemory, ForkedTask, SetPte, TaskTable, Pages.WhichPageId;
      ghost var was := k;
      RangedHead(was);
      CurPageInUse(was);
      assert |ready.tasks| == |was.tasks| by { TasksCount(); }
      var task, pgstart, top, parent := Duplicate(context, was);
      ForkedTaskIs(was, context);
      EnterTask(task, pgstart, top, was, ForkedMemory(was, context), ForkedTask(was, context));
      ShareParent(parent, task.pgtbase);
    }

    /** set_pte for the page of the parent. */
    method ShareParent(parent: Word, base: Word)
      requires IsPageStart(parent) && mem.Length == MEM_WORDS && Core()
      modifies this`k, mem
      ensures Core() && k == old(k).(mem := SetPte(old(k).mem, parent, base))
    {
      hide SetPte, Structures;
      SetPteLoop(mem, parent, PageTop(parent), base);
      k := k.(mem := SetPte(k.mem, parent, base));
    }
  }

  /** choose_task sees the statuses of the record. */
  lemma SamePick(k: KernelState.Kernel, ready: ReadyLists.ReadyLists)
    requires ready.ready == k.ready && |ready.tasks| == |k.tasks|
    requires forall i :: 0 <= i < |k.tasks| ==> ready.tasks[i].status == k.tasks[i].status
    ensures Pick(ready.ready, ready.StatusFn(), 0) == Pick(k.ready, StatusOf(k), 0)
  {
    PickAgrees(k.ready, ready.StatusFn(), StatusOf(k), 0);
  }

  lemma {:induction false} PickAgrees(q: Queues, f: nat -> Status, g: nat -> Status, p: nat)
    requires p <= MAXNUM_PRIORITY && forall t: nat :: f(t) == g(t)
    ensures Pick(q, f, p) == Pick(q, g, p)
    decreases MAXNUM_PRIORITY - p
  {
    if p < MAXNUM_PRIORITY {
      PickAgrees(q, f, g, p + 1);
    }
  }

  /** Dispatch, field by field. */
  lemma DispatchRecord(k: KernelState.Kernel)
    requires Ranged(k) && Schedulable(k)
    ensures var d, p := Dispatch(k), Pick(k.ready, StatusOf(k), 0);
            && Ranged(d) && |d.tasks| == |k.tasks| && d.ready == Rotate(k.ready, p)
            && d.cur == k.ready[p][0] < |k.tasks|
            && (forall i :: 0 <= i < |k.tasks| ==>
                  d.tasks[i] == if i == d.cur then k.tasks[i].(status := Running) else k.tasks[i])
            && d.ttbr == k.tasks[d.cur].pgtbase && d.mem == k.mem
            && d.free == k.free && d.inuse == k.inuse && d.kfree == k.kfree && d.kused == k.kused
  {
    hide StatusOf;
    var p := Pick(k.ready, StatusOf(k), 0);
    var d := Dispatch(k);
    forall q, i | 0 <= q < MAXNUM_PRIORITY && 0 <= i < |d.ready[q]|
      ensures d.ready[q][i] < |d.tasks|
    {
      if q == p && i < |d.ready[p]| - 1 {
        assert d.ready[p][i] == k.ready[p][i + 1];
      }
    }
  }

  lemma RangedHead(k: KernelState.Kernel)
    requires Ranged(k) && k.free != []
    ensures k.free[0] < Pages.PAGE_NUM
  {
  }

  /** The state after exit is in range again. */
  lemma ExitRecord(k: KernelState.Kernel)
    requires Shaped(k) && k.tasks[k.cur].priority < MAXNUM_PRIORITY
    requires CurPage(k) != k.inuse[0]
    requires 0 <= KblkOf(k.tasks[k.cur].pgtbase) < Blocks.KBLK_NUM
    ensures Ranged(KernelState.Exit(k))
  {
    hide Pages.WhichPageId;
    var e := KernelState.Exit(k);
    CurPageInUse(k);
    WithoutInRange(k.inuse, CurPage(k), Pages.PAGE_NUM);
    WithoutInRange(k.kused, KblkOf(k.tasks[k.cur].pgtbase), Blocks.KBLK_NUM);
    WithoutNotEmpty(k.inuse, CurPage(k));
  }

  lemma {:induction false} WithoutInRange(s: seq<nat>, x: nat, n: nat)
    requires forall i :: 0 <= i < |s| ==> s[i] < n
    ensures forall i :: 0 <= i < |Without(s, x)| ==> Without(s, x)[i] < n
    decreases |s|
  {
    if s != [] && s[0] != x {
      WithoutInRange(s[1..], x, n);
    }
  }

  lemma WithoutNotEmpty(s: seq<nat>, x: nat)
    requires s != [] && s[0] != x
    ensures Without(s, x) != []
  {
  }

  lemma InuseInRange(k: KernelState.Kernel)
    requires Ranged(k)
    ensures k.inuse != [] && forall i :: 0 <= i < |k.inuse| ==> k.inuse[i] < Pages.PAGE_NUM
  {
  }

  lemma ForkedTaskIs(k: KernelState.Kernel, context: Word)
    requires Shaped(k) && CanAllocate(k) && ContextOnStack(k, context)
    ensures ForkedTask(k, context).priority == k.tasks[k.cur].priority
    ensures ForkedTask(k, context).status == Ready && ForkedTask(k, context).pgtbase == 0
  {
  }

  lemma BootSchedulable(m: Memory, first: nat, shell: Word)
    requires first + 2 < Blocks.KBLK_NUM
    ensures Ranged(Initial(m, first)) && CanAllocate(Initial(m, first))
    ensures Schedulable(KernelState.DoTaskCreate(Initial(m, first), LOWEST_PRIORITY, shell))
  {
    hide TaskTable, FreshStack;
    var k := KernelState.DoTaskCreate(Initial(m, first), LOWEST_PRIORITY, shell);
    assert Initial(m, first).ready[LOWEST_PRIORITY] + [0] == [0];
    assert k.ready == [[], [], [], [], [0]];
    assert Pick(k.ready, StatusOf(k), 0) == LOWEST_PRIORITY;
  }
}
