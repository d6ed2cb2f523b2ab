/** What the kernel keeps between two entries, and what each handler does to it: the specification that the handlers
    of task.c, syscall.c and interrupt.c are verified against.

    A task is named by its task id, a page and a kernel block by their index.  Memory is the memory of the task pages
    and of the page tables; TASK_INFO structures and block descriptors are kept apart from it. */
module KernelState {
  import opened Words
  import opened Layout
  import opened Seqs
  import opened Mmu
  import opened PageTables
  import opened Mem
  import opened Sched
  import Pages
  import Blocks

  const STACK_WORDS: nat := 1024       // TASK_STACK_SIZE / 4
  const TASK_INFO_BYTES: nat := 76     // sizeof(struct TASK_INFO)
  const BLK_TABLE: nat := 0x1000       // the block descriptors of a page, in blocks 1 and 2
  const FREE_AREA: nat := 0x3000       // from here on a page belongs to its task alone

  datatype Task = Task(priority: nat, status: Status, stkBottom: Word, context: Word, pgtbase: Word)

  datatype Kernel = Kernel(
    ready: Queues,
    tasks: seq<Task>,      // by task id; the task of id |tasks| - 1 is the youngest (taskid)
    cur: nat,              // curr_running_task
    free: seq<nat>,        // pages
    inuse: seq<nat>,
    kfree: seq<nat>,       // kernel blocks
    kused: seq<nat>,
    mem: Memory,
    ttbr: Word)

  /** stk_top of a task whose stack starts at stkBottom. */
  function StkTop(stkBottom: Word): int {
    stkBottom + 4 * (STACK_WORDS - 1)
  }

  /** Where create_task puts the first context of a task. */
  function FirstContext(stkBottom: Word): int {
    StkTop(stkBottom) - 4 * 15
  }

  predicate PageIds(s: seq<nat>) {
    forall i :: 0 <= i < |s| ==> s[i] < Pages.PAGE_NUM
  }

  predicate KblkIds(s: seq<nat>) {
    forall i :: 0 <= i < |s| ==> s[i] < Blocks.KBLK_NUM
  }

  /** Every index in the state is in range ... */
  predicate Ranged(k: Kernel) {
    && (forall p, i :: 0 <= p < MAXNUM_PRIORITY && 0 <= i < |k.ready[p]| ==> k.ready[p][i] < |k.tasks|)
    && PageIds(k.free) && PageIds(k.inuse) && k.inuse != []
    && KblkIds(k.kfree) && KblkIds(k.kused)
  }

  /** ... and a task is current. */
  predicate Shaped(k: Kernel) {
    Ranged(k) && k.cur < |k.tasks|
  }

  function StatusOf(k: Kernel): nat -> Status {
    (t: nat) => if t < |k.tasks| then k.tasks[t].status else Terminate
  }

  // ------------------------------------------------------------------ sched

  /** A task that choose_task may return exists. */
  predicate Schedulable(k: Kernel) {
    Pick(k.ready, StatusOf(k), 0) < MAXNUM_PRIORITY
  }

  /** sched: choose_task, then the page table of the chosen task. */
  function Dispatch(k: Kernel): Kernel
    requires Ranged(k) && Schedulable(k)
  {
    var p := Pick(k.ready, StatusOf(k), 0);
    var t := k.ready[p][0];
    k.(ready := Rotate(k.ready, p), tasks := k.tasks[t := k.tasks[t].(status := Running)], cur := t,
       ttbr := k.tasks[t].pgtbase)
  }

  /** The part that timer0_isr and yield_handler share: the context is recorded and the task is READY again. */
  function Suspend(k: Kernel, context: Word): Kernel
    requires Shaped(k)
  {
    k.(tasks := k.tasks[k.cur := k.tasks[k.cur].(context := context, status := Ready)])
  }

  /** timer0_isr and yield_handler. */
  function SwitchAway(k: Kernel, context: Word): Kernel
    requires Shaped(k) && Schedulable(Suspend(k, context))
  {
    Dispatch(Suspend(k, context))
  }

  // ------------------------------------------------------------------ creation

  /** Two free pages and two free kernel blocks: the allocators take the first and write to the second. */
  predicate CanAllocate(k: Kernel) {
    2 <= |k.free| && 2 <= |k.kfree|
  }

  /** Page, id, list entry and page table of a new task, whose memory was prepared as m. */
  function Admit(k: Kernel, m: Memory, t: Task): Kernel
    requires Ranged(k) && CanAllocate(k) && t.priority < MAXNUM_PRIORITY
  {
    var page, blk := k.free[0], k.kfree[0];
    var base := Blocks.KblkStart(blk);
    k.(free := k.free[1..], inuse := k.inuse + [page],
       kfree := k.kfree[1..], kused := k.kused + [blk],
       tasks := k.tasks + [t.(pgtbase := base)],
       ready := Enqueue(k.ready, t.priority, |k.tasks|),
       mem := TaskTable(m, Pages.PageStart(page), base))
  }

  /** A page cleared for its stack, with the entry point in the r9 slot of the first context. */
  function FreshStack(m: Memory, pgstart: Word, entry: Word): Memory
    requires IsPageStart(pgstart)
  {
    Fill(m, pgstart / 4, STACK_WORDS, 0)[(FirstContext(pgstart) + 36) / 4 := entry]
  }

  lemma PageStartIs(i: nat)
    requires i < Pages.PAGE_NUM
    ensures IsPageStart(Pages.PageStart(i)) && Sec(Pages.PageStart(i)) == 0x821 + i
  {
    DivMod(Pages.PageStart(i), SECTION, 0x821 + i, 0);
  }

  function NewTask(k: Kernel, prio: nat): Task
    requires Ranged(k) && CanAllocate(k)
  {
    var pg := Pages.PageStart(k.free[0]);
    Task(prio, Ready, pg, FirstContext(pg), 0)
  }

  /** do_task_create. */
  function DoTaskCreate(k: Kernel, prio: nat, entry: Word): Kernel
    requires Ranged(k) && CanAllocate(k) && prio < MAXNUM_PRIORITY
  {
    PageStartIs(k.free[0]);
    Admit(k, FreshStack(k.mem, Pages.PageStart(k.free[0]), entry), NewTask(k, prio))
  }

  /** task_create_handler: the id of the new task goes to the r0 slot of the caller's saved context. */
  function TaskCreate(k: Kernel, context: Word, prio: nat, entry: Word): Kernel
    requires Ranged(k) && CanAllocate(k) && prio < MAXNUM_PRIORITY && |k.tasks| < WORD_RANGE
  {
    PageStartIs(k.free[0]);
    Admit(k, FreshStack(k.mem, Pages.PageStart(k.free[0]), entry)[context / 4 := |k.tasks|], NewTask(k, prio))
  }

  /** The page of the running task as the handlers find it: which_page(stk_bottom). */
  function CurPage(k: Kernel): nat
    requires Shaped(k)
  {
    Pages.WhichPageId(k.inuse, RoundDown(k.tasks[k.cur].stkBottom, SECTION))
  }

  lemma CurPageInUse(k: Kernel)
    requires Shaped(k)
    ensures CurPage(k) in k.inuse && CurPage(k) < Pages.PAGE_NUM
  {
    WhichPageIdIn(k.inuse, RoundDown(k.tasks[k.cur].stkBottom, SECTION));
  }

  lemma {:induction false} WhichPageIdIn(ids: seq<nat>, pg: Word)
    requires ids != [] && forall i :: 0 <= i < |ids| ==> ids[i] <= Pages.PAGE_NUM
    ensures Pages.WhichPageId(ids, pg) in ids
  {
    if |ids| != 1 && Pages.PageStart(ids[0]) != pg {
      WhichPageIdIn(ids[1..], pg);
    }
  }

  /** fork_handler: the stack of the parent is copied word by word, the child's context sits at the same distance from
      its stack top, r0 is 0 in the child and the child's id in the parent, and both pages are writable through the
      table of the child. */
  function ForkContext(k: Kernel, context: Word): int
    requires Shaped(k) && CanAllocate(k)
  {
    StkTop(Pages.PageStart(k.free[0])) - (StkTop(k.tasks[k.cur].stkBottom) - context)
  }

  /** The context lies in the stack part of the page of the running task. */
  predicate ContextOnStack(k: Kernel, context: Word)
    requires Shaped(k)
  {
    var base := k.tasks[k.cur].stkBottom;
    base <= context && context + 56 <= base + 4 * STACK_WORDS
  }

  /** The pages after the copy: the child's stack is the parent's, apart from the two r0 slots. */
  function ForkedMemory(k: Kernel, context: Word): Memory
    requires Shaped(k) && CanAllocate(k) && |k.tasks| < WORD_RANGE && ContextOnStack(k, context)
  {
    PageStartIs(k.free[0]);
    CurPageInUse(k);
    PageStartIs(CurPage(k));
    var pg, parent := Pages.PageStart(k.free[0]), Pages.PageStart(CurPage(k));
    Copy(Fill(k.mem, pg / 4, STACK_WORDS, 0), pg / 4, parent / 4, STACK_WORDS)
    [ForkContext(k, context) / 4 := 0][context / 4 := |k.tasks|]
  }

  /** The TASK_INFO of the child. */
  function ForkedTask(k: Kernel, context: Word): Task
    requires Shaped(k) && CanAllocate(k) && ContextOnStack(k, context)
  {
    PageStartIs(k.free[0]);
    Task(k.tasks[k.cur].priority, Ready, Pages.PageStart(k.free[0]), ForkContext(k, context), 0)
  }

  function Fork(k: Kernel, context: Word): Kernel
    requires Shaped(k) && CanAllocate(k) && |k.tasks| < WORD_RANGE
    requires ContextOnStack(k, context) && k.tasks[k.cur].priority < MAXNUM_PRIORITY
  {
    CurPageInUse(k);
    PageStartIs(CurPage(k));
    var k' := Admit(k, ForkedMemory(k, context), ForkedTask(k, context));
    k'.(mem := SetPte(k'.mem, Pages.PageStart(CurPage(k)), Blocks.KblkStart(k.kfree[0])))
  }

  // ------------------------------------------------------------------ exit

  /** The block that kblk_free finds for a page table. */
  function KblkOf(pgtbase: Word): int {
    (pgtbase - Blocks.KPAGE_START) / Blocks.KBLK_SIZE
  }

  /** exit_handler.  curr_running_task and the active table stay what they are until the next tick. */
  function Exit(k: Kernel): Kernel
    requires Shaped(k) && k.tasks[k.cur].priority < MAXNUM_PRIORITY && 0 <= KblkOf(k.tasks[k.cur].pgtbase)
  {
    var t := k.tasks[k.cur];
    var page, blk: nat := CurPage(k), KblkOf(t.pgtbase);
    k.(tasks := k.tasks[k.cur := t.(status := Terminate)],
       ready := k.ready[t.priority := Pop(k.ready[t.priority], k.cur)],
       free := k.free + [page], inuse := Without(k.inuse, page),
       kfree := k.kfree + [blk], kused := Without(k.kused, blk))
  }

  // ------------------------------------------------------------------ start-up

  /** The kernel when do_task_create is called for the shell: page 0 holds the path tree, the first kernel block the
      IPC queue. */
  function Initial(mem: Memory, first: nat): Kernel
    requires first < Blocks.KBLK_NUM
  {
    Kernel([[], [], [], [], []], [], 0, Range(1, Pages.PAGE_NUM), [0],
           Range(first + 1, Blocks.KBLK_NUM), [first], mem, 0)
  }

  /** After run_first_sched. */
  function Boot(mem: Memory, first: nat, shell: Word): Kernel
    requires first + 2 < Blocks.KBLK_NUM
  {
    var k := DoTaskCreate(Initial(mem, first), LOWEST_PRIORITY, shell);
    assert Pick(k.ready, StatusOf(k), 0) == LOWEST_PRIORITY;
    Dispatch(k)
  }
}
