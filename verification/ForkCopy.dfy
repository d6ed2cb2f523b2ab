/** fork: what the child shares with its parent, and what the handlers may rely on when a step is possible. */
module ForkCopy {
  import opened Words
  import opened Layout
  import opened Seqs
  import opened Mmu
  import opened PageTables
  import opened Mem
  import opened Sched
  import opened Context
  import opened KernelState
  import opened Steps
  import opened Invariants
  import Pages
  import Blocks

  /** The page that fork copies from is the page of the running task. */
  lemma ParentPage(m: Machine, first: nat)
    requires Inv(m, first) && Shaped(m.k) && m.k.cur !in m.exited
    ensures CurPage(m.k) == PageOf(m.k.tasks[m.k.cur]) < Pages.PAGE_NUM
    ensures m.k.tasks[m.k.cur].stkBottom == Pages.PageStart(CurPage(m.k)) && CurPage(m.k) in m.k.inuse
    ensures CurPage(m.k) != m.k.inuse[0] && CurPage(m.k) != TREE_PAGE
    ensures m.k.free != [] ==> m.k.free[0] != CurPage(m.k) && m.k.free[0] < Pages.PAGE_NUM
  {
    hide QueuesOk, BlocksOk, ContextsOk;
    assert OwnsPage(m.k, m.k.tasks[m.k.cur]);
    OwnPageFound(m.k, m.k.tasks[m.k.cur]);
    if m.k.free != [] {
      PartitionHead(0, Pages.PAGE_NUM, m.k.free, m.k.inuse);
    }
  }

  /** Whenever a step is possible, the state meets the preconditions of its handler. */
  lemma HandlersApply(m: Machine, e: Event, first: nat)
    requires Inv(m, first) && Enabled(m, e) && (e.Exit? || e.Fork?)
    ensures var k := m.k;
            && k.tasks[k.cur].priority < MAXNUM_PRIORITY && k.cur in k.ready[k.tasks[k.cur].priority]
            && CurPage(k) != k.inuse[0] && (e.Fork? ==> k.free[0] != CurPage(k))
            && 0 <= KblkOf(k.tasks[k.cur].pgtbase) < Blocks.KBLK_NUM && KblkOf(k.tasks[k.cur].pgtbase) in k.kused
            && k.tasks[k.cur].pgtbase == Blocks.KblkStart(KblkOf(k.tasks[k.cur].pgtbase)) && k.kfree != []
  {
    ParentPage(m, first);
    assert OwnsBlock(m.k, m.k.tasks[m.k.cur]);
  }

  /** Word i of the stack page. */
  function StackWord(mem: Memory, page: Word, i: nat): Word
    requires i < STACK_WORDS && IsPageStart(page)
  {
    mem[page / 4 + i]
  }

  /** The stacks in two pages hold the same words beyond TASK_INFO, except in the r0 slot at word index r0. */
  ghost predicate SameStack(mem: Memory, from: Word, to: Word, r0: int)
    requires IsPageStart(from) && IsPageStart(to)
  {
    forall i :: TASK_INFO_BYTES / 4 <= i < STACK_WORDS && from / 4 + i != r0 ==>
      StackWord(mem, to, i) == StackWord(mem, from, i)
  }

  /** After a fork the child is in the state the parent was in when it called: same stack words, its context at the
      same distance from its stack top with the parent's registers, r0 being 0 in the child and the child's id in the
      parent. */
  lemma ForkCopies(m: Machine, e: Event, m': Machine, first: nat)
    requires Inv(m, first) && Leads(m, e, m') && e.Fork?
    ensures FRAME_BYTES <= m.regs.sp && m.k.cur < |m.k.tasks| && |m'.k.tasks| == |m.k.tasks| + 1
    ensures var child, at := m'.k.tasks[|m.k.tasks|], m.regs.sp - FRAME_BYTES;
            var parent := m.k.tasks[m.k.cur];
            && IsPageStart(child.stkBottom) && IsPageStart(parent.stkBottom) && child.stkBottom != parent.stkBottom
            && child.priority == parent.priority
            && StkTop(child.stkBottom) - child.context == StkTop(parent.stkBottom) - at
            && SameStack(m'.k.mem, parent.stkBottom, child.stkBottom, at / 4)
            && at / 4 + FRAME_WORDS <= MEM_WORDS
            && m'.k.mem[at / 4] == |m.k.tasks| && m'.k.mem[child.context / 4] == 0
            && m'.k.mem[at / 4 + 1..at / 4 + FRAME_WORDS] == Frame(m.regs, e.r10)[1..]
            && child.context / 4 + FRAME_WORDS <= MEM_WORDS
            && m'.k.mem[child.context / 4 + 1..child.context / 4 + FRAME_WORDS] == Frame(m.regs, e.r10)[1..]
            && FramePlace(child.stkBottom, child.context) && FramePlace(parent.stkBottom, at)
            && child.status == Ready
  {
    hide Frame, Leads, Inv, CurPage, TaskTable, SetPte, ForkedMemory, SameStack, KernelState.Fork;
    InvIsShaped(m, first);
    ForkIs(m, e, m');
    var pushed := PushKeepsInv(m, e.r10, first);
    ParentPage(pushed, first);
    var at: Word := m.regs.sp - FRAME_BYTES;
    ForkContextPlaced(pushed, at, first);
    PageStartIs(m.k.free[0]);
    PageStartIs(CurPage(pushed.k));
    ForkStacks(pushed.k, at);
    ForkSlots(pushed.k, at);
    ForkedTaskIs(pushed.k, at);
    ForkFrame(m, e, m', at);
    var parent, child := m.k.tasks[m.k.cur].stkBottom, Pages.PageStart(m.k.free[0]);
    ChildFrame(m'.k.mem, parent, child, at, ForkContext(pushed.k, at));
  }

  /** Words 1..13 of a context on one stack are those at the same offset of the other. */
  lemma ChildFrame(mem: Memory, from: Word, to: Word, at: int, at': int)
    requires IsPageStart(from) && IsPageStart(to) && SameStack(mem, from, to, at / 4)
    requires FramePlace(from, at) && at + FRAME_BYTES <= from + 4 * STACK_WORDS && at' - to == at - from
    ensures at' / 4 + FRAME_WORDS <= MEM_WORDS && at / 4 + FRAME_WORDS <= MEM_WORDS
    ensures 0 <= at && 0 <= at'
    ensures mem[at' / 4 + 1..at' / 4 + FRAME_WORDS] == mem[at / 4 + 1..at / 4 + FRAME_WORDS]
  {
    MultipleOfFour(from);
    MultipleOfFour(to);
    var f, f' := mem[at / 4 + 1..at / 4 + FRAME_WORDS], mem[at' / 4 + 1..at' / 4 + FRAME_WORDS];
    forall d | 0 <= d < FRAME_WORDS - 1 ensures f'[d] == f[d] {
      var i := (at - from) / 4 + 1 + d;
      assert from / 4 + i == at / 4 + 1 + d && to / 4 + i == at' / 4 + 1 + d;
      assert StackWord(mem, to, i) == StackWord(mem, from, i);
    }
  }

  lemma ForkStacks(k: Kernel, at: Word)
    requires Shaped(k) && CanAllocate(k) && |k.tasks| < WORD_RANGE && ContextOnStack(k, at) && at % 4 == 0
    requires k.tasks[k.cur].priority < MAXNUM_PRIORITY && CurPage(k) < Pages.PAGE_NUM
    requires k.tasks[k.cur].stkBottom == Pages.PageStart(CurPage(k)) && k.free[0] != CurPage(k)
    ensures IsPageStart(k.tasks[k.cur].stkBottom) && IsPageStart(Pages.PageStart(k.free[0]))
    ensures SameStack(KernelState.Fork(k, at).mem, k.tasks[k.cur].stkBottom, Pages.PageStart(k.free[0]), at / 4)
  {
    hide CurPage, KernelState.Fork;
    PageStartIs(k.free[0]);
    PageStartIs(CurPage(k));
    forall i | TASK_INFO_BYTES / 4 <= i < STACK_WORDS && k.tasks[k.cur].stkBottom / 4 + i != at / 4
      ensures StackWord(KernelState.Fork(k, at).mem, Pages.PageStart(k.free[0]), i) ==
              StackWord(KernelState.Fork(k, at).mem, k.tasks[k.cur].stkBottom, i)
    {
      ForkWord(k, at, i);
    }
  }

  lemma ForkedTaskIs(k: Kernel, at: Word)
    requires Shaped(k) && CanAllocate(k) && |k.tasks| < WORD_RANGE && ContextOnStack(k, at)
    requires k.tasks[k.cur].priority < MAXNUM_PRIORITY
    ensures var k' := KernelState.Fork(k, at);
            && |k'.tasks| == |k.tasks| + 1
            && var c := k'.tasks[|k.tasks|];
               c.stkBottom == Pages.PageStart(k.free[0]) && c.context == ForkContext(k, at)
               && c.priority == k.tasks[k.cur].priority && c.status == Ready
  {
    hide TaskTable, SetPte, ForkedMemory, CurPage;
  }

  /** Words 1..13 of the parent's saved context are not touched. */
  lemma ForkFrame(m: Machine, e: Event, m': Machine, at: Word)
    requires Leads(m, e, m') && e.Fork? && at == m.regs.sp - FRAME_BYTES && Shaped(m.k)
    requires CurPage(Push(m, e.r10)) < Pages.PAGE_NUM
    requires m.k.tasks[m.k.cur].stkBottom == Pages.PageStart(CurPage(Push(m, e.r10)))
    requires m.k.free[0] != CurPage(Push(m, e.r10))
    ensures at / 4 + FRAME_WORDS <= MEM_WORDS
    ensures m'.k.mem[at / 4 + 1..at / 4 + FRAME_WORDS] == Frame(m.regs, e.r10)[1..]
  {
    hide Leads, Frame, CurPage, Shaped, KernelState.Fork, Write;
    ForkIs(m, e, m');
    FrameUntouched(Push(m, e.r10), at);
    assert Push(m, e.r10).mem[at / 4..at / 4 + FRAME_WORDS] == Frame(m.regs, e.r10);
  }

  lemma FrameUntouched(k: Kernel, at: Word)
    requires Shaped(k) && CanAllocate(k) && |k.tasks| < WORD_RANGE && ContextOnStack(k, at) && at % 4 == 0
    requires k.tasks[k.cur].priority < MAXNUM_PRIORITY && CurPage(k) < Pages.PAGE_NUM
    requires k.tasks[k.cur].stkBottom == Pages.PageStart(CurPage(k)) && k.free[0] != CurPage(k)
    ensures at / 4 + FRAME_WORDS <= MEM_WORDS
    ensures KernelState.Fork(k, at).mem[at / 4 + 1..at / 4 + FRAME_WORDS] ==
            k.mem[at / 4..at / 4 + FRAME_WORDS][1..]
  {
    hide CurPage, KernelState.Fork;
    PageStartIs(CurPage(k));
    MultipleOfFour(k.tasks[k.cur].stkBottom);
    forall j | at / 4 < j < at / 4 + FRAME_WORDS
      ensures KernelState.Fork(k, at).mem[j] == k.mem[j]
    {
      ForkWord(k, at, j - k.tasks[k.cur].stkBottom / 4);
    }
  }

  lemma ForkIs(m: Machine, e: Event, m': Machine)
    requires Leads(m, e, m') && e.Fork?
    ensures Shaped(m.k) && CanPush(m.regs.sp) && CanAllocate(m.k) && |m.k.tasks| < WORD_RANGE
    ensures m.k.cur !in m.exited
    ensures var k := Push(m, e.r10);
            && Shaped(k) && ContextOnStack(k, m.regs.sp - FRAME_BYTES) && k.tasks[k.cur].priority < MAXNUM_PRIORITY
            && m'.k == KernelState.Fork(k, m.regs.sp - FRAME_BYTES)
  {
    hide Write, Frame, FrameSpot, KernelState.Fork;
    PushIsShaped(m, e.r10);
  }

  /** One word of both stacks after fork_handler. */
  lemma ForkWord(k: Kernel, at: Word, i: nat)
    requires Shaped(k) && CanAllocate(k) && |k.tasks| < WORD_RANGE && ContextOnStack(k, at) && at % 4 == 0
    requires k.tasks[k.cur].priority < MAXNUM_PRIORITY && CurPage(k) < Pages.PAGE_NUM
    requires k.tasks[k.cur].stkBottom == Pages.PageStart(CurPage(k)) && k.free[0] != CurPage(k)
    requires i < STACK_WORDS && k.tasks[k.cur].stkBottom / 4 + i != at / 4
    ensures var k' := KernelState.Fork(k, at);
            var from, to := k.tasks[k.cur].stkBottom, Pages.PageStart(k.free[0]);
            && IsPageStart(from) && IsPageStart(to)
            && StackWord(k'.mem, to, i) == StackWord(k.mem, from, i) == StackWord(k'.mem, from, i)
  {
    hide CurPage, TaskTable, SetPte;
    var from, to := k.tasks[k.cur].stkBottom, Pages.PageStart(k.free[0]);
    PageStartIs(k.free[0]);
    PageStartIs(CurPage(k));
    MultipleOfFour(from);
    MultipleOfFour(to);
    ForkedWord(k, at, i);
    var m := ForkedMemory(k, at);
    hide ForkedMemory;
    TablesElsewhere(k, m, from, to, from / 4 + i);
    TablesElsewhere(k, m, from, to, to / 4 + i);
  }

  /** Any word before the page tables are written. */
  lemma ForkedMemoryAt(k: Kernel, at: Word, j: nat)
    requires Shaped(k) && CanAllocate(k) && |k.tasks| < WORD_RANGE && ContextOnStack(k, at) && j < MEM_WORDS
    requires CurPage(k) < Pages.PAGE_NUM
    ensures var pg, parent := Pages.PageStart(k.free[0]) / 4, Pages.PageStart(CurPage(k)) / 4;
            && parent + STACK_WORDS <= MEM_WORDS
            && ForkedMemory(k, at)[j] ==
               if j == at / 4 then |k.tasks|
               else if j == ForkContext(k, at) / 4 then 0
               else if pg <= j < pg + STACK_WORDS then
                 Fill(k.mem, pg, STACK_WORDS, 0)[parent + (j - pg)]
               else k.mem[j]
  {
    hide CurPage, Write;
    PageStartIs(k.free[0]);
    PageStartIs(CurPage(k));
  }

  /** The same for a word of both stacks. */
  lemma ForkedWord(k: Kernel, at: Word, i: nat)
    requires Shaped(k) && CanAllocate(k) && |k.tasks| < WORD_RANGE && ContextOnStack(k, at) && at % 4 == 0
    requires CurPage(k) < Pages.PAGE_NUM
    requires k.tasks[k.cur].stkBottom == Pages.PageStart(CurPage(k)) && k.free[0] != CurPage(k)
    requires i < STACK_WORDS && k.tasks[k.cur].stkBottom / 4 + i != at / 4
    ensures var from, to := k.tasks[k.cur].stkBottom, Pages.PageStart(k.free[0]);
            && IsPageStart(from) && IsPageStart(to)
            && StackWord(ForkedMemory(k, at), to, i) == StackWord(k.mem, from, i)
                 == StackWord(ForkedMemory(k, at), from, i)
  {
    hide CurPage, Write, Copy, ForkedMemory;
    var from, to := k.tasks[k.cur].stkBottom, Pages.PageStart(k.free[0]);
    PageStartIs(k.free[0]);
    PageStartIs(CurPage(k));
    MultipleOfFour(from);
    MultipleOfFour(to);
    ForkedMemoryAt(k, at, to / 4 + i);
    ForkedMemoryAt(k, at, from / 4 + i);
  }

  /** The two r0 slots. */
  lemma ForkSlots(k: Kernel, at: Word)
    requires Shaped(k) && CanAllocate(k) && |k.tasks| < WORD_RANGE && ContextOnStack(k, at) && at % 4 == 0
    requires k.tasks[k.cur].priority < MAXNUM_PRIORITY && CurPage(k) < Pages.PAGE_NUM
    requires k.tasks[k.cur].stkBottom == Pages.PageStart(CurPage(k)) && k.free[0] != CurPage(k)
    ensures var k' := KernelState.Fork(k, at);
            k'.mem[at / 4] == |k.tasks| && k'.mem[ForkContext(k, at) / 4] == 0
  {
    hide CurPage, TaskTable, SetPte;
    var from, to := k.tasks[k.cur].stkBottom, Pages.PageStart(k.free[0]);
    PageStartIs(k.free[0]);
    PageStartIs(CurPage(k));
    MultipleOfFour(from);
    MultipleOfFour(to);
    var m := ForkedMemory(k, at);
    TablesElsewhere(k, m, from, to, at / 4);
    TablesElsewhere(k, m, from, to, ForkContext(k, at) / 4);
  }

  /** The page tables written by a fork lie outside every task page. */
  lemma TablesElsewhere(k: Kernel, m: Memory, from: Word, to: Word, j: nat)
    requires Shaped(k) && CanAllocate(k) && IsPageStart(from) && IsPageStart(to) && j < MEM_WORDS
    requires UMEM_START <= 4 * j
    ensures var base := Blocks.KblkStart(k.kfree[0]);
            SetPte(TaskTable(m, to, base), from, base)[j] == m[j]
  {
    var base := Blocks.KblkStart(k.kfree[0]);
    assert TableIndex(base) == 0x2080_0000 + k.kfree[0] * 0x1000 by {
      DivMod(base, TABLE_BYTES, 0x2_0800 + k.kfree[0], 0);
    }
    TablesStayInBlock(m, to, base, j);
    TablesStayInBlock(TaskTable(m, to, base), from, base, j);
  }

  /** The child may write its own page and its parent's, and nothing else in the DRAM window. */
  lemma ForkShares(m: Machine, e: Event, m': Machine, first: nat)
    requires Inv(m, first) && Leads(m, e, m') && e.Fork?
    ensures var child := |m.k.tasks|;
            && |m'.k.tasks| == child + 1
            && WindowIs(m'.k.mem, m'.k.tasks[child].pgtbase,
                        {Sec(m'.k.tasks[child].stkBottom), Sec(m.k.tasks[m.k.cur].stkBottom)})
  {
    hide Leads, Inv, WindowIs, ForkedMemory, SetPte, TaskTable, CurPage, FrameSpot, Frame, Write;
    ForkIs(m, e, m');
    var pushed := PushKeepsInv(m, e.r10, first);
    ParentPage(pushed, first);
    PageStartIs(m.k.free[0]);
    PageStartIs(CurPage(pushed.k));
    ForkTableWindow(ForkedMemory(pushed.k, m.regs.sp - FRAME_BYTES), Pages.PageStart(m.k.free[0]),
                    Pages.PageStart(CurPage(pushed.k)), Blocks.KblkStart(m.k.kfree[0]));
  }

  /** The table of a forked child permits stores that the runs leave out: one to the first word of the parent's page
      destroys the parent's TASK_INFO, in which the kernel keeps list links, status, context and table. */
  lemma ForkChildReachesTaskInfo(m: Machine, e: Event, m': Machine, first: nat)
    requires Inv(m, first) && Leads(m, e, m') && e.Fork?
    ensures var child, parent := |m.k.tasks|, m.k.tasks[m.k.cur];
            && |m'.k.tasks| == child + 1
            && var t := Walk(m'.k.mem, m'.k.tasks[child].pgtbase, parent.stkBottom);
               t.UserWritable() && t.pa == parent.stkBottom && !PagePrivate(t.pa)
  {
    hide Leads, Inv, Decode, CurPage, Frame, Write, FrameSpot, KernelState.Fork;
    ForkShares(m, e, m', first);
    ForkIs(m, e, m');
    var parent := m.k.tasks[m.k.cur].stkBottom;
    var pushed := PushKeepsInv(m, e.r10, first);
    ParentPage(pushed, first);
    PageStartIs(CurPage(pushed.k));
    OwnSpot(parent, parent);
    var t := Walk(m'.k.mem, m'.k.tasks[|m.k.tasks|].pgtbase, parent);
    assert Sec(parent) in {Sec(m'.k.tasks[|m.k.tasks|].stkBottom), Sec(parent)};
  }
}
