/** What page tables, allocators and scheduler guarantee together, in runs of every kind of step: a page table lets
    unprivileged code write the pages it was built for, so the private words of a task change only through tasks that
    were granted its page, through privileged code, and through what the kernel writes where tasks tell it to: frames
    at stack pointers, buffers, and the stack of the task it resumes; and a preempted task that all this spares resumes
    as if nothing had happened. */
module Isolation {
  import opened Words
  import opened Layout
  import opened Seqs
  import opened Mmu
  import opened PageTables
  import opened Mem
  import opened Sched
  import opened Context
  import opened KernelState
  import opened Steps
  import opened Invariants
  import opened Scheduling
  import opened ForkCopy
  import Ownership
  import Pages
  import Blocks

  // ------------------------------------------------------------------ the invariant of the page tables

  /** The sections of user pages. */
  predicate UserSections(g: set<nat>) {
    forall s :: s in g ==> TASK_MEM_START / SECTION <= s < KSTACK_BOTTOM / SECTION
  }

  /** A table in a kernel block that lets its task write its own page and the others of g, and nothing else in the DRAM
      window. */
  ghost predicate TableFor(mem: Memory, t: Task, g: set<nat>) {
    && IsPageStart(t.stkBottom) && Sec(t.stkBottom) in g && UserSections(g)
    && Blocks.KPAGE_START <= t.pgtbase && t.pgtbase + TABLE_BYTES <= Blocks.KPAGE_END && t.pgtbase % TABLE_BYTES == 0
    && WindowIs(mem, t.pgtbase, g)
  }

  /** The tasks whose tables matter: the live ones, and the current one even after its exit. */
  predicate Served(m: Machine, t: nat) {
    t < |m.k.tasks| && (t !in m.exited || t == m.k.cur)
  }

  ghost predicate TablesOk(m: Machine) {
    && |m.grants| == |m.k.tasks|
    && forall t: nat :: Served(m, t) ==> TableFor(m.k.mem, m.k.tasks[t], m.grants[t])
  }

  /** Until the next tick the page of a task that has exited is free. */
  ghost predicate ZombieOk(m: Machine) {
    m.k.cur < |m.k.tasks| && m.k.cur in m.exited ==>
      var t := m.k.tasks[m.k.cur];
      0 <= PageOf(t) < Pages.PAGE_NUM && t.stkBottom == Pages.PageStart(PageOf(t)) && PageOf(t) in m.k.free
  }

  ghost predicate Secure(m: Machine, first: nat) {
    Inv(m, first) && TablesOk(m) && ZombieOk(m)
  }

  lemma SecureInv(m: Machine, first: nat)
    requires Secure(m, first)
    ensures Inv(m, first) && Shaped(m.k) && |m.grants| == |m.k.tasks|
  {
    InvIsShaped(m, first);
  }

  lemma CurrentTable(m: Machine, first: nat)
    requires Secure(m, first)
    ensures m.k.cur < |m.k.tasks| == |m.grants| && m.k.ttbr == m.k.tasks[m.k.cur].pgtbase
    ensures TableFor(m.k.mem, m.k.tasks[m.k.cur], m.grants[m.k.cur])
  {
    hide QueuesOk, PagesOk, BlocksOk, ContextsOk, TableFor;
    assert Served(m, m.k.cur);
  }

  // ------------------------------------------------------------------ where a step writes

  /** Word j lies in the page that starts at `page`. */
  predicate InPage(page: Word, j: int) {
    page <= 4 * j < page + SECTION
  }

  predicate InFrame(sp: Word, j: int) {
    (sp - FRAME_BYTES) / 4 <= j < (sp - FRAME_BYTES) / 4 + FRAME_WORDS
  }

  predicate InTable(base: Word, j: int) {
    TableIndex(base) <= j < TableIndex(base) + TABLE_WORDS
  }

  /** Word j belongs to the page or to the kernel block that a creation takes. */
  predicate Taken(k: Kernel, j: int) {
    && CanAllocate(k) && k.free[0] < Pages.PAGE_NUM && k.kfree[0] < Blocks.KBLK_NUM
    && (InPage(Pages.PageStart(k.free[0]), j) || InTable(Blocks.KblkStart(k.kfree[0]), j))
  }

  /** The words that reload_ostick may write under a context. */
  predicate InBelow(at: Word, j: int) {
    (at - RELOAD_BYTES) / 4 <= j < (at - RELOAD_BYTES) / 4 + RELOAD_WORDS
  }

  predicate InBuffer(buf: Word, n: nat, j: int) {
    buf / 4 <= j < buf / 4 + n
  }

  /** The words that a step may write: the one stored to; otherwise the frame pushed at the stack pointer, what a
      creation takes, the buffer of a call, and the words under the context that a switch resumes. */
  predicate Touches(m: Machine, e: Event, m': Machine, j: nat) {
    if e.User? then e.store.Store? && 4 * j == e.store.va
    else
      || InFrame(m.regs.sp, j)
      || ((e.TaskCreate? || e.Fork?) && Taken(m.k, j))
      || (e.Service? && InBuffer(e.buf, |e.words|, j))
      || (IsSwitch(e) && m'.k.cur < |m'.k.tasks| && InBelow(m'.k.tasks[m'.k.cur].context, j))
  }

  lemma PushWrites(m: Machine, r10: Word, j: nat)
    requires CanPush(m.regs.sp) && j < MEM_WORDS && !InFrame(m.regs.sp, j)
    ensures Push(m, r10).mem[j] == m.k.mem[j]
  {
  }

  /** A store goes where it says, and that of unprivileged code into a section granted to the running task. */
  lemma StoreWrites(m: Machine, s: Store, first: nat)
    requires Secure(m, first) && CanStore(m, s) && s.Store? && m.k.cur < |m.grants|
    ensures AfterStore(m.k, s).mem == m.k.mem[s.va / 4 := s.value] && 4 * (s.va / 4) == s.va && PagePrivate(s.va)
    ensures Unprivileged(m.regs.cpsr) ==> Sec(s.va) in m.grants[m.k.cur]
  {
    CurrentTable(m, first);
    hide Decode, Secure, PagePrivate;
    var w := Walk(m.k.mem, m.k.ttbr, s.va);
    assert w.Section? && w.pa == s.va;
    DivMod(s.va, 4, s.va / 4, 0);
  }

  /** In a secure state the stores of unprivileged code that are left out of the runs are exactly those to a TASK_INFO
      or to block descriptors: what the table permits in the DRAM window lies, unchanged in address, in a user page. */
  lemma PermittedStore(m: Machine, first: nat, va: Word, value: Word)
    requires Secure(m, first) && va % 4 == 0 && KUSE_START <= va < WINDOW_END
    requires Unprivileged(m.regs.cpsr) && Walk(m.k.mem, m.k.ttbr, va).UserWritable()
    ensures Walk(m.k.mem, m.k.ttbr, va).pa == va && InUserPages(va)
    ensures m.k.cur < |m.grants| && Sec(va) in m.grants[m.k.cur]
    ensures CanStore(m, Store(va, value)) <==> Private(RoundDown(va, SECTION), va)
  {
    CurrentTable(m, first);
    hide Decode, Secure, Private;
    assert va == Sec(va) * SECTION + va % SECTION;
    assert KSTACK_BOTTOM / SECTION == 0x9df && TASK_MEM_START / SECTION == 0x822;
  }

  /** What unprivileged code may read in the DRAM window, in a secure state: the kernel image, which holds the programs,
      and the pages granted to the running task. */
  lemma PermittedLoad(m: Machine, first: nat, va: Word)
    requires Secure(m, first) && 0x8200_0000 <= va < 0xa000_0000
    ensures m.k.cur < |m.grants|
    ensures Walk(m.k.mem, m.k.ttbr, va).UserReadable() <==> va < 0x8210_0000 || Sec(va) in m.grants[m.k.cur]
    ensures Walk(m.k.mem, m.k.ttbr, va).UserReadable() ==> Walk(m.k.mem, m.k.ttbr, va).pa == va
  {
    CurrentTable(m, first);
    hide Decode, Secure;
    assert InWindow(Walk(m.k.mem, m.k.ttbr, va), va, Sec(va) in m.grants[m.k.cur]);
  }

  lemma SwitchWrites(m: Machine, e: Event, m': Machine, j: nat)
    requires IsSwitch(e) && Leads(m, e, m') && j < MEM_WORDS && !Touches(m, e, m', j)
    ensures m'.k.mem[j] == m.k.mem[j]
  {
    hide Leads, Write, Frame;
    SwitchIs(m, e, m');
    PushWrites(m, e.r10, j);
  }

  lemma ServiceWrites(m: Machine, e: Event, m': Machine, j: nat)
    requires e.Service? && Leads(m, e, m') && j < MEM_WORDS
    requires !InFrame(m.regs.sp, j) && !InBuffer(e.buf, |e.words|, j)
    ensures m'.k.mem[j] == m.k.mem[j]
  {
    hide Write, Frame;
    PushWrites(m, e.r10, j);
  }

  lemma CreateWrites(m: Machine, e: Event, m': Machine, j: nat)
    requires e.TaskCreate? && Leads(m, e, m') && j < MEM_WORDS
    requires !InFrame(m.regs.sp, j) && !Taken(m.k, j)
    ensures m'.k.mem[j] == m.k.mem[j]
  {
    hide TaskTable, TableIndex, IsTail;
    var page := Pages.PageStart(m.k.free[0]);
    PageStartIs(m.k.free[0]);
    var pushed := Push(m, e.r10);
    PushWrites(m, e.r10, j);
    var at: Word := m.regs.sp - FRAME_BYTES;
    var mem := FreshStack(pushed.mem, page, e.entry)[at / 4 := |m.k.tasks|];
    FreshWrites(pushed.mem, page, e.entry, j);
    assert m'.k.mem == TaskTable(mem, page, Blocks.KblkStart(m.k.kfree[0]));
    TablesStayInBlock(mem, page, Blocks.KblkStart(m.k.kfree[0]), j);
  }

  lemma FreshWrites(mem: Memory, page: Word, entry: Word, j: nat)
    requires IsPageStart(page) && j < MEM_WORDS && !InPage(page, j)
    ensures FreshStack(mem, page, entry)[j] == mem[j]
  {
    MultipleOfFour(page);
  }

  lemma ForkWrites(m: Machine, e: Event, m': Machine, first: nat, j: nat)
    requires e.Fork? && Inv(m, first) && Leads(m, e, m') && j < MEM_WORDS
    requires !InFrame(m.regs.sp, j) && !Taken(m.k, j)
    ensures m'.k.mem[j] == m.k.mem[j]
  {
    hide Leads, Inv, CurPage, TaskTable, SetPte, ForkedMemory, KernelState.Fork, TableIndex, FramePlace, FrameSpot;
    ForkIs(m, e, m');
    var pushed := PushKeepsInv(m, e.r10, first);
    var k, at: Word := pushed.k, m.regs.sp - FRAME_BYTES;
    ParentPage(pushed, first);
    ForkContextPlaced(pushed, at, first);
    PageStartIs(k.free[0]);
    PageStartIs(CurPage(k));
    PushWrites(m, e.r10, j);
    ForkOutside(k, at, j);
    ForkTables(k, at, j);
  }

  /** Away from the child's page and the parent's r0 slot, the copy changes nothing. */
  lemma ForkOutside(k: Kernel, at: Word, j: nat)
    requires Shaped(k) && CanAllocate(k) && |k.tasks| < WORD_RANGE && ContextOnStack(k, at) && j < MEM_WORDS
    requires CurPage(k) < Pages.PAGE_NUM && FramePlace(Pages.PageStart(k.free[0]), ForkContext(k, at))
    requires j != at / 4 && !InPage(Pages.PageStart(k.free[0]), j)
    ensures ForkedMemory(k, at)[j] == k.mem[j]
  {
    hide CurPage, ForkedMemory;
    PageStartIs(k.free[0]);
    MultipleOfFour(Pages.PageStart(k.free[0]));
    ForkedMemoryAt(k, at, j);
  }

  lemma ForkTables(k: Kernel, at: Word, j: nat)
    requires Shaped(k) && CanAllocate(k) && |k.tasks| < WORD_RANGE && ContextOnStack(k, at) && j < MEM_WORDS
    requires k.tasks[k.cur].priority < MAXNUM_PRIORITY && !InTable(Blocks.KblkStart(k.kfree[0]), j)
    ensures KernelState.Fork(k, at).mem[j] == ForkedMemory(k, at)[j]
  {
    hide CurPage, ForkedMemory, TaskTable, SetPte, TableIndex;
    CurPageInUse(k);
    PageStartIs(k.free[0]);
    PageStartIs(CurPage(k));
    var page, base, mem := Pages.PageStart(k.free[0]), Blocks.KblkStart(k.kfree[0]), ForkedMemory(k, at);
    TablesStayInBlock(mem, page, base, j);
    TablesStayInBlock(TaskTable(mem, page, base), Pages.PageStart(CurPage(k)), base, j);
  }

  /** No step writes any other word. */
  lemma StepWrites(m: Machine, e: Event, m': Machine, first: nat, j: nat)
    requires Secure(m, first) && Leads(m, e, m') && j < MEM_WORDS && !Touches(m, e, m', j)
    ensures m'.k.mem[j] == m.k.mem[j]
  {
    hide TableIndex, Secure, Inv, Taken, InFrame, InBelow, InBuffer, TaskTable, SetPte, FreshStack, ForkedMemory, Leads;
    SecureInv(m, first);
    match e {
      case User(_, store) => UserWrites(m, e, m', first, j);
      case TaskCreate(_, _, _, _) => CreateWrites(m, e, m', j);
      case Fork(_, _) => ForkWrites(m, e, m', first, j);
      case Service(_, _, _, _, _) => ServiceWrites(m, e, m', j);
      case Tick(_, _, _) => SwitchWrites(m, e, m', j);
      case Yield(_, _, _) => SwitchWrites(m, e, m', j);
      case Exit(_, _) => ExitWrites(m, e, m', j);
    }
  }

  lemma UserWrites(m: Machine, e: Event, m': Machine, first: nat, j: nat)
    requires e.User? && Secure(m, first) && Leads(m, e, m') && j < MEM_WORDS && !Touches(m, e, m', j)
    ensures m'.k.mem[j] == m.k.mem[j]
  {
    hide Secure, Decode;
    CurrentTable(m, first);
    if e.store.Store? {
      StoreWrites(m, e.store, first);
    }
  }

  lemma ExitWrites(m: Machine, e: Event, m': Machine, j: nat)
    requires e.Exit? && Leads(m, e, m') && j < MEM_WORDS && !InFrame(m.regs.sp, j)
    ensures m'.k.mem[j] == m.k.mem[j]
  {
    hide Leads, Write, Frame, CurPage;
    ExitIs(m, e, m');
    PushWrites(m, e.r10, j);
  }

  // ------------------------------------------------------------------ the invariants are kept

  /** A step keeps page and table of every task, and the saved context of every task but the running one. */
  lemma StepKeepsTask(m: Machine, e: Event, m': Machine, first: nat, t: nat)
    requires Inv(m, first) && Leads(m, e, m') && t < |m.k.tasks|
    ensures t < |m'.k.tasks|
    ensures m'.k.tasks[t].stkBottom == m.k.tasks[t].stkBottom && m'.k.tasks[t].pgtbase == m.k.tasks[t].pgtbase
    ensures t != m.k.cur ==> m'.k.tasks[t].context == m.k.tasks[t].context
    ensures IsSwitch(e) ==> m.k.cur < |m'.k.tasks| && m'.k.tasks[m.k.cur].context == m.regs.sp - FRAME_BYTES
  {
    hide Inv, Leads;
    if IsSwitch(e) {
      SwitchKeepsTask(m, e, m', first, t);
    } else {
      OtherKeepsTask(m, e, m', t);
    }
  }

  lemma SwitchKeepsTask(m: Machine, e: Event, m': Machine, first: nat, t: nat)
    requires Inv(m, first) && Leads(m, e, m') && t < |m.k.tasks| && IsSwitch(e)
    ensures t < |m'.k.tasks| && m.k.cur < |m'.k.tasks|
    ensures m'.k.tasks[t].stkBottom == m.k.tasks[t].stkBottom && m'.k.tasks[t].pgtbase == m.k.tasks[t].pgtbase
    ensures t != m.k.cur ==> m'.k.tasks[t].context == m.k.tasks[t].context
    ensures m'.k.tasks[m.k.cur].context == m.regs.sp - FRAME_BYTES
  {
    hide QueuesOk, StatusOk, PagesOk, BlocksOk, ContextsOk, Leads, SwitchAway, Suspend, FrameSpot;
    SwitchIs(m, e, m');
    var pushed := PushKeepsInv(m, e.r10, first);
    SwitchEffect(pushed, m.regs.sp - FRAME_BYTES);
  }

  lemma OtherKeepsTask(m: Machine, e: Event, m': Machine, t: nat)
    requires Leads(m, e, m') && t < |m.k.tasks| && !IsSwitch(e)
    ensures t < |m'.k.tasks|
    ensures m'.k.tasks[t].stkBottom == m.k.tasks[t].stkBottom && m'.k.tasks[t].pgtbase == m.k.tasks[t].pgtbase
    ensures m'.k.tasks[t].context == m.k.tasks[t].context
  {
    hide Write, Fill, Copy, FreshStack, CurPage, TaskTable, SetPte;
  }

  lemma KblkTable(i: nat)
    requires i < Blocks.KBLK_NUM
    ensures TableIndex(Blocks.KblkStart(i)) == 0x2080_0000 + i * 0x1000
  {
    DivMod(Blocks.KblkStart(i), TABLE_BYTES, 0x2_0800 + i, 0);
  }

  /** The words of a served task's table are not among those a step may write: they lie below the user pages. */
  lemma TableNotTouched(m: Machine, e: Event, m': Machine, first: nat, t: nat, j: nat)
    requires Secure(m, first) && Leads(m, e, m') && j < MEM_WORDS && m.k.cur < |m.grants|
    requires Served(m, t) && InTable(m.k.tasks[t].pgtbase, j)
    ensures !Touches(m, e, m', j)
  {
    hide Leads, Inv, Taken, InFrame, InBelow, InBuffer, TableFor, WindowIs, CanStore;
    assert TableFor(m.k.mem, m.k.tasks[t], m.grants[t]);
    BelowUserPages(m.k.mem, m.k.tasks[t], m.grants[t], j);
    SecureInv(m, first);
    if e.User? {
      StoreAbove(m, e, m', first, j);
    } else {
      FrameAbove(m, e, m', j);
      if e.TaskCreate? || e.Fork? {
        TableNotTaken(m, e, m', first, t, j);
      } else if e.Service? {
        BufferAbove(m, e, m', j);
      } else if IsSwitch(e) {
        ChosenSpot(m, e, m', first);
        BelowAbove(m'.k.tasks[m'.k.cur].context, j);
      }
    }
  }

  lemma BelowUserPages(mem: Memory, t: Task, g: set<nat>, j: nat)
    requires TableFor(mem, t, g) && InTable(t.pgtbase, j)
    ensures 4 * j < UMEM_START
  {
    assert TableIndex(t.pgtbase) * 4 == t.pgtbase;
  }

  lemma StoreAbove(m: Machine, e: Event, m': Machine, first: nat, j: nat)
    requires Secure(m, first) && Leads(m, e, m') && e.User? && m.k.cur < |m.grants| && 4 * j < UMEM_START
    ensures !Touches(m, e, m', j)
  {
    hide Secure, Walk, Private;
    if e.store.Store? {
      StoreWrites(m, e.store, first);
    }
  }

  lemma AlignedBuffer(m: Machine, e: Event, m': Machine)
    requires Leads(m, e, m') && e.Service?
    ensures CanFill(e.buf, |e.words|) && 4 * (e.buf / 4) == e.buf
  {
    hide Step, Shaped, Private, CanPush, PagePrivate;
    DivMod(e.buf, 4, e.buf / 4, 0);
  }

  lemma BufferAbove(m: Machine, e: Event, m': Machine, j: nat)
    requires e.Service? && Leads(m, e, m') && 4 * j < UMEM_START
    ensures !InBuffer(e.buf, |e.words|, j)
  {
    AlignedBuffer(m, e, m');
    BufferWord(e.buf, |e.words|, j);
  }

  lemma BufferWord(buf: Word, n: nat, j: nat)
    requires CanFill(buf, n)
    ensures InBuffer(buf, n, j) ==> 4 * j < WORD_RANGE && PagePrivate(4 * j)
  {
    hide PagePrivate;
    DivMod(buf, 4, buf / 4, 0);
    if InBuffer(buf, n, j) {
      assert buf + 4 * (j - buf / 4) == 4 * j;
    }
  }

  /** The context that a switch resumes has its place, with room below. */
  lemma ChosenSpot(m: Machine, e: Event, m': Machine, first: nat)
    requires IsSwitch(e) && Inv(m, first) && Leads(m, e, m')
    ensures m'.k.cur < |m'.k.tasks| && FrameSpot(m'.k.tasks[m'.k.cur].context)
  {
    hide Inv, Leads, FrameSpot, SwitchAway, Suspend, Push;
    SwitchIs(m, e, m');
    var pushed := PushKeepsInv(m, e.r10, first);
    ChosenContextInRange(pushed, m.regs.sp - FRAME_BYTES, first);
  }

  lemma BelowAbove(at: Word, j: nat)
    requires FrameSpot(at) && 4 * j < UMEM_START
    ensures !InBelow(at, j)
  {
  }

  lemma FrameAbove(m: Machine, e: Event, m': Machine, j: nat)
    requires Leads(m, e, m') && !e.User? && 4 * j < UMEM_START
    ensures !InFrame(m.regs.sp, j)
  {
    hide Step, Shaped, Private, RoundDown, IsTail, ContextOnStack, PagePrivate, Walk;
    assert FrameSpot(m.regs.sp - FRAME_BYTES);
  }

  lemma TableNotTaken(m: Machine, e: Event, m': Machine, first: nat, t: nat, j: nat)
    requires Secure(m, first) && Leads(m, e, m') && (e.TaskCreate? || e.Fork?)
    requires Served(m, t) && InTable(m.k.tasks[t].pgtbase, j) && j < MEM_WORDS && 4 * j < UMEM_START
    ensures !Taken(m.k, j)
  {
    hide Step, TableFor, TablesOk, QueuesOk, PagesOk, ContextsOk;
    var k := m.k;
    InvIsShaped(m, first);
    assert OwnsBlock(k, k.tasks[t]);
    PageStartIs(k.free[0]);
    PartitionHead(first, Blocks.KBLK_NUM, k.kfree, k.kused);
    var b := KblkOf(k.tasks[t].pgtbase);
    KblkTable(b);
    KblkTable(k.kfree[0]);
    assert b != k.kfree[0];
  }

  /** What a table was built to grant stays on record. */
  lemma GrantsAreFixed(m: Machine, e: Event, m': Machine)
    requires Leads(m, e, m')
    ensures |m.grants| <= |m'.grants| && m'.grants[..|m.grants|] == m.grants
    ensures |m'.grants| - |m.grants| == if e.TaskCreate? || e.Fork? then 1 else 0
  {
  }

  lemma StepKeepsTables(m: Machine, e: Event, m': Machine, first: nat)
    requires Secure(m, first) && Leads(m, e, m')
    ensures TablesOk(m')
  {
    hide Leads, Inv, TableFor, ZombieOk;
    SecureInv(m, first);
    GrantsAreFixed(m, e, m');
    TaskCount(m, e, m', first);
    forall t: nat | Served(m', t)
      ensures TableFor(m'.k.mem, m'.k.tasks[t], m'.grants[t])
    {
      if t < |m.k.tasks| {
        ServedBefore(m, e, m', first, t);
        OldTableKept(m, e, m', first, t);
        assert m'.grants[t] == m'.grants[..|m.grants|][t];
      } else {
        NewTable(m, e, m', first, t);
      }
    }
  }

  lemma TaskCount(m: Machine, e: Event, m': Machine, first: nat)
    requires Inv(m, first) && Leads(m, e, m')
    ensures |m'.k.tasks| - |m.k.tasks| == if e.TaskCreate? || e.Fork? then 1 else 0
  {
    hide Leads, Inv;
    if IsSwitch(e) {
      var p := SwitchChooses(m, e, m', first);
    } else {
      CountOthers(m, e, m');
    }
  }

  lemma CountOthers(m: Machine, e: Event, m': Machine)
    requires Leads(m, e, m') && !IsSwitch(e)
    ensures |m'.k.tasks| - |m.k.tasks| == if e.TaskCreate? || e.Fork? then 1 else 0
  {
    hide Write, Fill, Copy, FreshStack, CurPage, TaskTable, SetPte;
  }

  lemma ServedBefore(m: Machine, e: Event, m': Machine, first: nat, t: nat)
    requires Inv(m, first) && Leads(m, e, m') && Served(m', t) && t < |m.k.tasks|
    ensures Served(m, t)
  {
    hide Leads;
    if IsSwitch(e) {
      var p := SwitchChooses(m, e, m', first);
      assert ListOk(m, p);
    } else {
      OtherStep(m, e, m', first);
    }
  }

  lemma OldTableKept(m: Machine, e: Event, m': Machine, first: nat, t: nat)
    requires Secure(m, first) && Leads(m, e, m') && Served(m, t) && |m.grants| == |m.k.tasks|
    ensures t < |m'.k.tasks| && TableFor(m'.k.mem, m'.k.tasks[t], m.grants[t])
  {
    hide Leads, Inv, WindowIs, ZombieOk, Touches;
    StepKeepsTask(m, e, m', first, t);
    CurrentTable(m, first);
    var task := m.k.tasks[t];
    assert TableFor(m.k.mem, task, m.grants[t]);
    forall j | TableIndex(task.pgtbase) <= j < TableIndex(task.pgtbase) + TABLE_WORDS
      ensures m'.k.mem[j] == m.k.mem[j]
    {
      TableNotTouched(m, e, m', first, t, j);
      StepWrites(m, e, m', first, j);
    }
    WindowFrame(m.k.mem, m'.k.mem, task.pgtbase, m.grants[t]);
  }

  lemma NewTable(m: Machine, e: Event, m': Machine, first: nat, t: nat)
    requires Secure(m, first) && Leads(m, e, m') && Served(m', t) && t >= |m.k.tasks|
    requires t < |m'.grants|
    ensures TableFor(m'.k.mem, m'.k.tasks[t], m'.grants[t])
  {
    hide Leads, Inv, TablesOk, ZombieOk, TableFor;
    SecureInv(m, first);
    TaskCount(m, e, m', first);
    if e.TaskCreate? {
      CreatedTable(m, e, m', first);
    } else {
      ForkedTable(m, e, m', first);
    }
  }

  lemma CreatedTable(m: Machine, e: Event, m': Machine, first: nat)
    requires Inv(m, first) && Leads(m, e, m') && e.TaskCreate? && |m.grants| == |m.k.tasks|
    ensures |m'.k.tasks| == |m.k.tasks| + 1 == |m'.grants|
    ensures TableFor(m'.k.mem, m'.k.tasks[|m.k.tasks|], m'.grants[|m.k.tasks|])
  {
    hide WindowIs, TaskTable, IsTail, Inv, FrameSpot, Frame, Write;
    FreePage(m, first);
    var page, base := Pages.PageStart(m.k.free[0]), Blocks.KblkStart(m.k.kfree[0]);
    PageStartIs(m.k.free[0]);
    var mem := FreshStack(Push(m, e.r10).mem, page, e.entry)[(m.regs.sp - FRAME_BYTES) / 4 := |m.k.tasks|];
    assert m'.k.mem == TaskTable(mem, page, base);
    TaskTableWindow(mem, page, base);
    DivMod(base, TABLE_BYTES, 0x2_0800 + m.k.kfree[0], 0);
  }

  lemma ForkedTable(m: Machine, e: Event, m': Machine, first: nat)
    requires Inv(m, first) && Leads(m, e, m') && e.Fork? && |m.grants| == |m.k.tasks|
    ensures |m'.k.tasks| == |m.k.tasks| + 1 == |m'.grants|
    ensures TableFor(m'.k.mem, m'.k.tasks[|m.k.tasks|], m'.grants[|m.k.tasks|])
  {
    hide Leads, Inv, WindowIs, TaskTable, SetPte, ForkedMemory, CurPage, KernelState.Fork, FramePlace, FrameSpot;
    ForkShares(m, e, m', first);
    ForkedRecord(m, e, m');
    ForkIs(m, e, m');
    var pushed := PushKeepsInv(m, e.r10, first);
    ParentPage(pushed, first);
    TaskPage(CurPage(pushed.k));
    PageStartIs(CurPage(pushed.k));
    FreePage(m, first);
    PageStartIs(m.k.free[0]);
    DivMod(Blocks.KblkStart(m.k.kfree[0]), TABLE_BYTES, 0x2_0800 + m.k.kfree[0], 0);
  }

  lemma ForkedRecord(m: Machine, e: Event, m': Machine)
    requires Leads(m, e, m') && e.Fork?
    ensures |m'.k.tasks| == |m.k.tasks| + 1 && m.k.free != [] && m.k.free[0] < Pages.PAGE_NUM
    ensures m.k.kfree != [] && m.k.kfree[0] < Blocks.KBLK_NUM && m.k.cur < |m.k.tasks|
    ensures var c := m'.k.tasks[|m.k.tasks|];
            c.stkBottom == Pages.PageStart(m.k.free[0]) && c.pgtbase == Blocks.KblkStart(m.k.kfree[0])
    ensures m'.grants == m.grants + [{Sec(Pages.PageStart(m.k.free[0])), Sec(m.k.tasks[m.k.cur].stkBottom)}]
  {
    hide Write, CurPage, TaskTable, SetPte, ForkedMemory;
  }

  lemma StepKeepsZombie(m: Machine, e: Event, m': Machine, first: nat)
    requires Secure(m, first) && Leads(m, e, m')
    ensures ZombieOk(m')
  {
    hide TablesOk, Leads;
    if IsSwitch(e) {
      var p := SwitchChooses(m, e, m', first);
      assert ListOk(m, p);
    } else if e.Exit? {
      ExitMakesZombie(m, e, m', first);
    } else {
      hide Inv;
      assert m.k.cur < |m.k.tasks| by { SecureInv(m, first); }
      OtherKeepsTask(m, e, m', m.k.cur);
      OtherStep(m, e, m', first);
      OtherKeepsFree(m, e, m');
    }
  }

  lemma ExitMakesZombie(m: Machine, e: Event, m': Machine, first: nat)
    requires Inv(m, first) && Leads(m, e, m') && e.Exit?
    ensures ZombieOk(m')
  {
    hide QueuesOk, StatusOk, PagesOk, BlocksOk, ContextsOk, Leads, CurPage, FrameSpot, OwnsBlock;
    ExitIs(m, e, m');
    assert m.k.cur in Live(m);
    LivePage(m, first, m.k.cur);
    var pushed := PushKeepsInv(m, e.r10, first);
    ExitKeepsPages(pushed, m');
  }

  /** After an exit the task takes no step that uses the free pages. */
  lemma OtherKeepsFree(m: Machine, e: Event, m': Machine)
    requires Leads(m, e, m') && !IsSwitch(e) && !e.Exit?
    ensures m.k.cur in m.exited ==> m'.k.free == m.k.free
  {
  }

  lemma StepKeepsSecure(m: Machine, e: Event, m': Machine, first: nat)
    requires Secure(m, first) && Leads(m, e, m')
    ensures Secure(m', first)
  {
    hide Leads, Inv, TablesOk, ZombieOk;
    StepKeepsInv(m, e, m', first);
    StepKeepsTables(m, e, m', first);
    StepKeepsZombie(m, e, m', first);
  }

  lemma {:induction false} RunKeepsSecure(m: Machine, evs: seq<Event>, m': Machine, first: nat)
    requires Secure(m, first) && Reaches(m, evs, m')
    ensures Secure(m', first)
    decreases |evs|
  {
    hide Secure, Leads, Reaches;
    if evs == [] {
      NoSteps(m, m');
    } else {
      var x := LastStep(m, evs, m');
      RunKeepsSecure(m, evs[..|evs| - 1], x, first);
      StepKeepsSecure(x, evs[|evs| - 1], m', first);
    }
  }

  lemma BootIsSecure(mem: Memory, first: nat, shell: Word, regs: Regs, below: Below)
    requires first + 2 < Blocks.KBLK_NUM
    ensures Secure(Ownership.BootMachine(mem, first, shell, regs, below), first)
  {
    hide TaskTable, FreshStack, WindowIs, Inv, StatusOf, Write;
    var m := Ownership.BootMachine(mem, first, shell, regs, below);
    Ownership.BootKeepsInv(mem, first, shell, regs, below);
    TaskPage(1);
    var base := Blocks.KblkStart(first + 1);
    KblkTable(first + 1);
    DivMod(base, TABLE_BYTES, 0x2_0801 + first, 0);
    var prepared := FreshStack(mem, Pages.PageStart(1), shell);
    TaskTableWindow(prepared, Pages.PageStart(1), base);
    WindowFrame(TaskTable(prepared, Pages.PageStart(1), base), m.k.mem, base, {Sec(Pages.PageStart(1))});
  }

  // ------------------------------------------------------------------ isolation

  /** The private words of the page hold the same in both memories. */
  ghost predicate SamePrivate(mem: Memory, mem': Memory, page: Word) {
    forall j :: 0 <= j < MEM_WORDS && Private(page, 4 * j) ==> mem'[j] == mem[j]
  }

  /** They do but for those that reload_ostick writes under the context at `at`. */
  ghost predicate SameButBelow(mem: Memory, mem': Memory, page: Word, at: Word) {
    forall j :: 0 <= j < MEM_WORDS && Private(page, 4 * j) && !InBelow(at, j) ==> mem'[j] == mem[j]
  }

  /** The frame below sp and the page have no byte in common. */
  predicate FrameApart(sp: Word, page: Word) {
    sp <= page || page + SECTION <= sp - FRAME_BYTES
  }

  /** Neither have the buffer of n words and the page, ... */
  predicate BufferApart(buf: Word, n: nat, page: Word) {
    buf + 4 * n <= page || page + SECTION <= buf
  }

  /** ... nor what is written under the context that a switch resumes and the bytes from lo to hi. */
  predicate ReloadApart(m': Machine, lo: int, hi: int) {
    m'.k.cur < |m'.k.tasks|
    && var at := m'.k.tasks[m'.k.cur].context;
       at <= lo || hi <= at - RELOAD_BYTES
  }

  /** Where step e enters the kernel for another task than t, nothing is written into t's page: no frame, no buffer, and
      nothing under the context that is resumed, unless it is that of t. */
  predicate KernelSpares(m: Machine, e: Event, m': Machine, t: nat)
    requires t < |m.k.tasks| && !e.User?
  {
    var page := m.k.tasks[t].stkBottom;
    && FrameApart(m.regs.sp, page)
    && (e.Service? ==> BufferApart(e.buf, |e.words|, page))
    && (IsSwitch(e) && m'.k.cur != t ==> ReloadApart(m', page, page + SECTION))
  }

  /** Step e is taken by another task than t, and spares its page: user code is unprivileged and its table was not built
      for t's page, the kernel writes nothing there. */
  predicate Spares(m: Machine, e: Event, m': Machine, t: nat) {
    && t < |m.k.tasks| && m.k.cur < |m.grants| && m.k.cur != t
    && if e.User? then Unprivileged(m.regs.cpsr) && Sec(m.k.tasks[t].stkBottom) !in m.grants[m.k.cur]
       else KernelSpares(m, e, m', t)
  }

  /** One such step leaves the private words of t's page as they are, or resumes t and writes under its context. */
  lemma StepIsolates(m: Machine, e: Event, m': Machine, first: nat, t: nat)
    requires Secure(m, first) && Leads(m, e, m') && t in Live(m) && Spares(m, e, m', t)
    ensures SameButBelow(m.k.mem, m'.k.mem, m.k.tasks[t].stkBottom, m.k.tasks[t].context)
    ensures m'.k.cur != t ==> SamePrivate(m.k.mem, m'.k.mem, m.k.tasks[t].stkBottom)
  {
    hide Leads, Secure, Touches, Inv, InBelow;
    SecureInv(m, first);
    LivePage(m, first, t);
    var page := m.k.tasks[t].stkBottom;
    forall j | 0 <= j < MEM_WORDS && Private(page, 4 * j) && (m'.k.cur == t ==> !InBelow(m.k.tasks[t].context, j))
      ensures m'.k.mem[j] == m.k.mem[j]
    {
      PageNotTouched(m, e, m', first, t, j);
      StepWrites(m, e, m', first, j);
    }
  }

  lemma LivePage(m: Machine, first: nat, t: nat)
    requires Inv(m, first) && t in Live(m)
    ensures IsPageStart(m.k.tasks[t].stkBottom) && InUserPages(m.k.tasks[t].stkBottom)
    ensures OwnsPage(m.k, m.k.tasks[t]) && OwnsBlock(m.k, m.k.tasks[t])
  {
    hide QueuesOk, StatusOk, ContextsOk;
    assert OwnsPage(m.k, m.k.tasks[t]) && OwnsBlock(m.k, m.k.tasks[t]);
    TaskPage(PageOf(m.k.tasks[t]));
  }

  lemma PageNotTouched(m: Machine, e: Event, m': Machine, first: nat, t: nat, j: nat)
    requires Secure(m, first) && Leads(m, e, m') && t in Live(m) && Spares(m, e, m', t) && j < MEM_WORDS
    requires IsPageStart(m.k.tasks[t].stkBottom) && InPage(m.k.tasks[t].stkBottom, j)
    requires m'.k.cur == t ==> !InBelow(m.k.tasks[t].context, j)
    ensures !Touches(m, e, m', j)
  {
    hide Leads, TablesOk, ZombieOk, Inv, Taken, CanStore;
    var page := m.k.tasks[t].stkBottom;
    if e.User? {
      SectionOfWord(page, j);
      if e.store.Store? {
        StoreWrites(m, e.store, first) by {
          UserCanStore(m, e, m');
        }
      }
    } else {
      AlignedFrame(m, e, m');
      PageNotTaken(m, first, t, j);
      if e.Service? {
        AlignedBuffer(m, e, m');
      }
      if IsSwitch(e) {
        StepKeepsTask(m, e, m', first, t);
        ChosenSpot(m, e, m', first);
        SpotAligned(m'.k.tasks[m'.k.cur].context);
      }
    }
  }

  lemma UserCanStore(m: Machine, e: Event, m': Machine)
    requires Leads(m, e, m') && e.User?
    ensures CanStore(m, e.store)
    ensures Unprivileged(m.regs.cpsr) ==> m'.regs.cpsr % 0x100 == m.regs.cpsr % 0x100
  {
    hide CanStore, AfterStore;
  }

  lemma SectionOfWord(page: Word, j: nat)
    requires page % SECTION == 0 && InPage(page, j)
    ensures Sec(4 * j) == Sec(page)
  {
    DivMod(4 * j, SECTION, page / SECTION, 4 * j - page);
  }

  lemma AlignedFrame(m: Machine, e: Event, m': Machine)
    requires Leads(m, e, m') && !e.User?
    ensures FRAME_BYTES <= m.regs.sp && m.regs.sp % 4 == 0
  {
    hide Step, Shaped, Private, RoundDown, IsTail, ContextOnStack;
    SpotAligned(m.regs.sp - FRAME_BYTES);
  }

  lemma SpotAligned(at: Word)
    requires FrameSpot(at)
    ensures (at + FRAME_BYTES) % 4 == 0 && 4 * (at / 4) == at && RELOAD_BYTES <= at
    ensures (at - RELOAD_BYTES) / 4 == at / 4 - RELOAD_WORDS
  {
    DivMod(at + FRAME_BYTES, 4, at / 4 + FRAME_WORDS, 0);
    DivMod(at - RELOAD_BYTES, 4, at / 4 - RELOAD_WORDS, 0);
  }

  lemma PageNotTaken(m: Machine, first: nat, t: nat, j: nat)
    requires Inv(m, first) && t in Live(m) && InPage(m.k.tasks[t].stkBottom, j)
    ensures !Taken(m.k, j)
  {
    hide QueuesOk, StatusOk, BlocksOk, ContextsOk;
    LivePage(m, first, t);
    if Taken(m.k, j) {
      PartitionHead(0, Pages.PAGE_NUM, m.k.free, m.k.inuse);
      KblkTable(m.k.kfree[0]);
      assert false;
    }
  }

  /** Like Reaches, every step sparing t. */
  ghost predicate ReachesAway(m: Machine, evs: seq<Event>, m': Machine, t: nat)
    decreases |evs|
  {
    if evs == [] then m' == m
    else
      exists x :: ReachesAway(m, Front(evs), x, t) && Spares(x, evs[|evs| - 1], m', t) && Leads(x, evs[|evs| - 1], m')
  }

  lemma LastStepAway(m: Machine, evs: seq<Event>, m': Machine, t: nat) returns (x: Machine)
    requires ReachesAway(m, evs, m', t) && evs != []
    ensures ReachesAway(m, evs[..|evs| - 1], x, t) && Spares(x, evs[|evs| - 1], m', t)
    ensures Leads(x, evs[|evs| - 1], m') && x.k.cur != t
  {
    hide Leads, KernelSpares;
    x :| ReachesAway(m, Front(evs), x, t) && Spares(x, evs[|evs| - 1], m', t) && Leads(x, evs[|evs| - 1], m');
  }

  /** Isolation, in runs of every kind of step: while the steps are taken by other tasks and spare t, its page and its
      saved context stay what they are, it stays live, and its private words are untouched, but for those under its
      context when it is resumed. */
  lemma {:induction false} Isolation(m: Machine, evs: seq<Event>, m': Machine, first: nat, t: nat)
    requires Secure(m, first) && ReachesAway(m, evs, m', t) && t in Live(m)
    ensures Secure(m', first) && t in Live(m')
    ensures m'.k.tasks[t].stkBottom == m.k.tasks[t].stkBottom && m'.k.tasks[t].context == m.k.tasks[t].context
    ensures SameButBelow(m.k.mem, m'.k.mem, m.k.tasks[t].stkBottom, m.k.tasks[t].context)
    ensures m'.k.cur != t ==> SamePrivate(m.k.mem, m'.k.mem, m.k.tasks[t].stkBottom)
    decreases |evs|
  {
    hide Secure, Leads, ReachesAway, Spares, InBelow;
    if evs == [] {
      NoStepsAway(m, m', t);
    } else {
      var n := |evs| - 1;
      var x := LastStepAway(m, evs, m', t);
      Isolation(m, evs[..n], x, first, t);
      StepKeepsSecure(x, evs[n], m', first);
      StepIsolates(x, evs[n], m', first, t);
      StepKeepsLive(x, evs[n], m', first, t);
    }
  }

  lemma NoStepsAway(m: Machine, m': Machine, t: nat)
    requires ReachesAway(m, [], m', t)
    ensures m' == m
  {
  }

  lemma StepKeepsLive(m: Machine, e: Event, m': Machine, first: nat, t: nat)
    requires Secure(m, first) && Leads(m, e, m') && t in Live(m) && m.k.cur != t
    ensures t in Live(m')
    ensures m'.k.tasks[t].stkBottom == m.k.tasks[t].stkBottom && m'.k.tasks[t].context == m.k.tasks[t].context
  {
    hide Leads, TablesOk, ZombieOk, Inv;
    StepKeepsTask(m, e, m', first, t);
    if IsSwitch(e) {
      var p := SwitchChooses(m, e, m', first);
    } else {
      OtherStep(m, e, m', first);
    }
  }

  // ------------------------------------------------------------------ who was granted what

  /** Each table was built for the page of its task alone. */
  ghost predicate OwnGrants(m: Machine) {
    |m.grants| == |m.k.tasks| && forall t :: 0 <= t < |m.grants| ==> m.grants[t] == {Sec(m.k.tasks[t].stkBottom)}
  }

  predicate ForkFree(evs: seq<Event>) {
    forall i :: 0 <= i < |evs| ==> !evs[i].Fork?
  }

  /** Without forks it stays so ... */
  lemma {:induction false} RunKeepsOwnGrants(m: Machine, evs: seq<Event>, m': Machine, first: nat)
    requires Secure(m, first) && OwnGrants(m) && Reaches(m, evs, m') && ForkFree(evs)
    ensures OwnGrants(m')
    decreases |evs|
  {
    hide Secure, Leads, Reaches;
    if evs == [] {
      NoSteps(m, m');
    } else {
      var n := |evs| - 1;
      var x := LastStep(m, evs, m');
      RunKeepsOwnGrants(m, evs[..n], x, first);
      RunKeepsSecure(m, evs[..n], x, first);
      StepKeepsOwnGrants(x, evs[n], m', first);
    }
  }

  lemma StepKeepsOwnGrants(m: Machine, e: Event, m': Machine, first: nat)
    requires Secure(m, first) && OwnGrants(m) && Leads(m, e, m') && !e.Fork?
    ensures OwnGrants(m')
  {
    hide Secure, Leads, Inv;
    SecureInv(m, first);
    TaskCount(m, e, m', first);
    GrantsAreFixed(m, e, m');
    forall t | 0 <= t < |m'.grants|
      ensures m'.grants[t] == {Sec(m'.k.tasks[t].stkBottom)}
    {
      if t < |m.grants| {
        StepKeepsTask(m, e, m', first, t);
        assert m'.grants[t] == m'.grants[..|m.grants|][t];
      } else {
        CreatedGrant(m, e, m');
      }
    }
  }

  lemma CreatedGrant(m: Machine, e: Event, m': Machine)
    requires Leads(m, e, m') && e.TaskCreate? && |m.grants| == |m.k.tasks|
    ensures |m'.grants| == |m'.k.tasks| == |m.k.tasks| + 1
    ensures m'.grants[|m.k.tasks|] == {Sec(m'.k.tasks[|m.k.tasks|].stkBottom)}
  {
    hide Write, Fill, FreshStack, TaskTable;
  }

  /** The page of the running task, even after its exit, is not that of another live task. */
  lemma RunsElsewhere(m: Machine, first: nat, t: nat)
    requires Secure(m, first) && t in Live(m) && m.k.cur != t
    ensures m.k.cur < |m.k.tasks| && IsPageStart(m.k.tasks[m.k.cur].stkBottom)
    ensures InUserPages(m.k.tasks[m.k.cur].stkBottom) && IsPageStart(m.k.tasks[t].stkBottom)
    ensures m.k.tasks[m.k.cur].stkBottom != m.k.tasks[t].stkBottom
  {
    hide QueuesOk, BlocksOk, ContextsOk;
    SecureInv(m, first);
    LivePage(m, first, t);
    var c := m.k.cur;
    if c in Live(m) {
      LivePage(m, first, c);
    } else {
      assert m.k.inuse[0] in m.k.inuse;
      TaskPage(PageOf(m.k.tasks[c]));
    }
  }

  /** ... and so unprivileged code never reaches the page of another live task. */
  lemma OwnGrantsSpare(m: Machine, e: Event, m': Machine, first: nat, t: nat)
    requires Secure(m, first) && OwnGrants(m) && t in Live(m) && m.k.cur != t
    requires e.User? && Unprivileged(m.regs.cpsr)
    ensures Spares(m, e, m', t)
  {
    hide Secure;
    SecureInv(m, first);
    RunsElsewhere(m, first, t);
    var a, b := m.k.tasks[m.k.cur].stkBottom, m.k.tasks[t].stkBottom;
    assert a == Sec(a) * SECTION && b == Sec(b) * SECTION;
  }

  /** A run without forks in which t never runs, user code is unprivileged and the kernel spares t. */
  ghost predicate ReachesApart(m: Machine, evs: seq<Event>, m': Machine, t: nat)
    decreases |evs|
  {
    if evs == [] then m' == m
    else exists x :: ReachesApart(m, Front(evs), x, t) && Leads(x, evs[|evs| - 1], m') && Apart(x, evs[|evs| - 1], m', t)
  }

  predicate Apart(m: Machine, e: Event, m': Machine, t: nat) {
    && !e.Fork? && m.k.cur != t && t < |m.k.tasks|
    && if e.User? then Unprivileged(m.regs.cpsr) else KernelSpares(m, e, m', t)
  }

  /** In such a run page tables do the rest: whatever the other tasks store, t is isolated. */
  lemma {:induction false} IsolationWithoutForks(m: Machine, evs: seq<Event>, m': Machine, first: nat, t: nat)
    requires Secure(m, first) && OwnGrants(m) && ReachesApart(m, evs, m', t) && t in Live(m)
    ensures ReachesAway(m, evs, m', t) && OwnGrants(m') && Secure(m', first) && t in Live(m')
    ensures m'.k.tasks[t].stkBottom == m.k.tasks[t].stkBottom && m'.k.tasks[t].context == m.k.tasks[t].context
    ensures SameButBelow(m.k.mem, m'.k.mem, m.k.tasks[t].stkBottom, m.k.tasks[t].context)
    ensures m'.k.cur != t ==> SamePrivate(m.k.mem, m'.k.mem, m.k.tasks[t].stkBottom)
    decreases |evs|
  {
    hide Secure, Leads, OwnGrants, Spares, Apart, Inv, SameButBelow, SamePrivate;
    if evs != [] {
      var e := evs[|evs| - 1];
      var x :| ReachesApart(m, Front(evs), x, t) && Leads(x, e, m') && Apart(x, e, m', t);
      IsolationWithoutForks(m, Front(evs), x, first, t);
      ApartSpares(x, e, m', first, t);
      StepKeepsOwnGrants(x, e, m', first);
      assert ReachesAway(m, evs, m', t);
    }
    Isolation(m, evs, m', first, t);
  }

  lemma ApartSpares(m: Machine, e: Event, m': Machine, first: nat, t: nat)
    requires Secure(m, first) && OwnGrants(m) && t in Live(m) && Apart(m, e, m', t)
    ensures Spares(m, e, m', t) && !e.Fork?
  {
    hide Secure, OwnGrants;
    SecureInv(m, first);
    if e.User? {
      OwnGrantsSpare(m, e, m', first, t);
    }
  }

  /** A step that enters the kernel with the stack pointer in the task's own page, names a buffer there, and resumes a
      task whose context is in its own page, spares every other live task. */
  lemma HomePushSpares(m: Machine, e: Event, m': Machine, first: nat, t: nat)
    requires Secure(m, first) && Leads(m, e, m') && t in Live(m) && m.k.cur != t && !e.User? && m.k.cur < |m.k.tasks|
    requires FRAME_BYTES <= m.regs.sp && FramePlace(m.k.tasks[m.k.cur].stkBottom, m.regs.sp - FRAME_BYTES)
    requires var page := m.k.tasks[m.k.cur].stkBottom;
             e.Service? ==> page <= e.buf && e.buf + 4 * |e.words| <= page + SECTION
    requires IsSwitch(e) && m'.k.cur < |m'.k.tasks| ==>
               FramePlace(m'.k.tasks[m'.k.cur].stkBottom, m'.k.tasks[m'.k.cur].context)
    ensures Spares(m, e, m', t)
  {
    hide Secure, Leads, Inv, FramePlace;
    CurrentTable(m, first);
    SecureInv(m, first);
    RunsElsewhere(m, first, t);
    PagesDisjoint(m.k.tasks[m.k.cur].stkBottom, m.k.tasks[t].stkBottom);
    PlaceInPage(m.k.tasks[m.k.cur].stkBottom, m.regs.sp - FRAME_BYTES);
    if IsSwitch(e) && m'.k.cur != t {
      ChosenElsewhere(m, e, m', first, t);
      PlaceInPage(m'.k.tasks[m'.k.cur].stkBottom, m'.k.tasks[m'.k.cur].context);
    }
  }

  lemma PlaceInPage(page: Word, at: int)
    requires IsPageStart(page) && FramePlace(page, at)
    ensures page <= at - RELOAD_BYTES && at + FRAME_BYTES <= page + SECTION
  {
    MultipleOfFour(page);
  }

  lemma ChosenLive(m: Machine, e: Event, m': Machine, first: nat)
    requires IsSwitch(e) && Inv(m, first) && Leads(m, e, m')
    ensures m'.k.cur in Live(m) && |m'.k.tasks| == |m.k.tasks|
    ensures m'.k.tasks[m'.k.cur].stkBottom == m.k.tasks[m'.k.cur].stkBottom
  {
    hide Leads, PagesOk, BlocksOk, ContextsOk, StatusOk;
    var p := SwitchChooses(m, e, m', first);
    assert ListOk(m, p);
    StepKeepsTask(m, e, m', first, m'.k.cur);
  }

  /** The pages of two live tasks have no byte in common; neither have those of the task that is chosen and of t. */
  lemma LivesElsewhere(m: Machine, first: nat, t: nat, u: nat)
    requires Inv(m, first) && t in Live(m) && u in Live(m) && t != u
    ensures IsPageStart(m.k.tasks[t].stkBottom) && IsPageStart(m.k.tasks[u].stkBottom)
    ensures var a, b := m.k.tasks[t].stkBottom, m.k.tasks[u].stkBottom;
            a + SECTION <= b || b + SECTION <= a
  {
    LivePage(m, first, t);
    LivePage(m, first, u);
    hide QueuesOk, StatusOk, BlocksOk, ContextsOk, OwnsPage;
    assert m.k.tasks[t].stkBottom != m.k.tasks[u].stkBottom;
    PagesDisjoint(m.k.tasks[t].stkBottom, m.k.tasks[u].stkBottom);
  }

  lemma ChosenElsewhere(m: Machine, e: Event, m': Machine, first: nat, t: nat)
    requires IsSwitch(e) && Inv(m, first) && Leads(m, e, m') && t in Live(m) && m'.k.cur != t
    ensures m'.k.cur < |m'.k.tasks| && IsPageStart(m'.k.tasks[m'.k.cur].stkBottom)
    ensures var a, b := m'.k.tasks[m'.k.cur].stkBottom, m.k.tasks[t].stkBottom;
            a + SECTION <= b || b + SECTION <= a
  {
    hide Leads, Inv;
    ChosenLive(m, e, m', first);
    LivesElsewhere(m, first, m'.k.cur, t);
  }

  lemma PagesDisjoint(a: Word, b: Word)
    requires IsPageStart(a) && IsPageStart(b) && a != b
    ensures a + SECTION <= b || b + SECTION <= a
  {
    assert a == a / SECTION * SECTION && b == b / SECTION * SECTION;
  }

  /** What a table grants outlives the task whose page was shared: over any run the record keeps it, and the table of a
      live task permits exactly what the record says. */
  lemma {:induction false} GrantsOutlive(m: Machine, evs: seq<Event>, m': Machine, first: nat, t: nat)
    requires Secure(m, first) && Reaches(m, evs, m') && t in Live(m')  && t < |m.grants|
    ensures t < |m'.grants| && m'.grants[t] == m.grants[t] && WindowIs(m'.k.mem, m'.k.tasks[t].pgtbase, m.grants[t])
    decreases |evs|
  {
    hide Leads, Reaches, Inv, WindowIs;
    RunKeepsSecure(m, evs, m', first);
    RunKeepsGrants(m, evs, m');
    assert Served(m', t);
    assert m'.grants[t] == m'.grants[..|m.grants|][t];
  }

  lemma {:induction false} RunKeepsGrants(m: Machine, evs: seq<Event>, m': Machine)
    requires Reaches(m, evs, m')
    ensures |m.grants| <= |m'.grants| && m'.grants[..|m.grants|] == m.grants
    decreases |evs|
  {
    hide Leads, Reaches;
    if evs == [] {
      NoSteps(m, m');
    } else {
      var x := LastStep(m, evs, m');
      RunKeepsGrants(m, evs[..|evs| - 1], x);
      GrantsAreFixed(x, evs[|evs| - 1], m');
      assert m'.grants[..|x.grants|][..|m.grants|] == m'.grants[..|m.grants|];
    }
  }

  // ------------------------------------------------------------------ preemption

  /** A switch leaves the context of the running task on its stack, unless what it resumes is just above ... */
  lemma SwitchSaves(m: Machine, e: Event, m': Machine, first: nat)
    requires IsSwitch(e) && Inv(m, first) && Leads(m, e, m')
    ensures FRAME_BYTES <= m.regs.sp
    ensures var at: Word := m.regs.sp - FRAME_BYTES;
            && at / 4 + FRAME_WORDS <= MEM_WORDS && m.k.cur < |m.k.tasks| && FrameSpot(at)
            && (ReloadApart(m', at, m.regs.sp) ==> m'.k.mem[at / 4..at / 4 + FRAME_WORDS] == Frame(m.regs, e.r10))
  {
    hide Frame, Resume, Inv, FrameSpot, Leads, SwitchAway, Suspend, Write;
    SwitchIs(m, e, m');
    ChosenSpot(m, e, m', first);
    var pushed := PushKeepsInv(m, e.r10, first);
    var at: Word := m.regs.sp - FRAME_BYTES;
    SpotInRange(at);
    SpotAligned(at);
    SpotAligned(m'.k.tasks[m'.k.cur].context);
    assert pushed.k.mem[at / 4..at / 4 + FRAME_WORDS] == Frame(m.regs, e.r10);
    if ReloadApart(m', at, m.regs.sp) {
      forall j | at / 4 <= j < at / 4 + FRAME_WORDS ensures m'.k.mem[j] == pushed.k.mem[j] {
      }
    }
  }

  /** ... and takes the registers from the context of the task it chooses. */
  lemma SwitchRestores(m: Machine, e: Event, m': Machine, first: nat)
    requires IsSwitch(e) && Inv(m, first) && Leads(m, e, m')
    ensures m'.k.cur < |m'.k.tasks|
    ensures var sp := m'.k.tasks[m'.k.cur].context;
            && sp / 4 + FRAME_WORDS <= MEM_WORDS
            && m'.regs == Resume(m'.k.mem[sp / 4..sp / 4 + FRAME_WORDS], sp, e.cpsr)
  {
    hide Frame, Resume, FrameSpot, Leads, SwitchAway, Suspend, Write, Inv;
    SwitchIs(m, e, m');
    ChosenSpot(m, e, m', first);
    var sp := m'.k.tasks[m'.k.cur].context;
    SpotAligned(sp);
    assert m'.k.mem[sp / 4..sp / 4 + FRAME_WORDS] == Push(m, e.r10).mem[sp / 4..sp / 4 + FRAME_WORDS];
  }

  lemma FrameIsPrivate(page: Word, at: Word, j: nat)
    requires page % SECTION == 0 && FramePlace(page, at) && at / 4 <= j < at / 4 + FRAME_WORDS
    ensures Private(page, 4 * j) && !InBelow(at, j)
  {
    MultipleOfFour(page);
  }

  /** Preemption is transparent: a task interrupted at m with its stack pointer in its own page, where nothing is written
      under the context that is resumed instead, continues, when it is next chosen, where it was, with its own registers,
      whatever ran in between and spared it. */
  lemma PreemptionIsTransparent(m: Machine, e: Event, m1: Machine, evs: seq<Event>, m2: Machine, first: nat, t: nat)
    requires Secure(m, first) && IsSwitch(e) && Leads(m, e, m1) && m.k.cur == t && t in Live(m)
    requires FramePlace(m.k.tasks[t].stkBottom, m.regs.sp - FRAME_BYTES)
    requires ReloadApart(m1, m.regs.sp - FRAME_BYTES, m.regs.sp)
    requires ReachesAway(m1, evs, m2, t) && m2.k.cur == t
    requires evs != [] ==> IsSwitch(evs[|evs| - 1])
    ensures Continues(m.regs, m2.regs)
  {
    hide Leads, ReachesAway, Continues, Resume, Frame, Secure, Inv, SameButBelow, FramePlace, Live, ReloadApart;
    var at: Word := SuspendedAt(m, e, m1, first, t);
    ResumeContinues(m.regs, e.r10, if evs == [] then e.cpsr else evs[|evs| - 1].cpsr);
    if evs == [] {
      NoStepsAway(m1, m2, t);
      SecureInv(m, first);
      SwitchRestores(m, e, m1, first);
    } else {
      ResumedFrom(m1, evs, m2, first, t, at);
    }
  }

  /** A task whose context is at `at`, in its own page, resumes from the fourteen words it left there. */
  lemma ResumedFrom(m: Machine, evs: seq<Event>, m': Machine, first: nat, t: nat, at: Word)
    requires t < |m.k.tasks| && m.k.tasks[t].context == at && at / 4 + FRAME_WORDS <= MEM_WORDS
    requires IsPageStart(m.k.tasks[t].stkBottom) && FramePlace(m.k.tasks[t].stkBottom, at)
    requires m'.k.cur == t && evs != [] && IsSwitch(evs[|evs| - 1])
    requires Secure(m, first) && t in Live(m) && ReachesAway(m, evs, m', t)
    ensures m'.regs == Resume(m.k.mem[at / 4..at / 4 + FRAME_WORDS], at, evs[|evs| - 1].cpsr)
  {
    hide Leads, ReachesAway, Resume, Secure, Live, Inv, SameButBelow, FramePlace, Spares;
    var n := |evs| - 1;
    Isolation(m, evs, m', first, t);
    var x := LastStepAway(m, evs, m', t);
    Isolation(m, evs[..n], x, first, t);
    SecureInv(x, first);
    SwitchRestores(x, evs[n], m', first);
    SameFrame(m.k.mem, m'.k.mem, m.k.tasks[t].stkBottom, at);
  }

  lemma SuspendedAt(m: Machine, e: Event, m1: Machine, first: nat, t: nat) returns (at: Word)
    requires Secure(m, first) && IsSwitch(e) && Leads(m, e, m1) && m.k.cur == t && t in Live(m)
    requires FramePlace(m.k.tasks[t].stkBottom, m.regs.sp - FRAME_BYTES)
    requires ReloadApart(m1, m.regs.sp - FRAME_BYTES, m.regs.sp)
    ensures FRAME_BYTES <= m.regs.sp && at == m.regs.sp - FRAME_BYTES
    ensures Secure(m1, first) && t in Live(m1) && t < |m.k.tasks| && t < |m1.k.tasks|
    ensures m1.k.tasks[t].context == at && m1.k.tasks[t].stkBottom == m.k.tasks[t].stkBottom
    ensures at / 4 + FRAME_WORDS <= MEM_WORDS && m1.k.mem[at / 4..at / 4 + FRAME_WORDS] == Frame(m.regs, e.r10)
    ensures IsPageStart(m.k.tasks[t].stkBottom) && FramePlace(m.k.tasks[t].stkBottom, at)
  {
    hide Leads, Frame, Inv, ZombieOk, FramePlace, TablesOk, ReloadApart;
    SwitchSaves(m, e, m1, first);
    at := m.regs.sp - FRAME_BYTES;
    StepKeepsSecure(m, e, m1, first);
    StepKeepsTask(m, e, m1, first, t);
    LivePage(m, first, t);
    var p := SwitchChooses(m, e, m1, first);
  }

  lemma SameFrame(mem: Memory, mem': Memory, page: Word, at: Word)
    requires IsPageStart(page) && FramePlace(page, at) && SameButBelow(mem, mem', page, at)
    requires at / 4 + FRAME_WORDS <= MEM_WORDS
    ensures mem'[at / 4..at / 4 + FRAME_WORDS] == mem[at / 4..at / 4 + FRAME_WORDS]
  {
    hide FramePlace, InBelow;
    forall j | at / 4 <= j < at / 4 + FRAME_WORDS
      ensures mem'[j] == mem[j]
    {
      FrameIsPrivate(page, at, j);
    }
  }

  // ------------------------------------------------------------------ the failing writes

  /** A task that is preempted with its stack pointer in the private words of another task's page overwrites them with
      its registers, whatever its page table grants. */
  lemma PushReachesPage(m: Machine, e: Event, m': Machine, first: nat, t: nat)
    requires Inv(m, first) && IsSwitch(e) && Leads(m, e, m') && t in Live(m)
    requires FRAME_BYTES <= m.regs.sp && FramePlace(m.k.tasks[t].stkBottom, m.regs.sp - FRAME_BYTES)
    requires ReloadApart(m', m.regs.sp - FRAME_BYTES, m.regs.sp)
    ensures m'.k.mem[(m.regs.sp - FRAME_BYTES) / 4] == m.regs.r[0]
    ensures m.regs.r[0] != m.k.mem[(m.regs.sp - FRAME_BYTES) / 4] ==>
              !SamePrivate(m.k.mem, m'.k.mem, m.k.tasks[t].stkBottom)
  {
    hide Leads, Inv, Frame, ReloadApart;
    var at: Word := m.regs.sp - FRAME_BYTES;
    SwitchSaves(m, e, m', first);
    assert m'.k.mem[at / 4..at / 4 + FRAME_WORDS][0] == m'.k.mem[at / 4];
    FirstOfFrame(m.regs, e.r10);
    assert 4 * (at / 4) == at by { DivMod(at, 4, at / 4, 0); }
  }

  lemma FirstOfFrame(g: Regs, r10: Word)
    ensures Frame(g, r10)[0] == g.r[0]
  {
  }

  /** A task whose context lies in another task's page has reload_ostick overwrite words of that page when it is
      resumed. */
  lemma ReloadReachesPage(m: Machine, e: Event, m': Machine, first: nat, t: nat, i: nat)
    requires Inv(m, first) && IsSwitch(e) && Leads(m, e, m') && t in Live(m) && i < RELOAD_WORDS
    ensures m'.k.cur < |m'.k.tasks|
    ensures var at := m'.k.tasks[m'.k.cur].context;
            && RELOAD_BYTES <= at && at / 4 - RELOAD_WORDS + i < MEM_WORDS
            && m'.k.mem[at / 4 - RELOAD_WORDS + i] == e.below[i]
            && (FramePlace(m.k.tasks[t].stkBottom, at) && e.below[i] != m.k.mem[at / 4 - RELOAD_WORDS + i] ==>
                  !SamePrivate(m.k.mem, m'.k.mem, m.k.tasks[t].stkBottom))
  {
    hide Leads, Inv, Write;
    SwitchIs(m, e, m');
    ChosenSpot(m, e, m', first);
    LivePage(m, first, t);
    var at, page := m'.k.tasks[m'.k.cur].context, m.k.tasks[t].stkBottom;
    SpotAligned(at);
    if FramePlace(page, at) {
      BelowIsPrivate(page, at, i);
    }
  }

  lemma BelowIsPrivate(page: Word, at: Word, i: nat)
    requires IsPageStart(page) && FramePlace(page, at) && 4 * (at / 4) == at && i < RELOAD_WORDS
    ensures Private(page, 4 * (at / 4 - RELOAD_WORDS + i))
  {
  }

  /** A call that answers in a buffer in another task's page overwrites it, whatever the table of the caller grants. */
  lemma BufferReachesPage(m: Machine, e: Event, m': Machine, t: nat, i: nat)
    requires e.Service? && Leads(m, e, m') && t in Live(m) && i < |e.words|
    requires e.buf + 4 * i != m.regs.sp - FRAME_BYTES
    ensures e.buf / 4 + i < MEM_WORDS && m'.k.mem[e.buf / 4 + i] == e.words[i]
    ensures Private(m.k.tasks[t].stkBottom, e.buf + 4 * i) && e.words[i] != m.k.mem[e.buf / 4 + i] ==>
              !SamePrivate(m.k.mem, m'.k.mem, m.k.tasks[t].stkBottom)
  {
    AlignedBuffer(m, e, m');
    AlignedFrame(m, e, m');
    hide Write, Private, Frame;
    DivMod(m.regs.sp - FRAME_BYTES, 4, m.regs.sp / 4 - FRAME_WORDS, 0);
    assert 4 * (e.buf / 4 + i) == e.buf + 4 * i;
  }
}
