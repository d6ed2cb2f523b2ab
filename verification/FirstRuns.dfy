/** What a new task finds when it is chosen for the first time. */
module FirstRuns {
  import opened Words
  import opened Layout
  import opened Mmu
  import opened PageTables
  import opened Mem
  import opened Context
  import opened KernelState
  import opened Steps
  import opened Invariants
  import opened Scheduling
  import opened ForkCopy
  import opened Isolation
  import Ownership
  import Pages
  import Blocks

  /** The first context of a created task: zeros, and the entry point in the r9 slot. */
  function FirstFrame(entry: Word): (f: seq<Word>)
    ensures |f| == FRAME_WORDS
  {
    seq(9, _ => 0) + [entry, 0, 0, 0, 0]
  }

  lemma FreshFrame(mem: Memory, page: Word, entry: Word)
    requires IsPageStart(page)
    ensures var at := FirstContext(page);
            && 0 <= at && at / 4 + FRAME_WORDS <= MEM_WORDS
            && FreshStack(mem, page, entry)[at / 4..at / 4 + FRAME_WORDS] == FirstFrame(entry)
  {
    MultipleOfFour(page);
    var at := FirstContext(page);
    DivMod(at + 36, 4, at / 4 + 9, 0);
    hide Fill;
    var f := FreshStack(mem, page, entry)[at / 4..at / 4 + FRAME_WORDS];
    forall i | 0 <= i < FRAME_WORDS ensures f[i] == FirstFrame(entry)[i] {
      assert page / 4 <= at / 4 + i < page / 4 + STACK_WORDS;
    }
  }

  /** Word j is one of the context at `at`. */
  predicate InContext(at: int, j: int) {
    at / 4 <= j < at / 4 + FRAME_WORDS
  }

  /** What a creation leaves for its task.  Where the creator's own frame lies in the page that is taken, the new id may
      land in the context of the new task. */
  function CreatedFrame(m: Machine, e: Event): (f: seq<Word>)
    requires e.TaskCreate? && CanAllocate(m.k) && m.k.free[0] < Pages.PAGE_NUM && |m.k.tasks| < WORD_RANGE
    ensures |f| == FRAME_WORDS
  {
    var at, slot := FirstContext(Pages.PageStart(m.k.free[0])), (m.regs.sp - FRAME_BYTES) / 4;
    if InContext(at, slot) then FirstFrame(e.entry)[slot - at / 4 := |m.k.tasks|] else FirstFrame(e.entry)
  }

  lemma CreatedContext(m: Machine, e: Event, m': Machine, first: nat)
    requires Secure(m, first) && e.TaskCreate? && Leads(m, e, m') && CanAllocate(m.k) && m.k.free[0] < Pages.PAGE_NUM
    ensures |m.k.tasks| < WORD_RANGE
    ensures var page, t := Pages.PageStart(m.k.free[0]), |m.k.tasks|;
            && IsPageStart(page) && InUserPages(page) && t in Live(m') && |m'.k.tasks| == t + 1
            && m'.k.tasks[t].stkBottom == page && m'.k.tasks[t].context == FirstContext(page)
            && var at := FirstContext(page);
               0 <= at && at / 4 + FRAME_WORDS <= MEM_WORDS
               && m'.k.mem[at / 4..at / 4 + FRAME_WORDS] == CreatedFrame(m, e)
  {
    hide Secure, Inv, Leads, TaskTable, FreshStack, FirstFrame;
    CreatedRecord(m, e, m', first);
    var page, base := Pages.PageStart(m.k.free[0]), Blocks.KblkStart(m.k.kfree[0]);
    var pushed, at, start: Word := Push(m, e.r10).mem, FirstContext(page), m.regs.sp - FRAME_BYTES;
    FreshFrame(pushed, page, e.entry);
    MultipleOfFour(page);
    KblkTable(m.k.kfree[0]);
    var mem := FreshStack(pushed, page, e.entry)[start / 4 := |m.k.tasks|];
    forall i | 0 <= i < FRAME_WORDS
      ensures m'.k.mem[at / 4 + i] == CreatedFrame(m, e)[i]
    {
      TablesStayInBlock(mem, page, base, at / 4 + i);
      assert FreshStack(pushed, page, e.entry)[at / 4..at / 4 + FRAME_WORDS][i] == FirstFrame(e.entry)[i];
    }
  }

  lemma CreatedRecord(m: Machine, e: Event, m': Machine, first: nat)
    requires Secure(m, first) && e.TaskCreate? && Leads(m, e, m') && CanAllocate(m.k) && m.k.free[0] < Pages.PAGE_NUM
    ensures CanPush(m.regs.sp) && |m.k.tasks| < WORD_RANGE && m.k.kfree[0] < Blocks.KBLK_NUM
    ensures var page, t := Pages.PageStart(m.k.free[0]), |m.k.tasks|;
            && IsPageStart(page) && InUserPages(page) && t in Live(m') && |m'.k.tasks| == t + 1
            && m'.k.tasks[t].stkBottom == page && m'.k.tasks[t].context == FirstContext(page)
            && m'.k.mem == TaskTable(FreshStack(Push(m, e.r10).mem, page, e.entry)
                                       [(m.regs.sp - FRAME_BYTES) / 4 := t],
                                     page, Blocks.KblkStart(m.k.kfree[0]))
  {
    hide TaskTable, FreshStack, TablesOk, ZombieOk, PagesOk, BlocksOk, QueuesOk, ContextsOk, FrameSpot, Write, Frame;
    FreePage(m, first);
    ExitedAreKnown(m);
  }

  /** The creator finds the id of the new task in the r0 slot of its own context; the other thirteen words of that are
      as they were pushed, where the frame does not lie in the page that is taken. */
  lemma CreatorAnswered(m: Machine, e: Event, m': Machine, first: nat)
    requires Secure(m, first) && e.TaskCreate? && Leads(m, e, m') && CanAllocate(m.k) && m.k.free[0] < Pages.PAGE_NUM
    ensures 56 <= m.regs.sp && (m.regs.sp - 56) / 4 + 14 <= MEM_WORDS
    ensures var slot, page := (m.regs.sp - 56) / 4, Pages.PageStart(m.k.free[0]);
            && m'.k.mem[slot] == |m.k.tasks|
            && (m.regs.sp <= page || page + 0x1000 <= m.regs.sp - 56 ==>
                  forall i :: 1 <= i < 14 ==> m'.k.mem[slot + i] == Frame(m.regs, e.r10)[i])
  {
    hide Secure, Inv, Leads, TaskTable, FreshStack, FirstFrame, FrameSpot, Write, Frame;
    CreatedRecord(m, e, m', first);
    var page, base, slot := Pages.PageStart(m.k.free[0]), Blocks.KblkStart(m.k.kfree[0]), (m.regs.sp - 56) / 4;
    SpotWords(m.regs.sp - 56);
    KblkTable(m.k.kfree[0]);
    var pushed := Push(m, e.r10).mem;
    var mem := FreshStack(pushed, page, e.entry)[slot := |m.k.tasks|];
    TablesStayInBlock(mem, page, base, slot);
    if m.regs.sp <= page || page + 0x1000 <= m.regs.sp - 56 {
      forall i | 1 <= i < 14
        ensures m'.k.mem[slot + i] == Frame(m.regs, e.r10)[i]
      {
        TablesStayInBlock(mem, page, base, slot + i);
        StackOnly(pushed, page, e.entry, slot + i);
      }
    }
  }

  lemma SpotWords(at: Word)
    requires FrameSpot(at)
    ensures at == at / 4 * 4 && TASK_MEM_START <= at && at / 4 + 14 <= MEM_WORDS
  {
  }

  /** Only the stack of the page is cleared. */
  lemma StackOnly(mem: Memory, page: Word, entry: Word, j: nat)
    requires IsPageStart(page) && j < MEM_WORDS && !(page / 4 <= j < page / 4 + 0x400)
    ensures FreshStack(mem, page, entry)[j] == mem[j]
  {
    MultipleOfFour(page);
    DivMod(FirstContext(page) + 36, 4, page / 4 + 0x3f9, 0);
  }

  /** A created task that is chosen for the first time starts from that frame; as a rule at its entry point, with r0 to
      r8, r11 and lr zero and the stack pointer past its first context.  Its status word then comes from the r12 slot,
      which is zero as well: flags, interrupt masks and the mode field, which is a reserved one. */
  lemma CreatedTaskStarts(m: Machine, e: Event, m1: Machine, evs: seq<Event>, m2: Machine, first: nat)
    requires Secure(m, first) && e.TaskCreate? && Leads(m, e, m1) && CanAllocate(m.k) && m.k.free[0] < Pages.PAGE_NUM
    requires ReachesAway(m1, evs, m2, |m.k.tasks|) && evs != [] && IsSwitch(evs[|evs| - 1])
    requires m2.k.cur == |m.k.tasks| < WORD_RANGE
    ensures m2.regs.sp == Pages.PageStart(m.k.free[0]) + 0xff8
    ensures m2.regs.r == CreatedFrame(m, e)[..13] && m2.regs.pc == CreatedFrame(m, e)[9]
    ensures SameFlagsAndControl(m2.regs.cpsr, CreatedFrame(m, e)[12])
    ensures !InContext(FirstContext(Pages.PageStart(m.k.free[0])), (m.regs.sp - FRAME_BYTES) / 4) ==>
              && m2.regs.pc == e.entry && m2.regs.lr == 0 && m2.regs.r[11] == 0
              && (forall i :: 0 <= i < 9 ==> m2.regs.r[i] == 0)
              && SameFlagsAndControl(m2.regs.cpsr, 0) && m2.regs.cpsr % 0x20 == 0 && UserStatus(m2.regs.cpsr)
  {
    hide Secure, Inv, Leads, ReachesAway, FramePlace, MsrFc, CreatedFrame, UserStatus;
    var t, page := |m.k.tasks|, Pages.PageStart(m.k.free[0]);
    CreatedContext(m, e, m1, first);
    StepKeepsSecure(m, e, m1, first);
    FirstContextPlaced(page);
    var at: Word := FirstContext(page);
    ResumedFrom(m1, evs, m2, first, t, at);
    SpotInRange(at);
    var cpsr := evs[|evs| - 1].cpsr;
    MsrWrites(cpsr, CreatedFrame(m, e)[12]);
    if !InContext(at, (m.regs.sp - FRAME_BYTES) / 4) {
      CreatedClear(m, e);
      NoMode(m2.regs.cpsr);
    }
  }

  lemma CreatedClear(m: Machine, e: Event)
    requires e.TaskCreate? && CanAllocate(m.k) && m.k.free[0] < Pages.PAGE_NUM && |m.k.tasks| < WORD_RANGE
    requires !InContext(FirstContext(Pages.PageStart(m.k.free[0])), (m.regs.sp - FRAME_BYTES) / 4)
    ensures CreatedFrame(m, e) == FirstFrame(e.entry)
  {
  }

  lemma NoMode(cpsr: Word)
    requires SameFlagsAndControl(cpsr, 0)
    ensures cpsr % 0x20 == 0 && UserStatus(cpsr)
  {
    ControlByte(cpsr);
  }

  /** What the shell finds on its stack, in words of memory: all of it is zero but for the entry point in the r9 slot of
      the context that do_task_create made. */
  lemma ShellFrame(mem: Memory, first: nat, shell: Word)
    requires first + 2 < Blocks.KBLK_NUM
    ensures var k := Boot(mem, first, shell);
            && |k.tasks| == 1 && k.cur == 0
            && k.tasks[0].stkBottom == 0x8220_0000 && k.tasks[0].context == 0x8220_0fc0
            && forall j :: 0x2088_0000 <= j < 0x2088_0400 ==> k.mem[j] == if j == 0x2088_03f9 then shell else 0
  {
    hide TaskTable, FreshStack, StatusOf;
    var k, page, base := Boot(mem, first, shell), Pages.PageStart(1), Blocks.KblkStart(first + 1);
    Ownership.BootRecord(mem, first, shell);
    PageStartIs(1);
    KblkTable(first + 1);
    forall j | 0x2088_0000 <= j < 0x2088_0400
      ensures k.mem[j] == if j == 0x2088_03f9 then shell else 0
    {
      TablesStayInBlock(FreshStack(mem, page, shell), page, base, j);
      ClearedStack(mem, page, shell, j);
    }
  }

  /** The stack of a new task is clear, up to its top, but for the entry point. */
  lemma ClearedStack(mem: Memory, page: Word, entry: Word, j: nat)
    requires IsPageStart(page) && page / 4 <= j < page / 4 + 0x400
    ensures j < MEM_WORDS && FreshStack(mem, page, entry)[j] == if j == page / 4 + 0x3f9 then entry else 0
  {
    MultipleOfFour(page);
    DivMod(FirstContext(page) + 36, 4, page / 4 + 0x3f9, 0);
  }

  /** first_run on that context enters the shell at its entry point, in user mode with interrupts on, with the other
      registers zero and the stack pointer past the context. */
  lemma ShellStarts(mem: Memory, first: nat, shell: Word, cpsr: Word)
    requires first + 2 < Blocks.KBLK_NUM
    ensures var g := Begin(Boot(mem, first, shell).mem[0x2088_03f0..0x2088_03fe], 0x8220_0fc0, cpsr);
            && g.pc == shell && g.sp == 0x8220_0ff8 && g.lr == 0
            && (forall i :: 0 <= i < 13 ==> g.r[i] == if i == 9 then shell else 0)
            && g.cpsr / 0x100 == cpsr / 0x100 && g.cpsr % 0x100 == 0x10 && UserStatus(g.cpsr)
  {
    hide Boot;
    ShellFrame(mem, first, shell);
    var f := Boot(mem, first, shell).mem[0x2088_03f0..0x2088_03fe];
    assert forall i :: 0 <= i < FRAME_WORDS ==> f[i] == if i == 9 then shell else 0;
    WrapIs(0x8220_0ff8, 0, 0x8220_0ff8);
    var g := Begin(f, 0x8220_0fc0, cpsr);
    DivMod(g.cpsr, 0x100, cpsr / 0x100, 0x10);
    ControlByte(g.cpsr);
  }

  /** A forked child that is chosen for the first time continues as its parent at the fork, with 0 in r0, on its own
      copy of the stack. */
  lemma ForkedChildStarts(m: Machine, e: Event, m1: Machine, evs: seq<Event>, m2: Machine, first: nat)
    requires Secure(m, first) && e.Fork? && Leads(m, e, m1)
    requires ReachesAway(m1, evs, m2, |m.k.tasks|) && evs != [] && IsSwitch(evs[|evs| - 1])
    requires m2.k.cur == |m.k.tasks|
    ensures |m.k.tasks| < |m1.k.tasks| && m.k.cur < |m.k.tasks|
    ensures m2.regs.pc == m.regs.pc && m2.regs.lr == m.regs.lr && SameFlagsAndControl(m2.regs.cpsr, m.regs.cpsr)
    ensures m2.regs.r[0] == 0 && m2.regs.r[1..9] == m.regs.r[1..9] && m2.regs.r[11] == m.regs.r[11]
    ensures m2.regs.sp - m1.k.tasks[|m.k.tasks|].stkBottom == m.regs.sp - m.k.tasks[m.k.cur].stkBottom
  {
    hide Secure, Inv, Leads, ReachesAway, FramePlace, MsrFc, Frame, SameStack;
    var t := |m.k.tasks|;
    SecureInv(m, first);
    ForkCopies(m, e, m1, first);
    StepKeepsSecure(m, e, m1, first);
    ForkedLive(m, e, m1, first);
    var at: Word := m1.k.tasks[t].context;
    var cpsr := evs[|evs| - 1].cpsr;
    ResumedFrom(m1, evs, m2, first, t, at);
    FrameInPage(m1.k.tasks[t].stkBottom, at);
    LivePage(m1, first, t) by {
      SecureInv(m1, first);
    }
    OwnSpot(m1.k.tasks[t].stkBottom, at);
    SpotInRange(at);
    ChildRegs(m.regs, e.r10, m1.k.mem[at / 4..at / 4 + FRAME_WORDS], at, cpsr);
  }

  lemma FrameInPage(page: Word, at: int)
    requires FramePlace(page, at)
    ensures page <= at < page + SECTION
  {
  }

  lemma ForkedLive(m: Machine, e: Event, m': Machine, first: nat)
    requires Inv(m, first) && Leads(m, e, m') && e.Fork?
    ensures |m.k.tasks| in Live(m')
  {
    hide Leads, PagesOk, BlocksOk, QueuesOk, ContextsOk;
    ForkedRecord(m, e, m');
    ExitedAreKnown(m);
    ForkKeepsExited(m, e, m');
  }

  lemma ForkKeepsExited(m: Machine, e: Event, m': Machine)
    requires Leads(m, e, m') && e.Fork?
    ensures m'.exited == m.exited
  {
  }

  lemma ChildRegs(g: Regs, r10: Word, f: seq<Word>, at: Word, cpsr: Word)
    requires |f| == FRAME_WORDS && f[0] == 0 && f[1..] == Frame(g, r10)[1..] && at + FRAME_BYTES < WORD_RANGE
    ensures var c := Resume(f, at, cpsr);
            && c.pc == g.pc && c.lr == g.lr && SameFlagsAndControl(c.cpsr, g.cpsr) && c.sp == at + FRAME_BYTES
            && c.r[0] == 0 && c.r[1..9] == g.r[1..9] && c.r[11] == g.r[11]
  {
    hide MsrFc;
    var w := Frame(g, r10);
    assert forall i :: 1 <= i < FRAME_WORDS ==> f[i] == f[1..][i - 1] == w[1..][i - 1] == w[i];
    MsrWrites(cpsr, g.cpsr);
  }
}
