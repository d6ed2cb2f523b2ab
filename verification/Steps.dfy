/** Whole runs of the system: user instructions, ticks and system calls as atomic steps (every handler runs with
    interrupts masked), and the invariants that each step keeps. */
module Steps {
  import opened Words
  import opened Layout
  import opened Seqs
  import opened Mmu
  import opened Mem
  import opened Sched
  import opened Context
  import opened KernelState
  import Pages
  import Blocks

  /** The kernel keeps no record of exited and grants: the tasks for which exit_handler has run, and for each task the
      sections that its page table was built to let it write. */
  datatype Machine = Machine(k: Kernel, regs: Regs, exited: set<nat>, grants: seq<set<nat>>)

  datatype Store = NoStore | Store(va: Word, value: Word)

  /** r10 is what the handler leaves in r10 before the context is pushed, cpsr its own program status, and below what
      reload_ostick leaves under the context that is resumed.  Service stands for the other system calls: they write a
      result to the r0 slot of the caller's context and words to a buffer of the caller's choice. */
  datatype Event =
    | User(regs: Regs, store: Store)
    | Tick(r10: Word, cpsr: Word, below: Below)
    | Yield(r10: Word, cpsr: Word, below: Below)
    | TaskCreate(r10: Word, prio: nat, entry: Word, after: Regs)
    | Fork(r10: Word, after: Regs)
    | Service(r10: Word, buf: Word, words: seq<Word>, result: Word, after: Regs)
    | Exit(r10: Word, after: Regs)

  const SHELL: nat := 0
  const TREE_PAGE: nat := 0

  ghost function Live(m: Machine): set<nat> {
    set t | 0 <= t < |m.k.tasks| && t !in m.exited
  }

  // ------------------------------------------------------------------ invariants

  /** List p holds live tasks of priority p, none twice. */
  ghost predicate ListOk(m: Machine, p: nat)
    requires p < MAXNUM_PRIORITY
  {
    && NoDup(m.k.ready[p])
    && (forall i :: 0 <= i < |m.k.ready[p]| ==>
          var t := m.k.ready[p][i];
          t < |m.k.tasks| && t !in m.exited && m.k.tasks[t].priority == p)
  }

  /** The five lists hold exactly the live tasks, each once, in the list of its priority. */
  ghost predicate QueuesOk(m: Machine) {
    && (forall p :: 0 <= p < MAXNUM_PRIORITY ==> ListOk(m, p))
    && (forall t :: 0 <= t < |m.k.tasks| && t !in m.exited ==>
          m.k.tasks[t].priority < MAXNUM_PRIORITY && t in m.k.ready[m.k.tasks[t].priority])
  }

  /** Live tasks other than the current one are READY; the shell is live at the lowest priority. */
  ghost predicate StatusOk(m: Machine) {
    var k := m.k;
    && k.cur < |k.tasks|
    && (forall t :: t in m.exited ==> t < |k.tasks|)
    && (forall t :: 0 <= t < |k.tasks| && t !in m.exited ==> k.tasks[t].status == if t == k.cur then Running else Ready)
    && SHELL !in m.exited && k.tasks[SHELL].priority == LOWEST_PRIORITY
    && k.ttbr == k.tasks[k.cur].pgtbase
  }

  /** Number of the page at which a task's stack starts. */
  function PageOf(t: Task): int {
    (t.stkBottom - UMEM_START) / SECTION
  }

  ghost predicate OwnsPage(k: Kernel, t: Task) {
    && 0 <= PageOf(t) < Pages.PAGE_NUM && t.stkBottom == Pages.PageStart(PageOf(t))
    && PageOf(t) in k.inuse && PageOf(t) != TREE_PAGE
  }

  /** Live tasks own different in-use pages; the only other in-use page is that of the path tree, at the head. */
  ghost predicate PagesOk(m: Machine) {
    var k := m.k;
    && Partition(0, Pages.PAGE_NUM, k.free, k.inuse)
    && k.inuse != [] && k.inuse[0] == TREE_PAGE
    && |k.inuse| == |Live(m)| + 1
    && (forall t :: 0 <= t < |k.tasks| && t !in m.exited ==> OwnsPage(k, k.tasks[t]))
    && (forall t, u :: 0 <= t < u < |k.tasks| && t !in m.exited && u !in m.exited ==>
          k.tasks[t].stkBottom != k.tasks[u].stkBottom)
  }

  ghost predicate OwnsBlock(k: Kernel, t: Task) {
    && 0 <= KblkOf(t.pgtbase) < Blocks.KBLK_NUM && t.pgtbase == Blocks.KblkStart(KblkOf(t.pgtbase))
    && KblkOf(t.pgtbase) in k.kused && KblkOf(t.pgtbase) != k.kused[0]
  }

  /** Live tasks own different allocated kernel blocks; the only other one is that of the IPC queue, the first. */
  ghost predicate BlocksOk(m: Machine, first: nat) {
    var k := m.k;
    && Partition(first, Blocks.KBLK_NUM, k.kfree, k.kused)
    && k.kused != [] && k.kfree != []
    && |k.kused| == |Live(m)| + 1
    && (forall t :: 0 <= t < |k.tasks| && t !in m.exited ==> OwnsBlock(k, k.tasks[t]))
    && (forall t, u :: 0 <= t < u < |k.tasks| && t !in m.exited && u !in m.exited ==>
          k.tasks[t].pgtbase != k.tasks[u].pgtbase)
  }

  /** Word a of the page that starts at `page` belongs to user code: it is outside TASK_INFO and the block descriptors. */
  predicate Private(page: Word, a: int) {
    || page + TASK_INFO_BYTES <= a < page + BLK_TABLE
    || page + FREE_AREA <= a < page + SECTION
  }

  /** A context at `at`, with the room below it that reload_ostick takes, consists of such words. */
  predicate FramePlace(page: Word, at: int) {
    && at % 4 == 0
    && Private(page, at - RELOAD_BYTES) && Private(page, at + FRAME_BYTES - 4)
    && (at - RELOAD_BYTES < page + BLK_TABLE ==> at + FRAME_BYTES <= page + BLK_TABLE)
  }

  /** The first page holds the path tree and is the kernel's. */
  predicate InUserPages(a: Word) {
    TASK_MEM_START <= a < KSTACK_BOTTOM
  }

  /** The same for whichever page the address lies in. */
  predicate PagePrivate(a: Word) {
    InUserPages(a) && Private(RoundDown(a, SECTION), a)
  }

  predicate FrameSpot(at: Word) {
    InUserPages(at) && FramePlace(RoundDown(at, SECTION), at)
  }

  /** The saved context of every live task that is not running lies clear of what the kernel keeps in user pages. */
  ghost predicate ContextsOk(m: Machine) {
    forall t :: 0 <= t < |m.k.tasks| && t !in m.exited && t != m.k.cur ==> FrameSpot(m.k.tasks[t].context)
  }

  ghost predicate Inv(m: Machine, first: nat) {
    QueuesOk(m) && StatusOk(m) && PagesOk(m) && BlocksOk(m, first) && ContextsOk(m)
  }

  lemma InvIsShaped(m: Machine, first: nat)
    requires Inv(m, first)
    ensures Shaped(m.k)
  {
    var k := m.k;
    forall p, i | 0 <= p < MAXNUM_PRIORITY && 0 <= i < |k.ready[p]|
      ensures k.ready[p][i] < |k.tasks|
    {
      assert ListOk(m, p);
    }
    forall i | 0 <= i < |k.free|
      ensures k.free[i] < Pages.PAGE_NUM
    {
      assert k.free[i] in k.free;
    }
    forall i | 0 <= i < |k.inuse|
      ensures k.inuse[i] < Pages.PAGE_NUM
    {
      assert k.inuse[i] in k.inuse;
    }
    forall i | 0 <= i < |k.kfree|
      ensures k.kfree[i] < Blocks.KBLK_NUM
    {
      assert k.kfree[i] in k.kfree;
    }
    forall i | 0 <= i < |k.kused|
      ensures k.kused[i] < Blocks.KBLK_NUM
    {
      assert k.kused[i] in k.kused;
    }
  }

  // ------------------------------------------------------------------ steps

  /** A context pushed below sp, and what reload_ostick will write below it, destroys no TASK_INFO and no block
      descriptor, of whatever page sp points into. */
  predicate CanPush(sp: Word) {
    FRAME_BYTES <= sp && FrameSpot(sp - FRAME_BYTES)
  }

  /** The context of the running task pushed at its stack pointer, from system mode: the page tables do not stop it. */
  function Push(m: Machine, r10: Word): Kernel
    requires CanPush(m.regs.sp)
  {
    m.k.(mem := Write(m.k.mem, (m.regs.sp - FRAME_BYTES) / 4, Frame(m.regs, r10)))
  }

  /** A store in the DRAM window that the active table permits at the privilege of the running code, and that likewise
      destroys no TASK_INFO and no block descriptor, of whatever page. */
  ghost predicate CanStore(m: Machine, s: Store) {
    s.Store? ==>
      && s.va % 4 == 0 && KUSE_START <= s.va < WINDOW_END
      && var t := Walk(m.k.mem, m.k.ttbr, s.va);
         (if Unprivileged(m.regs.cpsr) then t.UserWritable() else t.PrivilegedWritable()) && PagePrivate(t.pa)
  }

  /** A buffer of n words, which a handler writes with the privilege of the kernel, under the kernel's table. */
  predicate CanFill(buf: Word, n: nat) {
    && buf % 4 == 0 && buf / 4 + n <= MEM_WORDS
    && forall i :: 0 <= i < n ==> buf + 4 * i < WORD_RANGE && PagePrivate(buf + 4 * i)
  }

  /** When a step can happen.  After its exit a task only spins (usyscall.c:27-31) until the tick.  Creation needs the
      allocators' two free nodes, a priority that names a list, and ids that do not wrap; exit is not for the shell and
      is made only while nothing follows the task on its list.  Unprivileged code does not change the control byte of
      its status. */
  ghost predicate Enabled(m: Machine, e: Event)
  {
    Shaped(m.k) &&
    match e
    case User(regs, store) =>
      CanStore(m, store) && (Unprivileged(m.regs.cpsr) ==> regs.cpsr % 0x100 == m.regs.cpsr % 0x100)
    case Tick(_, _, _) => CanPush(m.regs.sp) && !Masked(m.regs.cpsr)
    case Yield(_, _, _) => CanPush(m.regs.sp)
    case TaskCreate(_, prio, _, _) =>
      && CanPush(m.regs.sp) && m.k.cur !in m.exited
      && CanAllocate(m.k) && prio < MAXNUM_PRIORITY && |m.k.tasks| < 0x8000_0000
    case Fork(_, _) =>
      && CanPush(m.regs.sp) && m.k.cur !in m.exited
      && CanAllocate(m.k) && |m.k.tasks| < 0x8000_0000 && ContextOnStack(m.k, m.regs.sp - FRAME_BYTES)
    case Service(_, buf, words, _, _) =>
      CanPush(m.regs.sp) && m.k.cur !in m.exited && CanFill(buf, |words|)
    case Exit(_, _) =>
      && CanPush(m.regs.sp) && m.k.cur !in m.exited && m.k.cur != SHELL
      && m.k.tasks[m.k.cur].priority < MAXNUM_PRIORITY
      && IsTail(m.k.ready[m.k.tasks[m.k.cur].priority], m.k.cur)
  }

  /** The word a walk of the active table leads to is the one that is written. */
  function AfterStore(k: Kernel, s: Store): Kernel {
    match s
    case NoStore => k
    case Store(va, value) =>
      var t := Walk(k.mem, k.ttbr, va);
      if t.Section? then k.(mem := k.mem[t.pa / 4 := value]) else k
  }

  /** The writes of a system call that answers with words in a buffer and a result. */
  function Answer(k: Kernel, context: Word, buf: Word, words: seq<Word>, result: Word): Kernel
    requires buf / 4 + |words| <= MEM_WORDS
  {
    k.(mem := Write(k.mem, buf / 4, words)[context / 4 := result])
  }

  /** One step.  A tick and a yield end in switch_task on the context of the chosen task. */
  ghost predicate Step(m: Machine, e: Event, m': Machine)
    requires Enabled(m, e)
  {
    var at: Word := if e.User? then 0 else m.regs.sp - FRAME_BYTES;
    match e
    case User(regs, store) => m' == m.(k := AfterStore(m.k, store), regs := regs)
    case Tick(r10, cpsr, below) => Switched(m, r10, cpsr, below, at, m')
    case Yield(r10, cpsr, below) => Switched(m, r10, cpsr, below, at, m')
    case TaskCreate(r10, prio, entry, after) =>
      m' == m.(k := KernelState.TaskCreate(Push(m, r10), at, prio, entry), regs := after,
               grants := m.grants + [{Sec(Pages.PageStart(m.k.free[0]))}])
    case Fork(r10, after) =>
      && m.k.tasks[m.k.cur].priority < MAXNUM_PRIORITY
      && m' == m.(k := KernelState.Fork(Push(m, r10), at), regs := after,
                  grants := m.grants + [{Sec(Pages.PageStart(m.k.free[0])), Sec(m.k.tasks[m.k.cur].stkBottom)}])
    case Service(r10, buf, words, result, after) =>
      m' == m.(k := Answer(Push(m, r10), at, buf, words, result), regs := after)
    case Exit(r10, after) =>
      && 0 <= KblkOf(m.k.tasks[m.k.cur].pgtbase)
      && m' == m.(k := KernelState.Exit(Push(m, r10)), regs := after, exited := m.exited + {m.k.cur})
  }

  ghost predicate Switched(m: Machine, r10: Word, cpsr: Word, below: Below, at: Word, m': Machine)
    requires Shaped(m.k) && CanPush(m.regs.sp) && at == m.regs.sp - FRAME_BYTES
  {
    var k := Push(m, r10);
    && Schedulable(Suspend(k, at))
    && var k' := SwitchAway(k, at);
       var sp := k'.tasks[k'.cur].context;
       && RELOAD_BYTES <= sp && sp / 4 + FRAME_WORDS <= MEM_WORDS
       && m' == m.(k := Reloaded(k', sp, below), regs := Resume(k'.mem[sp / 4..sp / 4 + FRAME_WORDS], sp, cpsr))
  }

  /** After reload_ostick, called with the stack pointer at sp. */
  function Reloaded(k: Kernel, sp: Word, below: Below): Kernel
    requires RELOAD_BYTES <= sp
  {
    k.(mem := Write(k.mem, (sp - RELOAD_BYTES) / 4, below))
  }

  ghost predicate Leads(m: Machine, e: Event, m': Machine) {
    Enabled(m, e) && Step(m, e, m')
  }

  /** A switch, field by field. */
  lemma SwitchIs(m: Machine, e: Event, m': Machine)
    requires (e.Tick? || e.Yield?) && Leads(m, e, m')
    ensures Shaped(m.k) && CanPush(m.regs.sp)
    ensures var k, at: Word := Push(m, e.r10), m.regs.sp - FRAME_BYTES;
            && Shaped(k) && FrameSpot(at) && Schedulable(Suspend(k, at))
            && m' == m.(k := SwitchAway(k, at).(mem := m'.k.mem), regs := m'.regs)
    ensures m'.k.cur < |m'.k.tasks|
    ensures var sp := m'.k.tasks[m'.k.cur].context;
            && RELOAD_BYTES <= sp && sp / 4 + FRAME_WORDS <= MEM_WORDS
            && m'.k.mem == Write(Push(m, e.r10).mem, (sp - RELOAD_BYTES) / 4, e.below)
            && m'.regs == Resume(Push(m, e.r10).mem[sp / 4..sp / 4 + FRAME_WORDS], sp, e.cpsr)
  {
    hide Write, Frame, Resume, FrameSpot;
    PushIsShaped(m, e.r10);
    SwitchedMemory(Push(m, e.r10), m.regs.sp - FRAME_BYTES);
  }

  lemma SwitchedMemory(k: Kernel, at: Word)
    requires Shaped(k) && Schedulable(Suspend(k, at))
    ensures SwitchAway(k, at).mem == k.mem && SwitchAway(k, at).cur < |SwitchAway(k, at).tasks|
  {
  }

  lemma PushIsShaped(m: Machine, r10: Word)
    requires Shaped(m.k) && CanPush(m.regs.sp)
    ensures Shaped(Push(m, r10)) && Push(m, r10) == m.k.(mem := Push(m, r10).mem)
  {
    hide Write, Frame, FrameSpot;
  }

  /** An exit, field by field. */
  lemma ExitIs(m: Machine, e: Event, m': Machine)
    requires e.Exit? && Leads(m, e, m')
    ensures Shaped(m.k) && CanPush(m.regs.sp) && m.k.cur !in m.exited && m.k.cur != SHELL
    ensures m.k.tasks[m.k.cur].priority < MAXNUM_PRIORITY && 0 <= KblkOf(m.k.tasks[m.k.cur].pgtbase)
    ensures IsTail(m.k.ready[m.k.tasks[m.k.cur].priority], m.k.cur)
    ensures Shaped(Push(m, e.r10))
    ensures m' == m.(k := KernelState.Exit(Push(m, e.r10)), regs := e.after, exited := m.exited + {m.k.cur})
  {
    hide Write, Frame, FrameSpot, CurPage;
    PushIsShaped(m, e.r10);
  }

  function Front(evs: seq<Event>): seq<Event>
    requires evs != []
  {
    evs[..|evs| - 1]
  }

  /** The events evs, in that order, lead from m to m'. */
  ghost predicate Reaches(m: Machine, evs: seq<Event>, m': Machine)
    decreases |evs|
  {
    if evs == [] then m' == m
    else exists x :: Reaches(m, Front(evs), x) && Leads(x, evs[|evs| - 1], m')
  }

  lemma LastStep(m: Machine, evs: seq<Event>, m': Machine) returns (x: Machine)
    requires Reaches(m, evs, m') && evs != []
    ensures Reaches(m, evs[..|evs| - 1], x) && Leads(x, evs[|evs| - 1], m')
  {
    hide Leads;
    x :| Reaches(m, Front(evs), x) && Leads(x, evs[|evs| - 1], m');
  }

  lemma NoSteps(m: Machine, m': Machine)
    requires Reaches(m, [], m')
    ensures m' == m
  {
  }
}
