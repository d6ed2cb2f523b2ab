/** The mode in which tasks run.  switch_task takes it from the r12 slot of a context in user memory, so that page tables
    bind a task only while no one else has written that slot. */
module Modes {
  import opened Words
  import opened Layout
  import opened Mmu
  import opened PageTables
  import opened Mem
  import opened Context
  import opened KernelState
  import opened Steps
  import opened Invariants
  import opened Scheduling
  import opened ForkCopy
  import opened Isolation
  import opened FirstRuns
  import Pages

  /** Index of the word from which switch_task takes the status of the task whose context is at `at`. */
  function StatusAt(at: int): int {
    (at + 48) / 4
  }

  /** The saved status of task t is that of unprivileged, interruptible code. */
  predicate SavedStatus(m: Machine, t: nat)
    requires t < |m.k.tasks|
  {
    var j := StatusAt(m.k.tasks[t].context);
    j < MEM_WORDS && UserStatus(m.k.mem[j])
  }

  /** The running task is unprivileged and interruptible, and every other live task will be when it is resumed. */
  ghost predicate ModesOk(m: Machine) {
    && UserStatus(m.regs.cpsr)
    && forall t :: t in Live(m) && t != m.k.cur ==> SavedStatus(m, t)
  }

  predicate Returns(e: Event) {
    e.TaskCreate? || e.Fork? || e.Service? || e.Exit?
  }

  /** Step e writes the saved status of no other live task, nor spoils the one it saves or makes; and where it returns to
      its caller, the return path restores an unprivileged and interruptible status. */
  ghost predicate KeepsStatus(m: Machine, e: Event, m': Machine) {
    && (forall t :: t in Live(m) && t != m.k.cur ==> StatusApart(m, e, m', m.k.tasks[t].context))
    && (IsSwitch(e) && m'.k.cur != m.k.cur && m'.k.cur < |m'.k.tasks| ==>
          !InBelow(m'.k.tasks[m'.k.cur].context, StatusAt(m.regs.sp - FRAME_BYTES)))
    && (e.TaskCreate? && m.k.free != [] && m.k.free[0] < Pages.PAGE_NUM ==>
          (m.regs.sp - FRAME_BYTES) / 4 != StatusAt(FirstContext(Pages.PageStart(m.k.free[0]))))
    && (Returns(e) ==> UserStatus(e.after.cpsr))
  }

  predicate StatusApart(m: Machine, e: Event, m': Machine, at: Word) {
    !Touches(m, e, m', StatusAt(at))
  }

  /** The status word is the thirteenth of the context. */
  lemma StatusOfFrame(at: Word)
    requires FrameSpot(at)
    ensures StatusAt(at) == at / 4 + 12 < MEM_WORDS && !InBelow(at, StatusAt(at))
  {
    SpotInRange(at);
    SpotAligned(at);
    DivMod(at + 48, 4, at / 4 + 12, 0);
  }

  lemma StatusInPage(page: Word, at: Word)
    requires IsPageStart(page) && FramePlace(page, at)
    ensures InPage(page, StatusAt(at))
  {
    MultipleOfFour(page);
  }

  lemma StatusNotBelow(page: Word, at: int, page': Word, at': Word)
    requires IsPageStart(page) && FramePlace(page, at) && FramePlace(page', at') && IsPageStart(page')
    requires page + SECTION <= page' || page' + SECTION <= page
    ensures !InBelow(at', StatusAt(at))
  {
    MultipleOfFour(page);
    MultipleOfFour(page');
  }

  lemma WaitingSpot(m: Machine, first: nat, t: nat)
    requires Inv(m, first) && t in Live(m) && t != m.k.cur
    ensures FrameSpot(m.k.tasks[t].context)
  {
    hide QueuesOk, StatusOk, PagesOk, BlocksOk, FrameSpot;
  }

  /** What switch_task puts in the status of the task it resumes. */
  lemma ResumedStatus(m: Machine, e: Event, m': Machine, first: nat)
    requires IsSwitch(e) && Inv(m, first) && Leads(m, e, m')
    ensures m'.k.cur < |m'.k.tasks|
    ensures var j := StatusAt(m'.k.tasks[m'.k.cur].context);
            && j < MEM_WORDS && SameFlagsAndControl(m'.regs.cpsr, m'.k.mem[j])
            && UserStatus(m'.regs.cpsr) == UserStatus(m'.k.mem[j])
  {
    hide Leads, Inv, FrameSpot, MsrFc, UserStatus;
    SwitchRestores(m, e, m', first);
    ChosenSpot(m, e, m', first);
    var sp := m'.k.tasks[m'.k.cur].context;
    StatusOfFrame(sp);
    var w := m'.k.mem[StatusAt(sp)];
    assert m'.k.mem[sp / 4..sp / 4 + FRAME_WORDS][12] == w;
    MsrWrites(e.cpsr, w);
    SameStatus(m'.regs.cpsr, w);
  }

  lemma SameStatus(a: Word, b: Word)
    requires a % 0x100 == b % 0x100
    ensures UserStatus(a) == UserStatus(b)
  {
    ControlDecides(a, b);
  }

  /** A status that a switch saves, if what it resumes is not just above, ... */
  lemma SavedOnSwitch(m: Machine, e: Event, m': Machine, first: nat)
    requires IsSwitch(e) && Inv(m, first) && Leads(m, e, m')
    requires m'.k.cur != m.k.cur && m'.k.cur < |m'.k.tasks| ==>
               !InBelow(m'.k.tasks[m'.k.cur].context, StatusAt(m.regs.sp - FRAME_BYTES))
    ensures FRAME_BYTES <= m.regs.sp && m.k.cur < |m'.k.tasks|
    ensures m'.k.tasks[m.k.cur].context == m.regs.sp - FRAME_BYTES
    ensures var j := StatusAt(m.regs.sp - FRAME_BYTES);
            0 <= j < MEM_WORDS && m'.k.mem[j] == m.regs.cpsr
  {
    hide Leads, Inv, FrameSpot, InBelow, Write, Frame;
    SwitchIs(m, e, m');
    InvIsShaped(m, first);
    StepKeepsTask(m, e, m', first, m.k.cur);
    var at: Word := m.regs.sp - FRAME_BYTES;
    SpotInRange(at);
    StatusOfFrame(at);
    BelowWritten(m, e, m', StatusAt(at));
    assert Push(m, e.r10).mem[at / 4 + 12] == Frame(m.regs, e.r10)[12];
    FrameStatus(m.regs, e.r10);
  }

  lemma BelowWritten(m: Machine, e: Event, m': Machine, j: nat)
    requires IsSwitch(e) && Leads(m, e, m') && j < MEM_WORDS && m'.k.cur < |m'.k.tasks|
    requires !InBelow(m'.k.tasks[m'.k.cur].context, j)
    ensures CanPush(m.regs.sp) && m'.k.mem[j] == Push(m, e.r10).mem[j]
  {
    hide Leads, Push;
    SwitchIs(m, e, m');
  }

  lemma FrameStatus(g: Regs, r10: Word)
    ensures Frame(g, r10)[12] == g.cpsr
  {
  }

  /** ... that a creation makes, ... */
  lemma CreatedStatus(m: Machine, e: Event, m': Machine, first: nat)
    requires Secure(m, first) && e.TaskCreate? && Leads(m, e, m') && KeepsStatus(m, e, m')
    ensures |m'.k.tasks| == |m.k.tasks| + 1 && SavedStatus(m', |m.k.tasks|)
  {
    hide Secure, Inv, Leads, UserStatus, FrameSpot;
    CreatorShaped(m, e, m', first);
    CreatedContext(m, e, m', first);
    var page, t := Pages.PageStart(m.k.free[0]), |m.k.tasks|;
    FirstContextPlaced(page);
    var at: Word := FirstContext(page);
    StatusOfFrame(at);
    assert m'.k.mem[at / 4..at / 4 + FRAME_WORDS][12] == m'.k.mem[StatusAt(at)];
    assert CreatedFrame(m, e)[12] == 0;
    ClearStatus();
  }

  lemma ClearStatus()
    ensures UserStatus(0)
  {
    ControlByte(0);
  }

  lemma CreatorShaped(m: Machine, e: Event, m': Machine, first: nat)
    requires Secure(m, first) && e.TaskCreate? && Leads(m, e, m')
    ensures CanAllocate(m.k) && m.k.free[0] < Pages.PAGE_NUM && |m.k.tasks| < WORD_RANGE
  {
    hide Step;
    SecureInv(m, first);
    FreePage(m, first);
  }

  /** ... and that a fork copies. */
  lemma ForkedStatus(m: Machine, e: Event, m': Machine, first: nat)
    requires Secure(m, first) && e.Fork? && Leads(m, e, m') && UserStatus(m.regs.cpsr)
    ensures |m'.k.tasks| == |m.k.tasks| + 1 && SavedStatus(m', |m.k.tasks|)
  {
    hide Secure, Inv, Leads, UserStatus, FrameSpot, FramePlace, Frame, SameStack;
    SecureInv(m, first);
    ForkCopies(m, e, m', first);
    StepKeepsSecure(m, e, m', first);
    SecureInv(m', first);
    ForkedLive(m, e, m', first);
    ForkStays(m, e, m', first);
    var t := |m.k.tasks|;
    WaitingSpot(m', first, t);
    var at := m'.k.tasks[t].context;
    StatusOfFrame(at);
    assert m'.k.mem[at / 4 + 1..at / 4 + FRAME_WORDS][11] == m'.k.mem[StatusAt(at)];
    assert Frame(m.regs, e.r10)[1..][11] == Frame(m.regs, e.r10)[12];
    FrameStatus(m.regs, e.r10);
  }

  lemma ForkStays(m: Machine, e: Event, m': Machine, first: nat)
    requires Inv(m, first) && e.Fork? && Leads(m, e, m')
    ensures m'.k.cur == m.k.cur < |m.k.tasks|
  {
    hide Leads, Inv;
    OtherStep(m, e, m', first);
    InvIsShaped(m, first);
  }

  /** The status of a waiting task that the step does not write. */
  lemma WaitingStatus(m: Machine, e: Event, m': Machine, first: nat, t: nat)
    requires Secure(m, first) && Leads(m, e, m') && t in Live(m) && t != m.k.cur && SavedStatus(m, t)
    requires StatusApart(m, e, m', m.k.tasks[t].context)
    ensures t < |m'.k.tasks| && SavedStatus(m', t)
  {
    hide Leads, Secure, Inv, UserStatus, FrameSpot, Touches;
    SecureInv(m, first);
    WaitingSpot(m, first, t);
    StatusOfFrame(m.k.tasks[t].context);
    StepKeepsTask(m, e, m', first, t);
    StepWrites(m, e, m', first, StatusAt(m.k.tasks[t].context));
  }

  lemma StepKeepsModes(m: Machine, e: Event, m': Machine, first: nat)
    requires Secure(m, first) && ModesOk(m) && Leads(m, e, m') && KeepsStatus(m, e, m')
    ensures ModesOk(m')
  {
    hide Leads, Secure, Inv, SavedStatus, UserStatus, StatusApart, InBelow;
    SecureInv(m, first);
    forall t | t in Live(m') && t != m'.k.cur ensures SavedStatus(m', t) {
      SavedByStep(m, e, m', first, t);
    }
    RunningStatus(m, e, m', first);
  }

  lemma SavedByStep(m: Machine, e: Event, m': Machine, first: nat, t: nat)
    requires Secure(m, first) && ModesOk(m) && Leads(m, e, m') && KeepsStatus(m, e, m')
    requires t in Live(m') && t != m'.k.cur
    ensures SavedStatus(m', t)
  {
    hide Leads, Secure, Inv, UserStatus, StatusApart, InBelow, SavedStatus;
    SecureInv(m, first);
    TaskCount(m, e, m', first);
    ExitedStep(m, e, m', first);
    if t == m.k.cur {
      if !IsSwitch(e) {
        OtherStep(m, e, m', first);
      }
      SavedNow(m, e, m', first);
    } else if t < |m.k.tasks| {
      WaitingStatus(m, e, m', first, t);
    } else if e.TaskCreate? {
      CreatedStatus(m, e, m', first);
    } else {
      ForkedStatus(m, e, m', first);
    }
  }

  lemma SavedNow(m: Machine, e: Event, m': Machine, first: nat)
    requires IsSwitch(e) && Inv(m, first) && Leads(m, e, m') && UserStatus(m.regs.cpsr)
    requires m'.k.cur != m.k.cur && m'.k.cur < |m'.k.tasks| ==>
               !InBelow(m'.k.tasks[m'.k.cur].context, StatusAt(m.regs.sp - FRAME_BYTES))
    ensures m.k.cur < |m'.k.tasks| && SavedStatus(m', m.k.cur)
  {
    hide Leads, Inv, UserStatus, InBelow;
    SavedOnSwitch(m, e, m', first);
  }

  lemma RunningStatus(m: Machine, e: Event, m': Machine, first: nat)
    requires Secure(m, first) && ModesOk(m) && Leads(m, e, m') && KeepsStatus(m, e, m')
    ensures UserStatus(m'.regs.cpsr)
  {
    hide Leads, Secure, Inv, StatusApart, InBelow, SavedStatus, Live, UserStatus;
    SecureInv(m, first);
    if e.User? {
      UserKeepsStatus(m, e, m');
    } else if Returns(e) {
      ReturnedStatus(m, e, m');
    } else {
      ResumedStatus(m, e, m', first);
      if m'.k.cur == m.k.cur {
        SavedNow(m, e, m', first);
      } else {
        ChosenLive(m, e, m', first);
        WaitingStatus(m, e, m', first, m'.k.cur);
      }
      SavedIs(m', m'.k.cur);
    }
  }

  lemma SavedIs(m: Machine, t: nat)
    requires t < |m.k.tasks| && SavedStatus(m, t)
    ensures StatusAt(m.k.tasks[t].context) < MEM_WORDS && UserStatus(m.k.mem[StatusAt(m.k.tasks[t].context)])
  {
  }

  lemma UserKeepsStatus(m: Machine, e: Event, m': Machine)
    requires e.User? && Leads(m, e, m') && UserStatus(m.regs.cpsr)
    ensures UserStatus(m'.regs.cpsr)
  {
    hide Leads;
    UserCanStore(m, e, m');
    ControlDecides(m'.regs.cpsr, m.regs.cpsr);
  }

  lemma ReturnedStatus(m: Machine, e: Event, m': Machine)
    requires Returns(e) && Leads(m, e, m')
    ensures m'.regs == e.after
  {
    hide Write, TaskTable, FreshStack, ForkedMemory, CurPage;
  }

  /** Like Reaches, every step keeping the saved statuses. */
  ghost predicate ReachesKeeping(m: Machine, evs: seq<Event>, m': Machine)
    decreases |evs|
  {
    if evs == [] then m' == m
    else
      exists x :: ReachesKeeping(m, Front(evs), x) && KeepsStatus(x, evs[|evs| - 1], m') && Leads(x, evs[|evs| - 1], m')
  }

  /** Over any run, forks included, in which no step writes the saved status of another live task, user code stays
      unprivileged and interruptible. */
  lemma {:induction false} RunKeepsModes(m: Machine, evs: seq<Event>, m': Machine, first: nat)
    requires Secure(m, first) && ModesOk(m) && ReachesKeeping(m, evs, m')
    ensures Secure(m', first) && ModesOk(m')
    decreases |evs|
  {
    hide Secure, Leads, KeepsStatus, ModesOk;
    if evs != [] {
      var e := evs[|evs| - 1];
      var x :| ReachesKeeping(m, Front(evs), x) && KeepsStatus(x, e, m') && Leads(x, e, m');
      RunKeepsModes(m, Front(evs), x, first);
      StepKeepsSecure(x, e, m', first);
      StepKeepsModes(x, e, m', first);
    }
  }

  // ------------------------------------------------------------------ the failing inputs

  /** A frame pushed so that its r0 lands on the status slot of the task that is chosen next gives that task the mode that
      r0 names. */
  lemma PushSetsStatus(m: Machine, e: Event, m': Machine, first: nat)
    requires Inv(m, first) && IsSwitch(e) && Leads(m, e, m') && m'.k.cur != m.k.cur && m'.k.cur < |m'.k.tasks|
    requires m.regs.sp - FRAME_BYTES == m'.k.tasks[m'.k.cur].context + 48
    ensures SameFlagsAndControl(m'.regs.cpsr, m.regs.r[0])
    ensures Unprivileged(m'.regs.cpsr) == Unprivileged(m.regs.r[0])
  {
    hide Leads, Inv, FrameSpot, Frame, Write, Unprivileged;
    ResumedStatus(m, e, m', first);
    var at := m'.k.tasks[m'.k.cur].context;
    ChosenSpot(m, e, m', first);
    StatusOfFrame(at);
    BelowWritten(m, e, m', StatusAt(at));
    assert Push(m, e.r10).mem[StatusAt(at)] == Frame(m.regs, e.r10)[0];
    FirstOfFrame(m.regs, e.r10);
    ControlDecides(m'.regs.cpsr, m.regs.r[0]);
  }

  /** Through the table at base, unprivileged code may write the private word at va. */
  ghost predicate UserMayStore(mem: Memory, base: Word, va: int) {
    && 0 <= va < WORD_RANGE && va % 4 == 0 && PagePrivate(va)
    && var t := Walk(mem, base, va);
       t.UserWritable() && t.pa == va
  }

  /** The table of a forked child permits it to write the status slot of its parent's saved context. */
  lemma ForkChildReachesStatus(m: Machine, e: Event, m': Machine, first: nat)
    requires Inv(m, first) && Leads(m, e, m') && e.Fork?
    ensures |m'.k.tasks| == |m.k.tasks| + 1
    ensures UserMayStore(m'.k.mem, m'.k.tasks[|m.k.tasks|].pgtbase, m.regs.sp - 8)
    ensures (m.regs.sp - 8) / 4 == StatusAt(m.regs.sp - FRAME_BYTES)
  {
    hide Leads, Inv, Walk, WindowIs, FramePlace, PagePrivate;
    ForkerPlace(m, e, m', first);
    ForkShares(m, e, m', first);
    var page, at: Word := m.k.tasks[m.k.cur].stkBottom, m.regs.sp - FRAME_BYTES;
    StatusPlace(page, at);
    ChildWindow(m'.k.mem, m'.k.tasks[|m.k.tasks|].pgtbase, Sec(m'.k.tasks[|m.k.tasks|].stkBottom), page, at + 48);
  }

  lemma ForkerPlace(m: Machine, e: Event, m': Machine, first: nat)
    requires Inv(m, first) && Leads(m, e, m') && e.Fork?
    ensures FRAME_BYTES <= m.regs.sp && m.k.cur < |m.k.tasks|
    ensures var page := m.k.tasks[m.k.cur].stkBottom;
            IsPageStart(page) && InUserPages(page) && FramePlace(page, m.regs.sp - FRAME_BYTES)
  {
    hide Leads, Inv, Frame, SameStack, FramePlace;
    ForkCopies(m, e, m', first);
    ForkIs(m, e, m');
    LivePage(m, first, m.k.cur);
  }

  lemma StatusPlace(page: Word, at: Word)
    requires IsPageStart(page) && InUserPages(page) && FramePlace(page, at)
    ensures page <= at + 48 < page + SECTION && (at + 48) % 4 == 0 && PagePrivate(at + 48)
    ensures KUSE_START <= at + 48 < WINDOW_END && Sec(at + 48) == Sec(page)
  {
    DivMod(at + 48, 4, at / 4 + 12, 0);
    DivMod(at + 48, SECTION, page / SECTION, at + 48 - page);
  }

  lemma ChildWindow(mem: Memory, base: Word, own: nat, page: Word, va: Word)
    requires WindowIs(mem, base, {own, Sec(page)}) && KUSE_START <= va < WINDOW_END && Sec(va) == Sec(page)
    ensures var t := Walk(mem, base, va);
            t.UserWritable() && t.pa == va
  {
    hide Walk;
    assert Sec(va) in {own, Sec(page)};
  }

  /** A task that runs privileged may store to any private word of any page, whatever its table was built for. */
  lemma PrivilegedStore(m: Machine, first: nat, va: Word, value: Word) returns (m': Machine)
    requires Secure(m, first) && !Unprivileged(m.regs.cpsr)
    requires va % 4 == 0 && PagePrivate(va)
    ensures Leads(m, User(m.regs, Store(va, value)), m') && m'.k.mem == m.k.mem[va / 4 := value]
  {
    SecureInv(m, first);
    CurrentTable(m, first);
    hide Secure, Decode, Private;
    var t := Walk(m.k.mem, m.k.ttbr, va);
    assert t.PrivilegedWritable() && t.pa == va;
    m' := m.(k := AfterStore(m.k, Store(va, value)));
  }

  /** So the two together break isolation: a task pushes a privileged mode on the status slot of the next one, which then
      overwrites any private word of a third task's page. */
  lemma EscapeReachesPage(m: Machine, e: Event, m1: Machine, first: nat, t: nat, va: Word, value: Word)
    returns (m2: Machine)
    requires Secure(m, first) && IsSwitch(e) && Leads(m, e, m1) && m1.k.cur != m.k.cur && m1.k.cur < |m1.k.tasks|
    requires m.regs.sp - FRAME_BYTES == m1.k.tasks[m1.k.cur].context + 48 && !Unprivileged(m.regs.r[0])
    requires t in Live(m1) && va % 4 == 0 && PagePrivate(va) && Private(m1.k.tasks[t].stkBottom, va)
    requires value != m1.k.mem[va / 4]
    ensures Leads(m1, User(m1.regs, Store(va, value)), m2)
    ensures !SamePrivate(m1.k.mem, m2.k.mem, m1.k.tasks[t].stkBottom)
  {
    hide Inv, Leads, PagePrivate, Private, Unprivileged;
    SecureInv(m, first);
    PushSetsStatus(m, e, m1, first);
    StepKeepsSecure(m, e, m1, first);
    m2 := PrivilegedStore(m1, first, va, value);
    DivMod(va, 4, va / 4, 0);
    assert m2.k.mem[va / 4] == value;
  }
}
