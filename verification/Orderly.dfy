/** Runs in which tasks use their own pages only: every task enters the kernel with its stack pointer in its own page and
    asks for answers in its own page.  What user code stores is up to it.  Without forks such a run keeps tasks
    unprivileged and apart from each other, and no task notices that it was preempted. */
module Orderly {
  import opened Words
  import opened Layout
  import opened Seqs
  import opened Mmu
  import opened PageTables
  import opened Context
  import opened KernelState
  import opened Steps
  import opened Invariants
  import opened Scheduling
  import opened Isolation
  import opened FirstRuns
  import opened Modes
  import Ownership
  import Pages
  import Blocks

  /** The context of task t is in its own page. */
  predicate AtHome(m: Machine, t: nat)
    requires t < |m.k.tasks|
  {
    FramePlace(m.k.tasks[t].stkBottom, m.k.tasks[t].context)
  }

  ghost predicate AllAtHome(m: Machine) {
    forall t :: t in Live(m) && t != m.k.cur ==> AtHome(m, t)
  }

  /** Tables were built for one page each, contexts are at home, and statuses are those of unprivileged code. */
  ghost predicate Settled(m: Machine) {
    OwnGrants(m) && AllAtHome(m) && ModesOk(m)
  }

  /** Where the running task enters the kernel, its frame and its buffer are in its own page; no forks; and the return
      path of a system call restores an unprivileged and interruptible status. */
  predicate Proper(m: Machine, e: Event) {
    && !e.Fork? && m.k.cur < |m.k.tasks|
    && var page := m.k.tasks[m.k.cur].stkBottom;
       && (!e.User? ==> FRAME_BYTES <= m.regs.sp && FramePlace(page, m.regs.sp - FRAME_BYTES))
       && (e.Service? ==> page <= e.buf && e.buf + 4 * |e.words| <= page + SECTION)
       && (Returns(e) ==> UserStatus(e.after.cpsr))
  }

  /** What a switch resumes is in the page of the chosen task. */
  lemma ChosenAtHome(m: Machine, e: Event, m': Machine, first: nat)
    requires Secure(m, first) && AllAtHome(m) && IsSwitch(e) && Leads(m, e, m') && Proper(m, e)
    ensures m'.k.cur < |m'.k.tasks| == |m.k.tasks| && m'.k.cur in Live(m)
    ensures m'.k.tasks[m'.k.cur].stkBottom == m.k.tasks[m'.k.cur].stkBottom
    ensures AtHome(m', m'.k.cur)
  {
    hide Secure, Leads, Inv, Live, FramePlace;
    SecureInv(m, first);
    ChosenLive(m, e, m', first);
    LiveIs(m, m'.k.cur);
    StepKeepsTask(m, e, m', first, m'.k.cur);
    TaskCount(m, e, m', first);
  }

  lemma LiveIs(m: Machine, t: nat)
    requires t in Live(m)
    ensures t < |m.k.tasks| && t !in m.exited
  {
  }

  /** A proper step of another task spares t. */
  lemma ProperSpares(m: Machine, e: Event, m': Machine, first: nat, t: nat)
    requires Secure(m, first) && Settled(m) && Leads(m, e, m') && Proper(m, e) && t in Live(m) && t != m.k.cur
    ensures Spares(m, e, m', t)
  {
    hide Secure, Leads, Inv, OwnGrants, FramePlace, SavedStatus;
    SecureInv(m, first);
    if e.User? {
      OwnGrantsSpare(m, e, m', first, t);
    } else {
      if IsSwitch(e) {
        ChosenAtHome(m, e, m', first);
      }
      HomePushSpares(m, e, m', first, t);
    }
  }

  /** It leaves every saved status alone ... */
  lemma ProperKeepsStatus(m: Machine, e: Event, m': Machine, first: nat)
    requires Secure(m, first) && Settled(m) && Leads(m, e, m') && Proper(m, e)
    ensures KeepsStatus(m, e, m')
  {
    hide Secure, Leads, Inv, OwnGrants, ModesOk, Touches, FramePlace, InBelow, UserStatus;
    SecureInv(m, first);
    forall t | t in Live(m) && t != m.k.cur ensures StatusApart(m, e, m', m.k.tasks[t].context) {
      StatusSpared(m, e, m', first, t);
    }
    if IsSwitch(e) && m'.k.cur != m.k.cur {
      ChosenAtHome(m, e, m', first);
      RunsElsewhere(m, first, m'.k.cur);
      PagesDisjoint(m.k.tasks[m.k.cur].stkBottom, m.k.tasks[m'.k.cur].stkBottom);
      StatusNotBelow(m.k.tasks[m.k.cur].stkBottom, m.regs.sp - FRAME_BYTES, m'.k.tasks[m'.k.cur].stkBottom,
                     m'.k.tasks[m'.k.cur].context);
    }
    if e.TaskCreate? {
      CreatorApart(m, e, m', first);
    }
  }

  lemma StatusSpared(m: Machine, e: Event, m': Machine, first: nat, t: nat)
    requires Secure(m, first) && Settled(m) && Leads(m, e, m') && Proper(m, e) && t in Live(m) && t != m.k.cur
    ensures StatusApart(m, e, m', m.k.tasks[t].context)
  {
    hide Secure, Leads, Inv, OwnGrants, ModesOk, Touches, FramePlace, InBelow, Spares, Proper, FrameSpot;
    SecureInv(m, first);
    ProperSpares(m, e, m', first, t);
    LivePage(m, first, t);
    var page, at := m.k.tasks[t].stkBottom, m.k.tasks[t].context;
    assert AtHome(m, t);
    WaitingSpot(m, first, t);
    StatusOfFrame(at);
    StatusInPage(page, at);
    PageNotTouched(m, e, m', first, t, StatusAt(at));
  }

  /** The creator's frame is not in the page that is taken. */
  lemma CreatorApart(m: Machine, e: Event, m': Machine, first: nat)
    requires Secure(m, first) && e.TaskCreate? && Leads(m, e, m') && Proper(m, e)
    ensures m.k.free != [] && m.k.free[0] < Pages.PAGE_NUM
    ensures var at := FirstContext(Pages.PageStart(m.k.free[0]));
            !InContext(at, (m.regs.sp - FRAME_BYTES) / 4) && (m.regs.sp - FRAME_BYTES) / 4 != StatusAt(at)
  {
    hide Secure, Inv, Step, FramePlace;
    SecureInv(m, first);
    CreatorShaped(m, e, m', first);
    FreePage(m, first);
    CreatorPage(m, e, m', first);
    var own, page := m.k.tasks[m.k.cur].stkBottom, Pages.PageStart(m.k.free[0]);
    PagesDisjoint(own, page);
    PlaceInPage(own, m.regs.sp - FRAME_BYTES);
    FirstPlace(page);
    PlaceInPage(page, FirstContext(page));
    MultipleOfFour(page);
    DivMod(FirstContext(page), 4, page / 4 + 1008, 0);
    DivMod(FirstContext(page) + 48, 4, page / 4 + 1020, 0);
  }

  lemma CreatorPage(m: Machine, e: Event, m': Machine, first: nat)
    requires Inv(m, first) && e.TaskCreate? && Leads(m, e, m') && m.k.free != [] && m.k.free[0] < Pages.PAGE_NUM
    requires m.k.cur < |m.k.tasks|
    ensures IsPageStart(m.k.tasks[m.k.cur].stkBottom) && m.k.tasks[m.k.cur].stkBottom != Pages.PageStart(m.k.free[0])
  {
    hide QueuesOk, StatusOk, BlocksOk, ContextsOk, Step;
    assert m.k.cur in Live(m);
    LivePage(m, first, m.k.cur);
    PartitionHead(0, Pages.PAGE_NUM, m.k.free, m.k.inuse);
  }

  /** ... and every context at home. */
  lemma ProperKeepsHomes(m: Machine, e: Event, m': Machine, first: nat)
    requires Secure(m, first) && AllAtHome(m) && Leads(m, e, m') && Proper(m, e)
    ensures AllAtHome(m')
  {
    hide Secure, Leads, Inv, FramePlace;
    SecureInv(m, first);
    TaskCount(m, e, m', first);
    ExitedStep(m, e, m', first);
    forall t | t in Live(m') && t != m'.k.cur ensures AtHome(m', t) {
      if t == m.k.cur {
        if !IsSwitch(e) {
          OtherStep(m, e, m', first);
        }
        StepKeepsTask(m, e, m', first, t);
      } else if t < |m.k.tasks| {
        StepKeepsTask(m, e, m', first, t);
        assert t in Live(m);
      } else {
        CreatedAtHome(m, e, m', first);
      }
    }
  }

  lemma CreatedAtHome(m: Machine, e: Event, m': Machine, first: nat)
    requires Secure(m, first) && e.TaskCreate? && Leads(m, e, m')
    ensures |m'.k.tasks| == |m.k.tasks| + 1 && AtHome(m', |m.k.tasks|)
  {
    hide Secure, Leads, FramePlace, CreatedFrame;
    CreatorShaped(m, e, m', first);
    CreatedContext(m, e, m', first);
    FirstContextPlaced(Pages.PageStart(m.k.free[0]));
  }

  lemma StepKeepsSettled(m: Machine, e: Event, m': Machine, first: nat)
    requires Secure(m, first) && Settled(m) && Leads(m, e, m') && Proper(m, e)
    ensures Secure(m', first) && Settled(m')
  {
    hide Secure, Leads, OwnGrants, AllAtHome, ModesOk, KeepsStatus;
    ProperKeepsStatus(m, e, m', first);
    StepKeepsSecure(m, e, m', first);
    StepKeepsOwnGrants(m, e, m', first);
    ProperKeepsHomes(m, e, m', first);
    StepKeepsModes(m, e, m', first);
  }

  // ------------------------------------------------------------------ runs

  /** Like Reaches, with proper steps only, none of them taken by a task of idle. */
  ghost predicate ReachesProperly(m: Machine, evs: seq<Event>, m': Machine, idle: set<nat>)
    decreases |evs|
  {
    if evs == [] then m' == m
    else
      exists x :: ReachesProperly(m, Front(evs), x, idle) && ProperStep(x, evs[|evs| - 1], m', idle)
  }

  ghost predicate ProperStep(m: Machine, e: Event, m': Machine, idle: set<nat>) {
    Proper(m, e) && Leads(m, e, m') && m.k.cur !in idle
  }

  /** Over every such run, whatever user code stores, it stays unprivileged and no context leaves its page. */
  lemma {:induction false} RunKeepsSettled(m: Machine, evs: seq<Event>, m': Machine, idle: set<nat>, first: nat)
    requires Secure(m, first) && Settled(m) && ReachesProperly(m, evs, m', idle)
    ensures Secure(m', first) && Settled(m')
    decreases |evs|
  {
    hide Secure, Leads, Settled, Proper;
    if evs != [] {
      var x :| ReachesProperly(m, Front(evs), x, idle) && ProperStep(x, evs[|evs| - 1], m', idle);
      RunKeepsSettled(m, Front(evs), x, idle, first);
      StepKeepsSettled(x, evs[|evs| - 1], m', first);
    }
  }

  lemma BootIsSettled(mem: Memory, first: nat, shell: Word, regs: Regs, below: Below)
    requires first + 2 < Blocks.KBLK_NUM && UserStatus(regs.cpsr)
    ensures var m := Ownership.BootMachine(mem, first, shell, regs, below);
            Secure(m, first) && Settled(m)
  {
    hide Secure, Inv, Boot, UserStatus;
    BootIsSecure(mem, first, shell, regs, below);
    Ownership.BootKeepsInv(mem, first, shell, regs, below);
    Ownership.BootRecord(mem, first, shell);
  }

  /** Isolation of a live task t that is idle: nothing is asked of what the others store. */
  lemma {:induction false} ProperIsolation(m: Machine, evs: seq<Event>, m': Machine, idle: set<nat>, first: nat, t: nat)
    requires Secure(m, first) && Settled(m) && ReachesProperly(m, evs, m', idle) && t in Live(m) && t in idle
    ensures ReachesAway(m, evs, m', t) && Secure(m', first) && Settled(m') && t in Live(m')
    ensures m'.k.tasks[t].stkBottom == m.k.tasks[t].stkBottom && m'.k.tasks[t].context == m.k.tasks[t].context
    ensures SameButBelow(m.k.mem, m'.k.mem, m.k.tasks[t].stkBottom, m.k.tasks[t].context)
    ensures m'.k.cur != t ==> SamePrivate(m.k.mem, m'.k.mem, m.k.tasks[t].stkBottom)
    decreases |evs|
  {
    hide Secure, Leads, Settled, Proper, Spares, SameButBelow, SamePrivate, Live;
    if evs != [] {
      var e := evs[|evs| - 1];
      var x :| ReachesProperly(m, Front(evs), x, idle) && ProperStep(x, e, m', idle);
      ProperIsolation(m, Front(evs), x, idle, first, t);
      ProperSpares(x, e, m', first, t);
      StepKeepsSettled(x, e, m', first);
      assert ReachesAway(m, evs, m', t);
    }
    Isolation.Isolation(m, evs, m', first, t);
  }

  /** No task notices a preemption: interrupted by a proper tick or yield and chosen again after a proper run of other
      tasks, it continues where it was, with its own registers, whatever the others stored. */
  lemma ProperPreemption(m: Machine, e: Event, m1: Machine, evs: seq<Event>, m2: Machine, first: nat, t: nat)
    requires Secure(m, first) && Settled(m) && IsSwitch(e) && Proper(m, e) && Leads(m, e, m1)
    requires m.k.cur == t && t in Live(m)
    requires ReachesProperly(m1, evs, m2, {t}) && m2.k.cur == t
    requires evs != [] ==> IsSwitch(evs[|evs| - 1])
    ensures Continues(m.regs, m2.regs)
  {
    hide Secure, Leads, Settled, Inv, Continues, Live, FramePlace, ReachesProperly, ReachesAway;
    StepKeepsSettled(m, e, m1, first);
    SavedApart(m, e, m1, first);
    StillLive(m, e, m1, first, t);
    ProperIsolation(m1, evs, m2, {t}, first, t);
    PreemptionIsTransparent(m, e, m1, evs, m2, first, t);
  }

  lemma SavedApart(m: Machine, e: Event, m': Machine, first: nat)
    requires Secure(m, first) && Settled(m) && IsSwitch(e) && Proper(m, e) && Leads(m, e, m')
    ensures ReloadApart(m', m.regs.sp - FRAME_BYTES, m.regs.sp)
  {
    hide Secure, Leads, Inv, OwnGrants, ModesOk, FramePlace, Live;
    ChosenAtHome(m, e, m', first);
    SecureInv(m, first);
    if m'.k.cur == m.k.cur {
      StepKeepsTask(m, e, m', first, m.k.cur);
    } else {
      RunsElsewhere(m, first, m'.k.cur);
      PagesDisjoint(m.k.tasks[m.k.cur].stkBottom, m.k.tasks[m'.k.cur].stkBottom);
      PlaceInPage(m.k.tasks[m.k.cur].stkBottom, m.regs.sp - FRAME_BYTES);
      PlaceInPage(m'.k.tasks[m'.k.cur].stkBottom, m'.k.tasks[m'.k.cur].context);
    }
  }

  lemma StillLive(m: Machine, e: Event, m': Machine, first: nat, t: nat)
    requires Secure(m, first) && IsSwitch(e) && Leads(m, e, m') && t in Live(m)
    ensures t in Live(m')
  {
    hide Leads, Inv, TablesOk, ZombieOk;
    var p := SwitchChooses(m, e, m', first);
  }
}
