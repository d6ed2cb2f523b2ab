/** Preempted tasks come back: from any secure state, a round of ticks and yields exists, brings every task of the first
    list to the processor once, and ends with the task it began with, which continues where it was. */
module Resumption {
  import opened Words
  import opened Seqs
  import opened Sched
  import opened Mmu
  import opened PageTables
  import opened Context
  import opened KernelState
  import opened Steps
  import opened Invariants
  import opened Scheduling
  import opened Isolation
  import opened Modes
  import Ownership
  import Pages
  import Blocks

  /** A task that has just been switched to has room for its next context: that of the one it came from. */
  lemma SwitchLeavesRoom(m: Machine, e: Event, m': Machine, first: nat)
    requires IsSwitch(e) && Inv(m, first) && Leads(m, e, m')
    ensures Shaped(m'.k) && CanPush(m'.regs.sp) && m'.regs.sp == m'.k.tasks[m'.k.cur].context + FRAME_BYTES
  {
    hide Inv, FrameSpot, Resume, Leads;
    StepKeepsInv(m, e, m', first);
    InvIsShaped(m', first);
    SwitchRestores(m, e, m', first);
    ChosenSpot(m, e, m', first);
    var sp := m'.k.tasks[m'.k.cur].context;
    ResumedSp(m'.k.mem[sp / 4..sp / 4 + FRAME_WORDS], sp, e.cpsr);
  }

  lemma ResumedSp(f: seq<Word>, sp: Word, cpsr: Word)
    requires |f| == FRAME_WORDS && FrameSpot(sp)
    ensures Resume(f, sp, cpsr).sp == sp + FRAME_BYTES
  {
    SpotInRange(sp);
  }

  /** The saved contexts of the tasks of l are in their own pages, with statuses of unprivileged, interruptible code, and
      the running task has such a status and has not used its stack since it was resumed. */
  ghost predicate AtHome(m: Machine, l: seq<nat>) {
    && m.k.cur < |m.k.tasks| && m.regs.sp == m.k.tasks[m.k.cur].context + FRAME_BYTES && UserStatus(m.regs.cpsr)
    && m.k.cur in l && forall i :: 0 <= i < |l| ==> HasHome(m, l[i])
  }

  predicate HasHome(m: Machine, t: nat) {
    && t < |m.k.tasks| && FramePlace(m.k.tasks[t].stkBottom, m.k.tasks[t].context) && SavedStatus(m, t)
  }

  /** A switch between two tasks at home leaves every task at home there ... */
  lemma HomeKept(m: Machine, e: Event, m': Machine, first: nat, t: nat)
    requires Secure(m, first) && IsSwitch(e) && Leads(m, e, m') && t in Live(m) && m.k.cur < |m.k.tasks|
    requires FRAME_BYTES <= m.regs.sp && FramePlace(m.k.tasks[m.k.cur].stkBottom, m.regs.sp - FRAME_BYTES)
    requires t != m.k.cur && HasHome(m, t)
    requires m'.k.cur < |m'.k.tasks| && FramePlace(m'.k.tasks[m'.k.cur].stkBottom, m'.k.tasks[m'.k.cur].context)
    ensures Spares(m, e, m', t) && HasHome(m', t)
  {
    hide Secure, Inv, Leads, FramePlace, UserStatus, Live, Spares, Touches, FrameSpot, InBelow;
    SecureInv(m, first);
    HomePushSpares(m, e, m', first, t);
    StepKeepsTask(m, e, m', first, t);
    LivePage(m, first, t);
    var page, at := m.k.tasks[t].stkBottom, m.k.tasks[t].context;
    PlaceInPage(page, at);
    OwnSpot(page, at);
    StatusOfFrame(at);
    StatusInPage(page, at);
    PageNotTouched(m, e, m', first, t, StatusAt(at));
    WaitingStatus(m, e, m', first, t);
  }

  /** ... and puts the one that ran there. */
  lemma HomeMade(m: Machine, e: Event, m': Machine, first: nat)
    requires Secure(m, first) && IsSwitch(e) && Leads(m, e, m') && m.k.cur in Live(m) && UserStatus(m.regs.cpsr)
    requires FRAME_BYTES <= m.regs.sp && FramePlace(m.k.tasks[m.k.cur].stkBottom, m.regs.sp - FRAME_BYTES)
    requires m'.k.cur < |m'.k.tasks| && FramePlace(m'.k.tasks[m'.k.cur].stkBottom, m'.k.tasks[m'.k.cur].context)
    ensures HasHome(m', m.k.cur) && ReloadApart(m', m.regs.sp - FRAME_BYTES, m.regs.sp)
  {
    hide Secure, Inv, Leads, FramePlace, UserStatus, Live, SavedStatus, InBelow;
    SecureInv(m, first);
    LivePage(m, first, m.k.cur);
    StepKeepsTask(m, e, m', first, m.k.cur);
    if m'.k.cur != m.k.cur {
      ChosenElsewhere(m, e, m', first, m.k.cur);
      var page, at := m.k.tasks[m.k.cur].stkBottom, m.regs.sp - FRAME_BYTES;
      PlaceInPage(page, at);
      PlaceInPage(m'.k.tasks[m'.k.cur].stkBottom, m'.k.tasks[m'.k.cur].context);
      StatusNotBelow(page, at, m'.k.tasks[m'.k.cur].stkBottom, m'.k.tasks[m'.k.cur].context);
    }
    SavedNow(m, e, m', first);
  }

  /** The task that is chosen from home runs from there. */
  lemma HomeResumed(m: Machine, e: Event, m': Machine, first: nat)
    requires Secure(m, first) && IsSwitch(e) && Leads(m, e, m') && m.k.cur in Live(m) && UserStatus(m.regs.cpsr)
    requires FRAME_BYTES <= m.regs.sp && FramePlace(m.k.tasks[m.k.cur].stkBottom, m.regs.sp - FRAME_BYTES)
    requires m'.k.cur != m.k.cur ==> HasHome(m, m'.k.cur)
    ensures m'.k.cur < |m'.k.tasks| && HasHome(m', m'.k.cur) && UserStatus(m'.regs.cpsr)
  {
    hide Secure, Inv, Leads, FramePlace, UserStatus, SavedStatus;
    SecureInv(m, first);
    ChosenLive(m, e, m', first);
    StepKeepsTask(m, e, m', first, m'.k.cur);
    if m'.k.cur == m.k.cur {
      HomeMade(m, e, m', first);
    } else {
      HomeKept(m, e, m', first, m'.k.cur);
    }
    ResumedStatus(m, e, m', first);
    SavedIs(m', m'.k.cur);
  }

  lemma StaysHome(m: Machine, e: Event, m': Machine, first: nat, l: seq<nat>)
    requires IsSwitch(e) && Secure(m, first) && Leads(m, e, m') && m'.k.cur in l && m.k.cur in Live(m)
    requires UserStatus(m.regs.cpsr) && FRAME_BYTES <= m.regs.sp
    requires FramePlace(m.k.tasks[m.k.cur].stkBottom, m.regs.sp - FRAME_BYTES)
    requires forall i :: 0 <= i < |l| ==> l[i] in Live(m) && (l[i] == m.k.cur || HasHome(m, l[i]))
    ensures AtHome(m', l) && ReloadApart(m', m.regs.sp - FRAME_BYTES, m.regs.sp)
    ensures forall i :: 0 <= i < |l| && l[i] != m.k.cur ==> Spares(m, e, m', l[i])
  {
    hide Secure, Inv, Leads, HasHome, FramePlace, UserStatus, Live, Spares, ReloadApart;
    SecureInv(m, first);
    SwitchLeavesRoom(m, e, m', first);
    HomeResumed(m, e, m', first);
    HomePlace(m', m'.k.cur);
    HomeMade(m, e, m', first);
    forall i | 0 <= i < |l| && l[i] != m.k.cur ensures HasHome(m', l[i]) && Spares(m, e, m', l[i]) {
      HomeKept(m, e, m', first, l[i]);
    }
  }

  lemma HomePlace(m: Machine, t: nat)
    requires HasHome(m, t)
    ensures t < |m.k.tasks| && FramePlace(m.k.tasks[t].stkBottom, m.k.tasks[t].context)
  {
  }

  predicate AllSwitches(evs: seq<Event>) {
    forall i :: 0 <= i < |evs| ==> IsSwitch(evs[i])
  }

  /** After the first switch of a round, the following ones can all be taken, and spare the last task of the list until
      its turn. */
  lemma {:induction false} Turns(m: Machine, evs: seq<Event>, first: nat, p: nat, l: seq<nat>) returns (m': Machine)
    requires Secure(m, first) && Shaped(m.k) && CanPush(m.regs.sp) && AtHome(m, l)
    requires p < MAXNUM_PRIORITY && NoDup(l) && |evs| < |l| && AllSwitches(evs) && Turned(m, p, l, 1)
    ensures ReachesAway(m, evs, m', l[|l| - 1])
    ensures Secure(m', first) && Shaped(m'.k) && CanPush(m'.regs.sp) && AtHome(m', l) && Turned(m', p, l, |evs| + 1)
    decreases |evs|
  {
    hide Secure, Inv, Leads, CanPush, Turned, NoDup, AtHome, Spares;
    m' := m;
    if evs != [] {
      var n := |evs| - 1;
      var x := Turns(m, evs[..n], first, p, l);
      m' := Turn(x, evs[n], first, p, l, n);
      OneMoreAway(m, evs, x, m', l[|l| - 1]);
    }
  }

  lemma Turn(m: Machine, e: Event, first: nat, p: nat, l: seq<nat>, n: nat) returns (m': Machine)
    requires Secure(m, first) && Shaped(m.k) && CanPush(m.regs.sp) && AtHome(m, l) && IsSwitch(e)
    requires p < MAXNUM_PRIORITY && NoDup(l) && n < |l| - 1 && Turned(m, p, l, n + 1)
    ensures Leads(m, e, m') && Spares(m, e, m', l[|l| - 1])
    ensures Secure(m', first) && Shaped(m'.k) && CanPush(m'.regs.sp) && AtHome(m', l) && Turned(m', p, l, n + 2)
  {
    hide Secure, Inv, Leads, NoDup, HasHome, FramePlace, FrameSpot, Spares, UserStatus, Live, ReloadApart;
    SecureInv(m, first);
    AtHomeRuns(m, l);
    m' := SwitchOnce(m, e, first);
    TurnedStep(m, e, m', first, p, l, n + 1);
    TurnIsOf(m, p, l, n);
    forall i | 0 <= i < |l| ensures l[i] in Live(m) {
      TurnedLive(m, first, p, l, n + 1, i);
    }
    StepKeepsSecure(m, e, m', first);
    SwitchLeavesRoom(m, e, m', first);
    StaysHome(m, e, m', first, l);
  }

  lemma AtHomeRuns(m: Machine, l: seq<nat>)
    requires AtHome(m, l)
    ensures m.k.cur < |m.k.tasks| && FRAME_BYTES <= m.regs.sp && UserStatus(m.regs.cpsr) && !Masked(m.regs.cpsr)
    ensures FramePlace(m.k.tasks[m.k.cur].stkBottom, m.regs.sp - FRAME_BYTES)
  {
    hide FramePlace;
    var i :| 0 <= i < |l| && l[i] == m.k.cur;
    HomePlace(m, l[i]);
  }

  lemma TurnedLive(m: Machine, first: nat, p: nat, l: seq<nat>, d: nat, i: nat)
    requires Inv(m, first) && p < MAXNUM_PRIORITY && d <= |l| && Turned(m, p, l, d) && i < |l|
    ensures l[i] in Live(m)
  {
    hide PagesOk, BlocksOk, ContextsOk, StatusOk;
    assert ListOk(m, p);
    var r := m.k.ready[p];
    assert r[if i < d then |l| - d + i else i - d] == l[i];
  }

  lemma TurnIsOf(m: Machine, p: nat, l: seq<nat>, n: nat)
    requires p < MAXNUM_PRIORITY && NoDup(l) && n < |l| - 1 && Turned(m, p, l, n + 1)
    ensures m.k.cur == l[n] != l[|l| - 1]
  {
  }

  lemma OneMoreAway(m: Machine, evs: seq<Event>, x: Machine, m': Machine, t: nat)
    requires evs != [] && ReachesAway(m, evs[..|evs| - 1], x, t)
    requires Spares(x, evs[|evs| - 1], m', t) && Leads(x, evs[|evs| - 1], m')
    ensures ReachesAway(m, evs, m', t)
  {
    hide Leads, Spares;
    assert ReachesAway(m, Front(evs), x, t);
  }

  lemma SwitchOnce(m: Machine, e: Event, first: nat) returns (m': Machine)
    requires IsSwitch(e) && Inv(m, first) && Shaped(m.k) && CanPush(m.regs.sp) && !Masked(m.regs.cpsr)
    ensures Leads(m, e, m')
  {
    hide Inv, CanPush;
    m' := Progress(m, e, first);
  }

  /** One round: for any choice of ticks and yields, as many as the first non-empty list has tasks, the run exists, ends
      with the task that was running, and that task continues where it was interrupted, on the same list. */
  lemma RoundResumes(m: Machine, e: Event, evs: seq<Event>, first: nat, p: nat) returns (m1: Machine, m2: Machine)
    requires Secure(m, first) && Shaped(m.k) && CanPush(m.regs.sp) && m.k.cur in Live(m) && UserStatus(m.regs.cpsr)
    requires FramePlace(m.k.tasks[m.k.cur].stkBottom, m.regs.sp - FRAME_BYTES)
    requires p < MAXNUM_PRIORITY && EmptyAbove(m, p) && IsTail(m.k.ready[p], m.k.cur)
    requires forall i :: 0 <= i < |m.k.ready[p]| - 1 ==> HasHome(m, m.k.ready[p][i])
    requires IsSwitch(e) && AllSwitches(evs) && |evs| + 1 == |m.k.ready[p]|
    ensures Leads(m, e, m1) && ReachesAway(m1, evs, m2, m.k.cur)
    ensures m2.k.cur == m.k.cur && m2.k.ready[p] == m.k.ready[p] && Continues(m.regs, m2.regs)
    ensures Secure(m2, first) && Shaped(m2.k) && CanPush(m2.regs.sp) && AtHome(m2, m2.k.ready[p])
  {
    hide Secure, Inv, Leads, CanPush, NoDup, Continues, Live, ReachesAway, Turned, EmptyAbove, AllSwitches, AtHome,
         HasHome, FramePlace, ReloadApart, UserStatus;
    var l := m.k.ready[p];
    m1 := FirstTurn(m, e, first, p);
    m2 := Turns(m1, evs, first, p, l);
    RoundEnds(m2, p, l);
    if evs != [] {
      assert IsSwitch(evs[|evs| - 1]) by { LastIsSwitch(evs); }
    }
    PreemptionIsTransparent(m, e, m1, evs, m2, first, m.k.cur);
  }

  lemma FirstTurn(m: Machine, e: Event, first: nat, p: nat) returns (m1: Machine)
    requires Secure(m, first) && Shaped(m.k) && CanPush(m.regs.sp) && IsSwitch(e) && UserStatus(m.regs.cpsr)
    requires FramePlace(m.k.tasks[m.k.cur].stkBottom, m.regs.sp - FRAME_BYTES)
    requires p < MAXNUM_PRIORITY && EmptyAbove(m, p) && IsTail(m.k.ready[p], m.k.cur)
    requires forall i :: 0 <= i < |m.k.ready[p]| - 1 ==> HasHome(m, m.k.ready[p][i])
    ensures Leads(m, e, m1) && Secure(m1, first) && Shaped(m1.k) && CanPush(m1.regs.sp) && AtHome(m1, m.k.ready[p])
    ensures NoDup(m.k.ready[p]) && Turned(m1, p, m.k.ready[p], 1)
    ensures ReloadApart(m1, m.regs.sp - FRAME_BYTES, m.regs.sp)
  {
    hide Secure, Inv, Leads, NoDup, FramePlace, FrameSpot, HasHome, Live, ReloadApart;
    var l := m.k.ready[p];
    SecureInv(m, first);
    ListDistinct(m, first, p);
    m1 := SwitchOnce(m, e, first);
    assert l[0..] + l[..0] == l;
    TurnedStep(m, e, m1, first, p, l, 0);
    StepKeepsSecure(m, e, m1, first);
    SwitchLeavesRoom(m, e, m1, first);
    forall i | 0 <= i < |l| ensures l[i] in Live(m) {
      TurnedLive(m, first, p, l, 0, i);
    }
    StaysHome(m, e, m1, first, l);
  }

  lemma RoundEnds(m: Machine, p: nat, l: seq<nat>)
    requires p < MAXNUM_PRIORITY && l != [] && Turned(m, p, l, |l|)
    ensures m.k.ready[p] == l && m.k.cur == l[|l| - 1]
  {
    assert l[|l|..] + l[..|l|] == l;
  }

  lemma LastIsSwitch(evs: seq<Event>)
    requires AllSwitches(evs) && evs != []
    ensures IsSwitch(evs[|evs| - 1])
  {
  }

  lemma ListDistinct(m: Machine, first: nat, p: nat)
    requires Inv(m, first) && p < MAXNUM_PRIORITY
    ensures NoDup(m.k.ready[p])
  {
    assert ListOk(m, p);
  }

  /** The booted shell continues after any tick or yield, for every stack pointer that leaves it room in its page: the
      one that first_run sets, past its first context, does. */
  lemma ShellResumes(mem: Memory, first: nat, shell: Word, regs: Regs, below: Below, e: Event) returns (m': Machine)
    requires first + 2 < Blocks.KBLK_NUM && IsSwitch(e) && UserStatus(regs.cpsr)
    requires FRAME_BYTES <= regs.sp && FramePlace(Pages.PageStart(1), regs.sp - FRAME_BYTES)
    ensures Leads(Ownership.BootMachine(mem, first, shell, regs, below), e, m')
    ensures m'.k.cur == SHELL && Continues(regs, m'.regs)
    ensures FramePlace(Pages.PageStart(1), FirstContext(Pages.PageStart(1)))
  {
    hide Secure, Inv, Leads, Continues, Boot, ReachesAway, FramePlace, UserStatus;
    var m := Ownership.BootMachine(mem, first, shell, regs, below);
    Ownership.BootKeepsInv(mem, first, shell, regs, below);
    BootIsSecure(mem, first, shell, regs, below);
    InvIsShaped(m, first);
    Ownership.BootRecord(mem, first, shell);
    TaskPage(1);
    FirstContextPlaced(Pages.PageStart(1));
    assert CanPush(regs.sp) by { InPageSpot(Pages.PageStart(1), regs.sp - FRAME_BYTES); }
    assert SHELL in Live(m);
    var m1, m2 := RoundResumes(m, e, [], first, LOWEST_PRIORITY);
    NoStepsAway(m1, m2, SHELL);
    m' := m1;
  }

  lemma InPageSpot(page: Word, at: Word)
    requires IsPageStart(page) && InUserPages(page) && FramePlace(page, at)
    ensures FrameSpot(at)
  {
    PlaceInPage(page, at);
    OwnSpot(page, at);
  }
}
