/** What the scheduler guarantees over whole runs: how long a task waits, when exit is right, and that a task that
    left is never chosen again. */
module Scheduling {
  import opened Seqs
  import opened Mem
  import opened Sched
  import opened Context
  import opened KernelState
  import opened Steps
  import opened Invariants

  // ------------------------------------------------------------------ effect of one step on the lists

  predicate IsSwitch(e: Event) {
    e.Tick? || e.Yield?
  }

  /** List p loses its head to its tail, that head is current, and lists of higher priority are empty. */
  ghost predicate Chose(m: Machine, p: nat, m': Machine)
    requires p < MAXNUM_PRIORITY
  {
    && m.k.ready[p] != [] && (forall q :: 0 <= q < p ==> m.k.ready[q] == [])
    && m'.k.ready == Rotate(m.k.ready, p) && m'.k.cur == m.k.ready[p][0]
  }

  lemma SwitchChooses(m: Machine, e: Event, m': Machine, first: nat) returns (p: nat)
    requires IsSwitch(e) && Inv(m, first) && Leads(m, e, m')
    ensures p < MAXNUM_PRIORITY && Chose(m, p, m')
    ensures m'.exited == m.exited && |m'.k.tasks| == |m.k.tasks|
    ensures forall t :: 0 <= t < |m.k.tasks| ==> m'.k.tasks[t].priority == m.k.tasks[t].priority
    ensures forall t :: 0 <= t < |m.k.tasks| && t != m'.k.cur ==>
              m'.k.tasks[t].status == if t == m.k.cur then Ready else m.k.tasks[t].status
  {
    hide QueuesOk, StatusOk, PagesOk, BlocksOk, ContextsOk, Leads, SwitchAway, Suspend, FrameSpot, Write, Resume, Frame;
    SwitchIs(m, e, m');
    var pushed := PushKeepsInv(m, e.r10, first);
    SwitchEffect(pushed, m.regs.sp - FRAME_BYTES);
    p :| 0 <= p < MAXNUM_PRIORITY && m.k.ready[p] != [] && (forall q :: 0 <= q < p ==> m.k.ready[q] == [])
         && m'.k.ready == Rotate(m.k.ready, p) && m'.k.cur == m.k.ready[p][0];
  }

  /** The priority at which a step enqueues a new task. */
  function EnqueuedAt(m: Machine, e: Event): nat
    requires m.k.cur < |m.k.tasks|
  {
    match e
    case TaskCreate(_, prio, _, _) => prio
    case Fork(_, _) => m.k.tasks[m.k.cur].priority
    case _ => MAXNUM_PRIORITY
  }

  /** Steps other than switches: the current task stays, a creation appends at its priority, an exit takes the current
      task off the tail. */
  lemma OtherStep(m: Machine, e: Event, m': Machine, first: nat)
    requires !IsSwitch(e) && Inv(m, first) && Leads(m, e, m')
    ensures m'.k.cur == m.k.cur && |m.k.tasks| <= |m'.k.tasks|
    ensures m'.exited == if e.Exit? then m.exited + {m.k.cur} else m.exited
    ensures forall t :: 0 <= t < |m.k.tasks| ==> m'.k.tasks[t].priority == m.k.tasks[t].priority
    ensures forall p :: 0 <= p < MAXNUM_PRIORITY ==>
              m'.k.ready[p] == if p == EnqueuedAt(m, e) then m.k.ready[p] + [|m.k.tasks|]
                               else if e.Exit? && p == m.k.tasks[m.k.cur].priority
                               then m.k.ready[p][..|m.k.ready[p]| - 1]
                               else m.k.ready[p]
    ensures e.Exit? ==> IsTail(m.k.ready[m.k.tasks[m.k.cur].priority], m.k.cur)
    ensures e.Fork? || e.Exit? ==> m.k.cur !in m.exited
  {
    hide Write, FreshStack, ForkedMemory, CurPage, StatusOk, PagesOk, BlocksOk, ContextsOk;
  }

  // ------------------------------------------------------------------ waiting

  function Decisions(evs: seq<Event>): nat {
    if evs == [] then 0 else Decisions(evs[..|evs| - 1]) + (if IsSwitch(evs[|evs| - 1]) then 1 else 0)
  }

  /** No task of a higher priority than p is created.  (A fork enqueues at the priority of its caller.) */
  predicate NothingAbove(evs: seq<Event>, p: nat) {
    forall i :: 0 <= i < |evs| && evs[i].TaskCreate? ==> p <= evs[i].prio
  }

  ghost predicate EmptyAbove(m: Machine, p: nat)
    requires p <= MAXNUM_PRIORITY
  {
    forall q :: 0 <= q < p ==> m.k.ready[q] == []
  }

  /** Task t is at position i of list p and nothing outranks it. */
  ghost predicate WaitsAt(m: Machine, p: nat, i: int, t: nat)
    requires p < MAXNUM_PRIORITY
  {
    EmptyAbove(m, p) && 0 <= i < |m.k.ready[p]| && m.k.ready[p][i] == t
  }

  /** A switch moves a waiting task one place forward, or chooses it when it is the head. */
  lemma WaitThroughSwitch(m: Machine, e: Event, m': Machine, first: nat, p: nat, i: nat, t: nat)
    requires IsSwitch(e) && Inv(m, first) && Leads(m, e, m')
    requires p < MAXNUM_PRIORITY && WaitsAt(m, p, i, t)
    ensures i > 0 ==> WaitsAt(m', p, i - 1, t) && m'.k.cur != t
    ensures i == 0 ==> m'.k.cur == t && WaitsAt(m', p, |m.k.ready[p]| - 1, t)
    ensures m'.k.ready[p] == m.k.ready[p][1..] + [m.k.ready[p][0]]
  {
    hide Leads, PagesOk, BlocksOk, ContextsOk, StatusOk;
    var p' := SwitchChooses(m, e, m', first);
    assert ListOk(m, p);
    assert p' == p;
  }

  /** Steps in between leave it where it is, unless it exits itself. */
  lemma WaitThroughOther(m: Machine, e: Event, m': Machine, first: nat, p: nat, i: nat, t: nat)
    requires !IsSwitch(e) && Inv(m, first) && Leads(m, e, m')
    requires p < MAXNUM_PRIORITY && WaitsAt(m, p, i, t) && t !in m'.exited
    requires e.TaskCreate? ==> p <= e.prio
    ensures WaitsAt(m', p, i, t)
  {
    hide Leads, Inv, NoDup;
    OtherStep(m, e, m', first);
    if e.Fork? || e.Exit? {
      CurrentListed(m, first);
    }
  }

  /** Exits are for good, and tasks keep their ids. */
  lemma ExitedStep(m: Machine, e: Event, m': Machine, first: nat)
    requires Inv(m, first) && Leads(m, e, m')
    ensures m.exited <= m'.exited && |m.k.tasks| <= |m'.k.tasks|
  {
    hide Inv, Leads;
    if IsSwitch(e) {
      var p := SwitchChooses(m, e, m', first);
    } else {
      OtherStep(m, e, m', first);
    }
  }

  lemma {:induction false} ExitedGrows(m: Machine, evs: seq<Event>, m': Machine, first: nat)
    requires Inv(m, first) && Reaches(m, evs, m')
    ensures m.exited <= m'.exited && |m.k.tasks| <= |m'.k.tasks|
    decreases |evs|
  {
    hide Inv, Leads, Reaches;
    if evs == [] {
      NoSteps(m, m');
    } else {
      var x := LastStep(m, evs, m');
      RunKeepsInv(m, evs[..|evs| - 1], x, first);
      ExitedGrows(m, evs[..|evs| - 1], x, first);
      ExitedStep(x, evs[|evs| - 1], m', first);
    }
  }

  /** While nothing above it is created, a task at position i waits at position i - d after d decisions, whatever
      tasks of its own or lower priority are created and whatever tasks exit. */
  lemma {:induction false} Waiting(m: Machine, evs: seq<Event>, m': Machine, first: nat, p: nat, i: nat, t: nat)
    requires Inv(m, first) && Reaches(m, evs, m')
    requires p < MAXNUM_PRIORITY && WaitsAt(m, p, i, t)
    requires NothingAbove(evs, p) && t !in m'.exited && Decisions(evs) <= i
    ensures WaitsAt(m', p, i - Decisions(evs), t)
    decreases |evs|
  {
    hide Inv, Leads, Reaches, WaitsAt;
    if evs == [] {
      NoSteps(m, m');
    } else {
      var n := |evs| - 1;
      var x := LastStep(m, evs, m');
      RunKeepsInv(m, evs[..n], x, first);
      ExitedStep(x, evs[n], m', first);
      Waiting(m, evs[..n], x, first, p, i, t);
      var d := Decisions(evs[..n]);
      if IsSwitch(evs[n]) {
        WaitThroughSwitch(x, evs[n], m', first, p, i - d, t);
      } else {
        WaitThroughOther(x, evs[n], m', first, p, i - d, t);
      }
    }
  }

  /** Bounded waiting: of the decisions that follow, the task at position i is chosen by number i + 1 and by none
      before. */
  lemma ChosenExactly(m: Machine, evs: seq<Event>, m': Machine, first: nat, p: nat, i: nat, t: nat)
    requires Inv(m, first) && Reaches(m, evs, m')
    requires p < MAXNUM_PRIORITY && WaitsAt(m, p, i, t)
    requires NothingAbove(evs, p) && t !in m'.exited
    requires evs != [] && IsSwitch(evs[|evs| - 1]) && Decisions(evs) <= i + 1
    ensures m'.k.cur == t <==> Decisions(evs) == i + 1
  {
    hide Inv, Leads, Reaches, WaitsAt;
    var n := |evs| - 1;
    var x := LastStep(m, evs, m');
    RunKeepsInv(m, evs[..n], x, first);
    ExitedStep(x, evs[n], m', first);
    Waiting(m, evs[..n], x, first, p, i, t);
    WaitThroughSwitch(x, evs[n], m', first, p, i - Decisions(evs[..n]), t);
  }

  /** Nothing but user instructions and decisions. */
  predicate Undisturbed(evs: seq<Event>) {
    forall i :: 0 <= i < |evs| ==> IsSwitch(evs[i]) || evs[i].User?
  }

  /** List p is l turned by d places, nothing outranks it, and the task before the turn is the current one. */
  ghost predicate Turned(m: Machine, p: nat, l: seq<nat>, d: nat)
    requires p < MAXNUM_PRIORITY && d <= |l|
  {
    && m.k.ready[p] == l[d..] + l[..d] && EmptyAbove(m, p)
    && (d > 0 ==> m.k.cur == l[d - 1])
  }

  lemma TurnedStep(m: Machine, e: Event, m': Machine, first: nat, p: nat, l: seq<nat>, d: nat)
    requires Inv(m, first) && Leads(m, e, m') && (IsSwitch(e) || e.User?)
    requires p < MAXNUM_PRIORITY && d <= |l| && Turned(m, p, l, d) && l != []
    requires IsSwitch(e) ==> d < |l|
    ensures Turned(m', p, l, if IsSwitch(e) then d + 1 else d)
  {
    hide Inv, Leads;
    if IsSwitch(e) {
      var r := m.k.ready[p];
      assert r[0] == l[d];
      WaitThroughSwitch(m, e, m', first, p, 0, l[d]);
      assert r[1..] + [r[0]] == l[d + 1..] + l[..d + 1];
    } else {
      OtherStep(m, e, m', first);
    }
  }

  /** Round robin: d decisions over an undisturbed first list turn it by d places and run its d-th task. */
  lemma {:induction false} RoundRobin(m: Machine, evs: seq<Event>, m': Machine, first: nat, p: nat)
    requires Inv(m, first) && Reaches(m, evs, m') && Undisturbed(evs)
    requires p < MAXNUM_PRIORITY && EmptyAbove(m, p) && m.k.ready[p] != []
    requires Decisions(evs) <= |m.k.ready[p]|
    ensures Turned(m', p, m.k.ready[p], Decisions(evs))
    decreases |evs|
  {
    hide Inv, Leads, Reaches;
    var l := m.k.ready[p];
    if evs == [] {
      NoSteps(m, m');
      assert l[0..] + l[..0] == l;
    } else {
      var n := |evs| - 1;
      var x := LastStep(m, evs, m');
      RunKeepsInv(m, evs[..n], x, first);
      RoundRobin(m, evs[..n], x, first, p);
      TurnedStep(x, evs[n], m', first, p, l, Decisions(evs[..n]));
    }
  }

  lemma {:induction false} FewerDecisions(evs: seq<Event>, n: nat)
    requires n <= |evs|
    ensures Decisions(evs[..n]) <= Decisions(evs)
    decreases |evs|
  {
    if n < |evs| {
      FewerDecisions(evs[..|evs| - 1], n);
      assert evs[..|evs| - 1][..n] == evs[..n];
    } else {
      assert evs[..n] == evs;
    }
  }

  /** As many decisions as the list has tasks run each of them once, in list order, and restore the list: in whatever
      state x the first n events lead to, the task chosen by the last of their d decisions is the d-th of the list. */
  lemma FullRound(m: Machine, evs: seq<Event>, m': Machine, first: nat, p: nat)
    requires Inv(m, first) && Reaches(m, evs, m') && Undisturbed(evs)
    requires p < MAXNUM_PRIORITY && EmptyAbove(m, p) && m.k.ready[p] != []
    requires Decisions(evs) == |m.k.ready[p]|
    ensures m'.k.ready[p] == m.k.ready[p]
    ensures m'.k.cur == m.k.ready[p][|m.k.ready[p]| - 1]
    ensures forall n, x {:trigger Reaches(m, evs[..n], x)} :: 0 <= n <= |evs| && Reaches(m, evs[..n], x) ==>
              var d := Decisions(evs[..n]);
              d <= |m.k.ready[p]| && (0 < d ==> x.k.cur == m.k.ready[p][d - 1])
  {
    hide Inv, Leads, Reaches;
    RoundRobin(m, evs, m', first, p);
    var l := m.k.ready[p];
    assert l[|l|..] + l[..|l|] == l;
    forall n, x {:trigger Reaches(m, evs[..n], x)} | 0 <= n <= |evs| && Reaches(m, evs[..n], x)
      ensures Decisions(evs[..n]) <= |l| && (0 < Decisions(evs[..n]) ==> x.k.cur == l[Decisions(evs[..n]) - 1])
    {
      FewerDecisions(evs, n);
      RoundRobin(m, evs[..n], x, first, p);
    }
  }

  // ------------------------------------------------------------------ exit

  /** How many tasks a trace enqueued at priority p since its last decision, with its forks, if p is the priority of the
      task that has run since then. */
  function EnqueuedSinceChosen(evs: seq<Event>, p: nat): nat {
    if evs == [] then 0
    else
      var e := evs[|evs| - 1];
      if IsSwitch(e) then 0
      else EnqueuedSinceChosen(evs[..|evs| - 1], p) + (if e.Fork? || (e.TaskCreate? && e.prio == p) then 1 else 0)
  }

  /** n tasks stand behind the running task on its list. */
  ghost predicate DistanceIs(k: Kernel, n: int) {
    && k.cur < |k.tasks| && k.tasks[k.cur].priority < MAXNUM_PRIORITY
    && var l := k.ready[k.tasks[k.cur].priority];
       0 <= |l| - 1 - n < |l| && l[|l| - 1 - n] == k.cur
  }

  /** The running task is as far from the tail of its list as tasks were enqueued at its priority since it was
      chosen. */
  lemma {:induction false} DistanceFromTail(m: Machine, evs: seq<Event>, m': Machine, first: nat)
    requires Inv(m, first) && Reaches(m, evs, m') && DistanceIs(m.k, 0)
    requires m'.k.cur < |m'.k.tasks| && m'.k.cur !in m'.exited
    ensures DistanceIs(m'.k, EnqueuedSinceChosen(evs, m'.k.tasks[m'.k.cur].priority))
    decreases |evs|
  {
    hide Inv, Leads, Reaches, DistanceIs;
    if evs == [] {
      NoSteps(m, m');
    } else {
      var n := |evs| - 1;
      var x := LastStep(m, evs, m');
      RunKeepsInv(m, evs[..n], x, first);
      if IsSwitch(evs[n]) {
        DistanceAfterSwitch(x, evs[n], m', first);
      } else {
        CurrentStays(x, evs[n], m', first);
        DistanceFromTail(m, evs[..n], x, first);
        DistanceStep(x, evs[n], m', first, EnqueuedSinceChosen(evs[..n], x.k.tasks[x.k.cur].priority));
      }
    }
  }

  lemma DistanceAfterSwitch(m: Machine, e: Event, m': Machine, first: nat)
    requires IsSwitch(e) && Inv(m, first) && Leads(m, e, m')
    ensures DistanceIs(m'.k, 0)
  {
    var p := SwitchChooses(m, e, m', first);
    hide Leads;
    assert ListOk(m, p);
  }

  lemma CurrentStays(m: Machine, e: Event, m': Machine, first: nat)
    requires !IsSwitch(e) && Inv(m, first) && Leads(m, e, m')
    requires m'.k.cur !in m'.exited
    ensures m.k.cur == m'.k.cur < |m.k.tasks| <= |m'.k.tasks| && m.k.cur !in m.exited
    ensures m'.k.tasks[m.k.cur].priority == m.k.tasks[m.k.cur].priority
  {
    OtherStep(m, e, m', first);
  }

  lemma DistanceStep(m: Machine, e: Event, m': Machine, first: nat, n: nat)
    requires !IsSwitch(e) && Inv(m, first) && Leads(m, e, m')
    requires m'.k.cur !in m'.exited && DistanceIs(m.k, n)
    ensures var p := m.k.tasks[m.k.cur].priority;
            DistanceIs(m'.k, n + if e.Fork? || (e.TaskCreate? && e.prio == p) then 1 else 0)
  {
    hide Leads, Inv;
    OtherStep(m, e, m', first);
  }

  /** The running task is the tail of its list exactly when nothing was enqueued there since it was chosen; and exit
      is right, keeping every invariant, exactly then. */
  lemma ExitDecidedByTrace(m: Machine, evs: seq<Event>, m': Machine, first: nat, after: Machine)
    requires Inv(m, first) && Reaches(m, evs, m') && DistanceIs(m.k, 0)
    requires Shaped(m'.k) && CanExit(m') && Exited(m', after)
    ensures var p := m'.k.tasks[m'.k.cur].priority;
            && (EnqueuedSinceChosen(evs, p) == 0 <==> IsTail(m'.k.ready[p], m'.k.cur))
            && (EnqueuedSinceChosen(evs, p) == 0 <==> Inv(after, first))
  {
    hide Leads, Reaches, PagesOk, BlocksOk, ContextsOk, StatusOk;
    DistanceFromTail(m, evs, m', first);
    RunKeepsInv(m, evs, m', first);
    ExitExactlyAtTail(m', after, first);
    assert ListOk(m', m'.k.tasks[m'.k.cur].priority);
  }

  /** The failing family: a task that creates one of its own priority and then exits stays on the ready list, while
      its page is on the free list already. */
  lemma ExitAfterOwnCreation(m: Machine, e: Event, m1: Machine, m2: Machine, first: nat)
    requires Inv(m, first) && Leads(m, e, m1)
    requires e.TaskCreate? && e.prio == m.k.tasks[m.k.cur].priority && m.k.cur != SHELL
    requires Shaped(m1.k) && CanExit(m1) && Exited(m1, m2)
    ensures m.k.cur in m2.k.ready[e.prio] && m.k.cur in m2.exited
    ensures PageOf(m.k.tasks[m.k.cur]) in m2.k.free
  {
    hide Leads, QueuesOk, StatusOk, PagesOk, BlocksOk, ContextsOk, Shaped;
    CreationKeepsStack(m, e, m1);
    CurrentListed(m, first);
    OtherStep(m, e, m1, first);
    StepKeepsInv(m, e, m1, first);
    ExitKeepsPages(m1, m2);
    var l := m1.k.ready[e.prio];
    assert l[|l| - 1] == |m.k.tasks|;
    assert PageOf(m.k.tasks[m.k.cur]) in m2.k.free;
  }

  lemma CreationKeepsStack(m: Machine, e: Event, m1: Machine)
    requires Leads(m, e, m1) && e.TaskCreate?
    ensures m.k.cur !in m.exited
    ensures m.k.cur < |m.k.tasks| < |m1.k.tasks| && m1.k.tasks[m.k.cur].stkBottom == m.k.tasks[m.k.cur].stkBottom
  {
    hide Fill, Write, FreshStack;
  }

  /** A task that has exited is on no list, and no decision after its exit chooses it. */
  lemma NeverChosenAgain(m: Machine, evs: seq<Event>, m': Machine, first: nat, t: nat)
    requires Inv(m, first) && Reaches(m, evs, m') && t in m.exited
    ensures forall p :: 0 <= p < MAXNUM_PRIORITY ==> t !in m'.k.ready[p]
    ensures evs != [] && IsSwitch(evs[|evs| - 1]) ==> m'.k.cur != t
  {
    ExitedGrows(m, evs, m', first);
    RunKeepsInv(m, evs, m', first);
    hide Leads, Reaches, PagesOk, BlocksOk, ContextsOk, StatusOk;
    forall p | 0 <= p < MAXNUM_PRIORITY ensures t !in m'.k.ready[p] {
      assert ListOk(m', p);
    }
    if evs != [] && IsSwitch(evs[|evs| - 1]) {
      var x := LastStep(m, evs, m');
      RunKeepsInv(m, evs[..|evs| - 1], x, first);
      ExitedGrows(m, evs[..|evs| - 1], x, first);
      var p := SwitchChooses(x, evs[|evs| - 1], m', first);
      assert ListOk(x, p);
    }
  }

  /** The tick that ends the last stretch of a task that has exited marks it READY all the same. */
  lemma TickMarksExitedReady(m: Machine, e: Event, m': Machine, first: nat)
    requires Inv(m, first) && Leads(m, e, m') && IsSwitch(e) && m.k.cur in m.exited
    ensures m.k.cur < |m'.k.tasks| && m'.k.cur != m.k.cur && m'.k.tasks[m.k.cur].status == Ready
  {
    var p := SwitchChooses(m, e, m', first);
    hide Leads;
    assert ListOk(m, p);
  }
}
