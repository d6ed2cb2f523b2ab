/** Who owns which page and which kernel block, in every reachable state. */
module Ownership {
  import opened Words
  import opened Seqs
  import opened Mmu
  import opened PageTables
  import opened Mem
  import opened Sched
  import opened Context
  import opened KernelState
  import opened Steps
  import opened Invariants
  import Pages
  import Blocks

  /** The state in which run_first_sched has handed the processor to the shell; first_run has called reload_ostick on
      the shell's stack, under its first context. */
  function BootMachine(mem: Memory, first: nat, shell: Word, regs: Regs, below: Below): Machine
    requires first + 2 < Blocks.KBLK_NUM
  {
    Machine(Reloaded(Boot(mem, first, shell), FirstContext(Pages.PageStart(1)), below), regs, {},
            [{Sec(Pages.PageStart(1))}])
  }

  lemma BootKeepsInv(mem: Memory, first: nat, shell: Word, regs: Regs, below: Below)
    requires first + 2 < Blocks.KBLK_NUM
    ensures Inv(BootMachine(mem, first, shell, regs, below), first)
    ensures var m := BootMachine(mem, first, shell, regs, below);
            Live(m) == {SHELL} && m.k.cur == SHELL && m.k.ready == [[], [], [], [], [SHELL]]
  {
    hide Partition, PagesOk, BlocksOk, StatusOf, Boot, Write;
    var m := BootMachine(mem, first, shell, regs, below);
    BootRecord(mem, first, shell);
    assert Live(m) == {SHELL};
    BootPages(m);
    BootBlocks(m, first);
  }

  /** The kernel that run_first_sched leaves, field by field. */
  lemma BootRecord(mem: Memory, first: nat, shell: Word)
    requires first + 2 < Blocks.KBLK_NUM
    ensures var k := Boot(mem, first, shell);
            && k.ready == [[], [], [], [], [SHELL]] && k.cur == SHELL
            && |k.tasks| == 1 && k.tasks[0].priority == LOWEST_PRIORITY && k.tasks[0].status == Running
            && k.tasks[0].stkBottom == Pages.PageStart(1) && k.tasks[0].pgtbase == Blocks.KblkStart(first + 1) == k.ttbr
            && k.free == Range(1, Pages.PAGE_NUM)[1..] && k.inuse == [0] + [Range(1, Pages.PAGE_NUM)[0]]
            && k.kfree == Range(first + 1, Blocks.KBLK_NUM)[1..]
            && k.kused == [first] + [Range(first + 1, Blocks.KBLK_NUM)[0]]
  {
    hide TaskTable, FreshStack;
    var k := Boot(mem, first, shell);
    var created := DoTaskCreate(Initial(mem, first), LOWEST_PRIORITY, shell);
    assert Initial(mem, first).ready[LOWEST_PRIORITY] + [0] == [0];
    assert created.ready == [[], [], [], [], [0]];
    assert Pick(created.ready, StatusOf(created), 0) == LOWEST_PRIORITY;
    var rotated: seq<nat> := [SHELL][1..] + [SHELL];
    assert rotated == [SHELL];
    assert k.ready == Rotate(created.ready, LOWEST_PRIORITY) == [[], [], [], [], rotated];
  }

  lemma BootPages(m: Machine)
    requires m.k.free == Range(1, Pages.PAGE_NUM)[1..] && m.k.inuse == [0] + [Range(1, Pages.PAGE_NUM)[0]]
    requires |m.k.tasks| == 1 && m.k.tasks[0].stkBottom == Pages.PageStart(1) && Live(m) == {SHELL}
    ensures PagesOk(m)
  {
    RangePartition(1, Pages.PAGE_NUM);
    var free := Range(1, Pages.PAGE_NUM);
    assert free[1..] == Range(2, Pages.PAGE_NUM);
    RangePartition(2, Pages.PAGE_NUM);
    assert m.k.inuse == [0, 1];
    assert PageOf(m.k.tasks[0]) == 1;
    assert 1 in m.k.inuse;
  }

  lemma BootBlocks(m: Machine, first: nat)
    requires first + 2 < Blocks.KBLK_NUM
    requires m.k.kfree == Range(first + 1, Blocks.KBLK_NUM)[1..]
    requires m.k.kused == [first] + [Range(first + 1, Blocks.KBLK_NUM)[0]]
    requires |m.k.tasks| == 1 && m.k.tasks[0].pgtbase == Blocks.KblkStart(first + 1) && Live(m) == {SHELL}
    ensures BlocksOk(m, first)
  {
    assert m.k.kfree == Range(first + 2, Blocks.KBLK_NUM);
    RangePartition(first + 2, Blocks.KBLK_NUM);
    assert m.k.kused == [first, first + 1];
    assert KblkOf(m.k.tasks[0].pgtbase) == first + 1;
    assert first + 1 in m.k.kused;
  }

  // ------------------------------------------------------------------ one-to-one

  /** An injective image of a finite set that stays inside a set of the same size fills it. */
  lemma {:induction false} InjectionFills(f: map<nat, nat>, target: set<nat>)
    requires forall t, u :: t in f && u in f && t != u ==> f[t] != f[u]
    requires forall t :: t in f ==> f[t] in target
    requires |f.Keys| >= |target|
    ensures forall y :: y in target ==> exists t :: t in f && f[t] == y
    decreases |target|
  {
    if target != {} {
      var y :| y in target;
      if t :| t in f && f[t] == y {
        var g := map u | u in f && u != t :: f[u];
        assert g.Keys == f.Keys - {t};
        InjectionFills(g, target - {y});
        forall z | z in target
          ensures exists u :: u in f && f[u] == z
        {
          if z != y {
            assert z in target - {y};
            var u :| u in g && g[u] == z;
            assert f[u] == z;
          }
        }
      } else {
        InjectionFits(f, target - {y});
        assert false;
      }
    }
  }

  lemma {:induction false} InjectionFits(f: map<nat, nat>, target: set<nat>)
    requires forall t, u :: t in f && u in f && t != u ==> f[t] != f[u]
    requires forall t :: t in f ==> f[t] in target
    ensures |f.Keys| <= |target|
    decreases |target|
  {
    if f.Keys != {} {
      var t :| t in f;
      var g := map u | u in f && u != t :: f[u];
      assert g.Keys == f.Keys - {t};
      InjectionFits(g, target - {f[t]});
    }
  }

  ghost function Members(s: seq<nat>): set<nat> {
    set x | x in s
  }

  lemma {:induction false} MembersCount(s: seq<nat>)
    requires NoDup(s)
    ensures |Members(s)| == |s|
    decreases |s|
  {
    if s != [] {
      TailUntouched(s);
      MembersCount(s[1..]);
      forall x ensures x in Members(s) <==> x in Members(s[1..]) + {s[0]} {
        HeadOrTail(s, x);
      }
      assert Members(s) == Members(s[1..]) + {s[0]};
    } else {
      assert Members(s) == {};
    }
  }

  /** When numbers taken by the live tasks are different, lie in s apart from its head, and are as many as s has
      elements apart from its head, each of those is taken. */
  lemma EachIsTaken(s: seq<nat>, f: map<nat, nat>, x: nat)
    requires NoDup(s) && s != [] && |s| == |f.Keys| + 1
    requires forall t, u :: t in f && u in f && t != u ==> f[t] != f[u]
    requires forall t :: t in f ==> f[t] in s && f[t] != s[0]
    requires x in s && x != s[0]
    ensures exists t :: t in f && f[t] == x
  {
    MembersCount(s);
    assert s[0] in s;
    InjectionFills(f, Members(s) - {s[0]});
    assert x in Members(s) - {s[0]};
  }

  /** Every in-use page except that of the path tree belongs to exactly one live task. */
  lemma PagesAreOwned(m: Machine, first: nat, page: nat)
    requires Inv(m, first) && page in m.k.inuse && page != TREE_PAGE
    ensures exists t :: t in Live(m) && PageOf(m.k.tasks[t]) == page
    ensures forall t, u ::
              t in Live(m) && u in Live(m) && PageOf(m.k.tasks[t]) == page == PageOf(m.k.tasks[u]) ==> t == u
  {
    hide Partition, QueuesOk, BlocksOk, StatusOk, ContextsOk;
    var k := m.k;
    assert NoDup(k.inuse) by { PartitionUsed(0, Pages.PAGE_NUM, k.free, k.inuse, page); }
    forall t | t in Live(m) ensures OwnsPage(k, k.tasks[t]) {
    }
    hide PagesOk;
    assert |k.inuse| == |Live(m)| + 1 && k.inuse[0] == TREE_PAGE;
    var f: map<nat, nat> := map t | t in Live(m) :: PageOf(k.tasks[t]);
    assert f.Keys == Live(m);
    forall t, u | t in Live(m) && u in Live(m) && t != u ensures PageOf(k.tasks[t]) != PageOf(k.tasks[u]) {
      DifferentPages(m, t, u);
    }
    EachIsTaken(k.inuse, f, page);
    var t :| t in f && f[t] == page;
  }

  lemma DifferentPages(m: Machine, t: nat, u: nat)
    requires PagesOk(m) && t in Live(m) && u in Live(m) && t != u
    ensures PageOf(m.k.tasks[t]) != PageOf(m.k.tasks[u])
  {
    assert OwnsPage(m.k, m.k.tasks[t]) && OwnsPage(m.k, m.k.tasks[u]);
  }

  lemma DifferentBlocks(m: Machine, t: nat, u: nat, first: nat)
    requires BlocksOk(m, first) && t in Live(m) && u in Live(m) && t != u
    ensures KblkOf(m.k.tasks[t].pgtbase) != KblkOf(m.k.tasks[u].pgtbase)
  {
    assert OwnsBlock(m.k, m.k.tasks[t]) && OwnsBlock(m.k, m.k.tasks[u]);
  }

  /** Every allocated kernel block except that of the IPC queue is the page table of exactly one live task. */
  lemma BlocksAreOwned(m: Machine, first: nat, blk: nat)
    requires Inv(m, first) && blk in m.k.kused && blk != m.k.kused[0]
    ensures exists t :: t in Live(m) && KblkOf(m.k.tasks[t].pgtbase) == blk
    ensures forall t, u ::
              t in Live(m) && u in Live(m) && KblkOf(m.k.tasks[t].pgtbase) == blk == KblkOf(m.k.tasks[u].pgtbase) ==>
                t == u
  {
    hide Partition, QueuesOk, PagesOk, StatusOk, ContextsOk;
    var k := m.k;
    assert NoDup(k.kused) by { PartitionUsed(first, Blocks.KBLK_NUM, k.kfree, k.kused, blk); }
    forall t | t in Live(m) ensures OwnsBlock(k, k.tasks[t]) {
    }
    hide BlocksOk;
    assert |k.kused| == |Live(m)| + 1;
    var f: map<nat, nat> := map t | t in Live(m) :: KblkOf(k.tasks[t].pgtbase);
    assert f.Keys == Live(m);
    forall t, u | t in Live(m) && u in Live(m) && t != u
      ensures KblkOf(k.tasks[t].pgtbase) != KblkOf(k.tasks[u].pgtbase)
    {
      DifferentBlocks(m, t, u, first);
    }
    EachIsTaken(k.kused, f, blk);
    var t :| t in f && f[t] == blk;
  }

  // ------------------------------------------------------------------ conservation

  function Created(evs: seq<Event>): nat {
    if evs == [] then 0
    else Created(evs[..|evs| - 1]) + (if evs[|evs| - 1].TaskCreate? || evs[|evs| - 1].Fork? then 1 else 0)
  }

  function Ended(evs: seq<Event>): nat {
    if evs == [] then 0 else Ended(evs[..|evs| - 1]) + (if evs[|evs| - 1].Exit? then 1 else 0)
  }

  lemma StepCount(m: Machine, e: Event, m': Machine, first: nat)
    requires Inv(m, first) && Leads(m, e, m')
    ensures |m'.k.inuse| - |m.k.inuse| == (if e.TaskCreate? || e.Fork? then 1 else 0) - (if e.Exit? then 1 else 0)
    ensures |m'.k.kused| - |m.k.kused| == |m'.k.inuse| - |m.k.inuse|
  {
    hide Inv, Leads;
    if e.Exit? {
      ExitCount(m, e, m', first);
    } else {
      TakeCount(m, e, m');
    }
  }

  lemma TakeCount(m: Machine, e: Event, m': Machine)
    requires Leads(m, e, m') && !e.Exit?
    ensures |m'.k.inuse| - |m.k.inuse| == if e.TaskCreate? || e.Fork? then 1 else 0
    ensures |m'.k.kused| - |m.k.kused| == |m'.k.inuse| - |m.k.inuse|
  {
    hide FreshStack, CurPage, TaskTable, SetPte, ForkedMemory, StatusOf, Pick;
  }

  lemma ExitCount(m: Machine, e: Event, m': Machine, first: nat)
    requires Inv(m, first) && Leads(m, e, m') && e.Exit?
    ensures |m'.k.inuse| - |m.k.inuse| == |m'.k.kused| - |m.k.kused| == -1
  {
    StepKeepsInv(m, e, m', first);
    hide QueuesOk, StatusOk, ContextsOk, PagesOk, BlocksOk;
    var pushed := PushKeepsInv(m, e.r10, first);
    ExitLive(pushed, m');
  }

  /** Pages and blocks in use move with the number of tasks: over any run the gain is creations minus exits, and both
      are one more than the live tasks. */
  lemma {:induction false} Conservation(m: Machine, evs: seq<Event>, m': Machine, first: nat)
    requires Inv(m, first) && Reaches(m, evs, m')
    ensures |m'.k.inuse| == |Live(m')| + 1 && |m'.k.kused| == |Live(m')| + 1
    ensures |m'.k.inuse| - |m.k.inuse| == Created(evs) - Ended(evs)
    ensures |m'.k.kused| - |m.k.kused| == Created(evs) - Ended(evs)
    decreases |evs|
  {
    RunKeepsInv(m, evs, m', first);
    hide Leads, Reaches, QueuesOk, StatusOk, ContextsOk, Partition;
    if evs == [] {
      NoSteps(m, m');
    } else {
      var x := LastStep(m, evs, m');
      RunKeepsInv(m, evs[..|evs| - 1], x, first);
      Conservation(m, evs[..|evs| - 1], x, first);
      StepCount(x, evs[|evs| - 1], m', first);
    }
  }

  // ------------------------------------------------------------------ release

  /** An exit marks the task TERMINATE and puts its page and the block of its table at the end of the free lists.  It
      stays the current task, on its own table, and no other task is touched. */
  lemma ExitReleases(m: Machine, e: Event, m': Machine, first: nat)
    requires Inv(m, first) && e.Exit? && Leads(m, e, m')
    ensures m'.k.cur == m.k.cur < |m.k.tasks| && m'.k.ttbr == m.k.ttbr
    ensures var t := m.k.tasks[m.k.cur];
            var page, blk := (t.stkBottom - 0x8210_0000) / 0x10_0000, (t.pgtbase - 0x8200_0000) / 0x4000;
            && m'.k.tasks == m.k.tasks[m.k.cur := t.(status := Terminate)]
            && page in m.k.inuse && blk in m.k.kused
            && m'.k.free == m.k.free + [page] && m'.k.kfree == m.k.kfree + [blk]
            && (forall i :: i in m'.k.inuse <==> i in m.k.inuse && i != page)
            && (forall i :: i in m'.k.kused <==> i in m.k.kused && i != blk)
  {
    hide Leads, QueuesOk, StatusOk, PagesOk, BlocksOk, ContextsOk, Write, Frame, FrameSpot, Without;
    ExitIs(m, e, m');
    OwnedByCurrent(m, first);
    PushIsShaped(m, e.r10);
    var k := Push(m, e.r10);
    OwnPageFound(k, k.tasks[k.cur]);
    WithoutMembers(m.k.inuse, PageOf(m.k.tasks[m.k.cur]));
    WithoutMembers(m.k.kused, KblkOf(m.k.tasks[m.k.cur].pgtbase));
    KernelExit(k);
  }

  lemma OwnedByCurrent(m: Machine, first: nat)
    requires Inv(m, first) && m.k.cur !in m.exited
    ensures m.k.cur < |m.k.tasks| && OwnsPage(m.k, m.k.tasks[m.k.cur]) && OwnsBlock(m.k, m.k.tasks[m.k.cur])
    ensures NoDup(m.k.inuse) && NoDup(m.k.kused)
  {
    hide QueuesOk, ContextsOk, NoDup;
  }

  lemma KernelExit(k: Kernel)
    requires Shaped(k) && k.tasks[k.cur].priority < MAXNUM_PRIORITY && 0 <= KblkOf(k.tasks[k.cur].pgtbase)
    ensures var t, k' := k.tasks[k.cur], KernelState.Exit(k);
            && k'.cur == k.cur && k'.ttbr == k.ttbr && k'.tasks == k.tasks[k.cur := t.(status := Terminate)]
            && k'.free == k.free + [CurPage(k)] && k'.inuse == Without(k.inuse, CurPage(k))
            && k'.kfree == k.kfree + [KblkOf(t.pgtbase)] && k'.kused == Without(k.kused, KblkOf(t.pgtbase))
  {
    hide CurPage, Without, Pop;
  }
}
