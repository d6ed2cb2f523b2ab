/** Every step keeps the invariants of Steps, and the scheduler always has a task to choose. */
module Invariants {
  import opened Words
  import opened Layout
  import opened Seqs
  import opened Mmu
  import opened PageTables
  import opened Mem
  import opened Sched
  import opened Context
  import opened KernelState
  import opened Steps
  import Pages
  import Blocks

  // ------------------------------------------------------------------ switching

  lemma RotatedList(l: seq<nat>)
    requires l != [] && NoDup(l)
    ensures var r := l[1..] + [l[0]];
            NoDup(r) && |r| == |l| && (forall x :: x in r <==> x in l)
            && (forall i :: 0 <= i < |l| ==> r[i] == if i == |l| - 1 then l[0] else l[i + 1])
  {
    var r := l[1..] + [l[0]];
    forall x ensures x in r <==> x in l {
      HeadOrTail(l, x);
    }
  }

  /** Where every queued task is READY, choose_task takes the head of the first non-empty list. */
  lemma PickFirstNonEmpty(m: Machine, context: Word)
    requires QueuesOk(m) && StatusOk(m) && Shaped(m.k)
    ensures var s := Suspend(m.k, context);
            && Schedulable(s)
            && var p := Pick(s.ready, StatusOf(s), 0);
               s.ready[p] != [] && forall q :: 0 <= q < p ==> s.ready[q] == []
  {
    var s := Suspend(m.k, context);
    forall p | 0 <= p < MAXNUM_PRIORITY && s.ready[p] != []
      ensures StatusOf(s)(s.ready[p][0]) == Ready
    {
      assert ListOk(m, p);
    }
    assert SHELL in s.ready[LOWEST_PRIORITY];
    assert s.ready[LOWEST_PRIORITY] != [];
  }

  /** What a switch changes: one list is rotated, the head of the first non-empty list becomes current. */
  lemma SwitchEffect(m: Machine, context: Word)
    requires QueuesOk(m) && StatusOk(m) && Shaped(m.k)
    ensures Schedulable(Suspend(m.k, context))
    ensures var k, k' := m.k, SwitchAway(m.k, context);
            && |k'.tasks| == |k.tasks|
            && (forall t :: 0 <= t < |k.tasks| ==>
                  && k'.tasks[t].priority == k.tasks[t].priority && k'.tasks[t].stkBottom == k.tasks[t].stkBottom
                  && k'.tasks[t].pgtbase == k.tasks[t].pgtbase
                  && k'.tasks[t].context == (if t == k.cur then context else k.tasks[t].context)
                  && k'.tasks[t].status == if t == k'.cur then Running else if t == k.cur then Ready else k.tasks[t].status)
            && k'.free == k.free && k'.inuse == k.inuse && k'.kfree == k.kfree && k'.kused == k.kused && k'.mem == k.mem
            && (exists p :: 0 <= p < MAXNUM_PRIORITY && k.ready[p] != [] && (forall q :: 0 <= q < p ==> k.ready[q] == [])
                  && k'.ready == Rotate(k.ready, p) && k'.cur == k.ready[p][0])
            && k'.ttbr == k'.tasks[k'.cur].pgtbase
  {
    PickFirstNonEmpty(m, context);
    var s := Suspend(m.k, context);
    var p := Pick(s.ready, StatusOf(s), 0);
    assert ListOk(m, p);
    assert m.k.ready[p] != [] && SwitchAway(m.k, context).ready == Rotate(m.k.ready, p);
  }

  lemma SwitchKeepsQueues(m: Machine, context: Word, m': Machine)
    requires QueuesOk(m) && StatusOk(m) && Shaped(m.k) && Schedulable(Suspend(m.k, context))
    requires m'.k == SwitchAway(m.k, context) && m'.exited == m.exited
    ensures QueuesOk(m') && StatusOk(m')
  {
    hide SwitchAway, Suspend, StatusOk, QueuesOk;
    SwitchEffect(m, context);
    var p :| 0 <= p < MAXNUM_PRIORITY && m.k.ready[p] != [] && m'.k.ready == Rotate(m.k.ready, p)
             && m'.k.cur == m.k.ready[p][0];
    RotationKeepsQueues(m, m', p);
    SwitchKeepsStatus(m, context, m', p);
  }

  lemma RotationKeepsQueues(m: Machine, m': Machine, p: nat)
    requires QueuesOk(m) && p < MAXNUM_PRIORITY && m.k.ready[p] != [] && m'.k.ready == Rotate(m.k.ready, p)
    requires |m'.k.tasks| == |m.k.tasks| && m'.exited == m.exited
    requires forall t :: 0 <= t < |m.k.tasks| ==> m'.k.tasks[t].priority == m.k.tasks[t].priority
    ensures QueuesOk(m')
  {
    assert ListOk(m, p);
    RotatedList(m.k.ready[p]);
    forall q | 0 <= q < MAXNUM_PRIORITY
      ensures ListOk(m', q)
    {
      assert ListOk(m, q);
    }
  }

  lemma SwitchKeepsStatus(m: Machine, context: Word, m': Machine, p: nat)
    requires QueuesOk(m) && StatusOk(m) && Shaped(m.k) && Schedulable(Suspend(m.k, context))
    requires m'.k == SwitchAway(m.k, context) && m'.exited == m.exited
    requires p < MAXNUM_PRIORITY && m.k.ready[p] != [] && m'.k.cur == m.k.ready[p][0]
    ensures StatusOk(m')
  {
    hide SwitchAway, Suspend;
    SwitchEffect(m, context);
    assert ListOk(m, p);
  }

  /** Pages and blocks are owned the same way when tasks keep their pages and tables. */
  lemma SameOwners(m: Machine, m': Machine, first: nat)
    requires PagesOk(m) && BlocksOk(m, first)
    requires |m'.k.tasks| == |m.k.tasks| && m'.exited == m.exited
    requires m'.k.free == m.k.free && m'.k.inuse == m.k.inuse && m'.k.kfree == m.k.kfree && m'.k.kused == m.k.kused
    requires forall t :: 0 <= t < |m.k.tasks| ==>
               m'.k.tasks[t].stkBottom == m.k.tasks[t].stkBottom && m'.k.tasks[t].pgtbase == m.k.tasks[t].pgtbase
    ensures PagesOk(m') && BlocksOk(m', first)
  {
    assert Live(m') == Live(m);
    forall t | 0 <= t < |m'.k.tasks| && t !in m'.exited
      ensures OwnsPage(m'.k, m'.k.tasks[t]) && OwnsBlock(m'.k, m'.k.tasks[t])
    {
      assert OwnsPage(m.k, m.k.tasks[t]) && OwnsBlock(m.k, m.k.tasks[t]);
    }
  }

  lemma SwitchKeepsInv(m: Machine, context: Word, m': Machine, first: nat)
    requires Inv(m, first) && Shaped(m.k) && Schedulable(Suspend(m.k, context))
    requires FrameSpot(context)
    requires m'.k == SwitchAway(m.k, context) && m'.exited == m.exited
    ensures Inv(m', first)
  {
    SwitchKeepsQueues(m, context, m');
    SwitchEffect(m, context);
    SameOwners(m, m', first);
    SwitchKeepsContexts(m, context, m');
  }

  lemma SwitchKeepsContexts(m: Machine, context: Word, m': Machine)
    requires QueuesOk(m) && StatusOk(m) && ContextsOk(m) && Shaped(m.k) && Schedulable(Suspend(m.k, context))
    requires FrameSpot(context)
    requires m'.k == SwitchAway(m.k, context) && m'.exited == m.exited
    ensures ContextsOk(m')
    ensures m'.k.cur < |m.k.tasks| && FrameSpot(m'.k.tasks[m'.k.cur].context)
  {
    hide SwitchAway, Suspend, FrameSpot;
    SwitchEffect(m, context);
    var p :| 0 <= p < MAXNUM_PRIORITY && m.k.ready[p] != [] && m'.k.cur == m.k.ready[p][0];
    assert ListOk(m, p);
  }

  // ------------------------------------------------------------------ creation

  /** k' is k with one more task t, on the head page and the head block of the free lists. */
  ghost predicate Admitted(k: Kernel, t: Task, k': Kernel)
    requires Shaped(k) && CanAllocate(k) && t.priority < MAXNUM_PRIORITY
  {
    && t.status == Ready && t.stkBottom == Pages.PageStart(k.free[0]) && FrameSpot(t.context)
    && k' == Admit(k, k.mem, t).(mem := k'.mem)
  }

  lemma AdmitKeepsQueues(m: Machine, t: Task, m': Machine)
    requires QueuesOk(m) && StatusOk(m) && Shaped(m.k) && CanAllocate(m.k) && t.priority < MAXNUM_PRIORITY
    requires Admitted(m.k, t, m'.k) && m'.exited == m.exited
    ensures QueuesOk(m') && StatusOk(m')
  {
    var id := |m.k.tasks|;
    forall q | 0 <= q < MAXNUM_PRIORITY
      ensures ListOk(m', q)
    {
      assert ListOk(m, q);
    }
    forall u | 0 <= u < |m'.k.tasks| && u !in m'.exited
      ensures m'.k.tasks[u].priority < MAXNUM_PRIORITY && u in m'.k.ready[m'.k.tasks[u].priority]
    {
      if u < id {
        assert u in m.k.ready[m.k.tasks[u].priority];
      }
    }
  }

  lemma ExitedAreKnown(m: Machine)
    requires StatusOk(m)
    ensures forall t :: t in m.exited ==> t < |m.k.tasks|
  {
  }

  lemma AdmitLive(m: Machine, t: Task, m': Machine)
    requires StatusOk(m) && Shaped(m.k) && CanAllocate(m.k) && t.priority < MAXNUM_PRIORITY
    requires Admitted(m.k, t, m'.k) && m'.exited == m.exited
    ensures Live(m') == Live(m) + {|m.k.tasks|} && |Live(m')| == |Live(m)| + 1
  {
    hide TaskTable, StatusOk;
    assert |m'.k.tasks| == |m.k.tasks| + 1;
    assert Live(m') == Live(m) + {|m.k.tasks|} by {
      assert StatusOk(m);
      ExitedAreKnown(m);
    }
    assert |m.k.tasks| !in Live(m);
  }

  lemma AdmitKeepsPages(m: Machine, t: Task, m': Machine)
    requires StatusOk(m) && PagesOk(m) && Shaped(m.k) && CanAllocate(m.k) && t.priority < MAXNUM_PRIORITY
    requires Admitted(m.k, t, m'.k) && m'.exited == m.exited
    ensures PagesOk(m')
  {
    var k, k', id := m.k, m'.k, |m.k.tasks|;
    AdmitLive(m, t, m');
    PartitionHead(0, Pages.PAGE_NUM, k.free, k.inuse);
    MoveHead(0, Pages.PAGE_NUM, k.free, k.inuse);
    assert k.inuse[0] in k.inuse;
    assert PageOf(k'.tasks[id]) == k.free[0];
    assert k'.inuse[|k.inuse|] == k.free[0];
    forall u | 0 <= u < |k'.tasks| && u !in m'.exited
      ensures OwnsPage(k', k'.tasks[u])
      ensures u < id ==> k'.tasks[u].stkBottom != k'.tasks[id].stkBottom
    {
      if u < id {
        assert OwnsPage(k, k.tasks[u]);
      }
    }
  }

  lemma AdmitKeepsBlocks(m: Machine, t: Task, m': Machine, first: nat)
    requires StatusOk(m) && BlocksOk(m, first) && Shaped(m.k) && CanAllocate(m.k) && t.priority < MAXNUM_PRIORITY
    requires Admitted(m.k, t, m'.k) && m'.exited == m.exited
    ensures BlocksOk(m', first)
  {
    var k, k', id := m.k, m'.k, |m.k.tasks|;
    AdmitLive(m, t, m');
    PartitionHead(first, Blocks.KBLK_NUM, k.kfree, k.kused);
    MoveHead(first, Blocks.KBLK_NUM, k.kfree, k.kused);
    assert k.kused[0] in k.kused;
    assert k'.tasks[id].pgtbase == Blocks.KblkStart(k.kfree[0]);
    assert KblkOf(k'.tasks[id].pgtbase) == k.kfree[0];
    assert k'.kused[|k.kused|] == k.kfree[0];
    forall u | 0 <= u < |k'.tasks| && u !in m'.exited
      ensures OwnsBlock(k', k'.tasks[u])
      ensures u < id ==> k'.tasks[u].pgtbase != k'.tasks[id].pgtbase
    {
      if u < id {
        assert OwnsBlock(k, k.tasks[u]);
      }
    }
  }

  lemma AdmitKeepsInv(m: Machine, t: Task, m': Machine, first: nat)
    requires Inv(m, first) && Shaped(m.k) && CanAllocate(m.k) && t.priority < MAXNUM_PRIORITY
    requires Admitted(m.k, t, m'.k) && m'.exited == m.exited
    ensures Inv(m', first)
  {
    hide QueuesOk, StatusOk, PagesOk, BlocksOk, FrameSpot, TaskTable;
    AdmitKeepsQueues(m, t, m');
    AdmitKeepsPages(m, t, m');
    AdmitKeepsBlocks(m, t, m', first);
  }

  // ------------------------------------------------------------------ exit

  /** which_page(stk_bottom) of a live task is the page it was given. */
  lemma OwnPageFound(k: Kernel, t: Task)
    requires Shaped(k) && OwnsPage(k, t)
    ensures Pages.WhichPageId(k.inuse, RoundDown(t.stkBottom, SECTION)) == PageOf(t)
  {
    Pages.WhichPageFinds(k.inuse, PageOf(t), t.stkBottom);
  }

  lemma WithoutKeepsHead(s: seq<nat>, x: nat)
    requires s != [] && s[0] != x
    ensures Without(s, x) != [] && Without(s, x)[0] == s[0]
  {
  }

  ghost predicate CanExit(m: Machine)
    requires Shaped(m.k)
  {
    var k := m.k;
    && k.cur !in m.exited && k.cur != SHELL
    && k.tasks[k.cur].priority < MAXNUM_PRIORITY && 0 <= KblkOf(k.tasks[k.cur].pgtbase)
  }

  ghost predicate Exited(m: Machine, m': Machine)
    requires Shaped(m.k) && CanExit(m)
  {
    m'.k == KernelState.Exit(m.k) && m'.exited == m.exited + {m.k.cur}
  }

  lemma ExitLive(m: Machine, m': Machine)
    requires Shaped(m.k) && CanExit(m) && Exited(m, m') && StatusOk(m)
    ensures Live(m') == Live(m) - {m.k.cur} && |Live(m')| == |Live(m)| - 1
  {
    assert m.k.cur in Live(m);
    assert Live(m') == Live(m) - {m.k.cur};
  }

  lemma ExitKeepsQueues(m: Machine, m': Machine)
    requires QueuesOk(m) && StatusOk(m) && Shaped(m.k) && CanExit(m) && Exited(m, m')
    requires IsTail(m.k.ready[m.k.tasks[m.k.cur].priority], m.k.cur)
    ensures QueuesOk(m') && StatusOk(m')
  {
    var k, k' := m.k, m'.k;
    var p := k.tasks[k.cur].priority;
    var l := k.ready[p];
    forall q | 0 <= q < MAXNUM_PRIORITY
      ensures ListOk(m', q)
    {
      assert ListOk(m, q);
    }
    forall u | 0 <= u < |k'.tasks| && u !in m'.exited
      ensures k'.tasks[u].priority < MAXNUM_PRIORITY && u in k'.ready[k'.tasks[u].priority]
    {
      assert u in k.ready[k.tasks[u].priority];
      if k.tasks[u].priority == p {
        var i :| 0 <= i < |l| && l[i] == u;
        assert i < |l| - 1;
        assert u == l[..|l| - 1][i];
      }
    }
  }

  lemma ExitKeepsPages(m: Machine, m': Machine)
    requires StatusOk(m) && PagesOk(m) && Shaped(m.k) && CanExit(m) && Exited(m, m')
    ensures PagesOk(m')
    ensures m'.k.free == m.k.free + [PageOf(m.k.tasks[m.k.cur])]
  {
    var k, k' := m.k, m'.k;
    ExitLive(m, m');
    assert OwnsPage(k, k.tasks[k.cur]);
    OwnPageFound(k, k.tasks[k.cur]);
    var page := PageOf(k.tasks[k.cur]);
    MoveBack(0, Pages.PAGE_NUM, k.free, k.inuse, page);
    WithoutMembers(k.inuse, page);
    WithoutKeepsHead(k.inuse, page);
    forall u | 0 <= u < |k'.tasks| && u !in m'.exited
      ensures OwnsPage(k', k'.tasks[u])
    {
      assert OwnsPage(k, k.tasks[u]);
      assert k.tasks[u].stkBottom != k.tasks[k.cur].stkBottom;
    }
  }

  lemma ExitKeepsBlocks(m: Machine, m': Machine, first: nat)
    requires StatusOk(m) && BlocksOk(m, first) && Shaped(m.k) && CanExit(m) && Exited(m, m')
    ensures BlocksOk(m', first)
  {
    var k, k' := m.k, m'.k;
    ExitLive(m, m');
    assert OwnsBlock(k, k.tasks[k.cur]);
    var blk := KblkOf(k.tasks[k.cur].pgtbase);
    MoveBack(first, Blocks.KBLK_NUM, k.kfree, k.kused, blk);
    WithoutMembers(k.kused, blk);
    WithoutKeepsHead(k.kused, blk);
    forall u | 0 <= u < |k'.tasks| && u !in m'.exited
      ensures OwnsBlock(k', k'.tasks[u])
    {
      assert OwnsBlock(k, k.tasks[u]);
      assert k.tasks[u].pgtbase != k.tasks[k.cur].pgtbase;
    }
  }

  lemma ExitKeepsInv(m: Machine, m': Machine, first: nat)
    requires Inv(m, first) && Shaped(m.k) && CanExit(m) && Exited(m, m')
    requires IsTail(m.k.ready[m.k.tasks[m.k.cur].priority], m.k.cur)
    ensures Inv(m', first)
  {
    ExitKeepsQueues(m, m');
    ExitKeepsPages(m, m');
    ExitKeepsBlocks(m, m', first);
  }

  /** When something follows the task on its list, exit leaves it there: the invariant is lost, and so exit is right
      exactly for a task at the tail. */
  lemma ExitExactlyAtTail(m: Machine, m': Machine, first: nat)
    requires Inv(m, first) && Shaped(m.k) && CanExit(m) && Exited(m, m')
    ensures Inv(m', first) <==> IsTail(m.k.ready[m.k.tasks[m.k.cur].priority], m.k.cur)
  {
    var k := m.k;
    var p := k.tasks[k.cur].priority;
    if IsTail(k.ready[p], k.cur) {
      ExitKeepsInv(m, m', first);
    } else {
      assert k.cur in m'.k.ready[p];
      var i :| 0 <= i < |m'.k.ready[p]| && m'.k.ready[p][i] == k.cur;
      assert !ListOk(m', p);
    }
  }

  // ------------------------------------------------------------------ steps and runs

  lemma MemoryIsNoPart(m: Machine, m': Machine, first: nat)
    requires Inv(m, first) && m'.k == m.k.(mem := m'.k.mem) && m'.exited == m.exited
    ensures Inv(m', first)
  {
    forall p | 0 <= p < MAXNUM_PRIORITY
      ensures ListOk(m', p)
    {
      assert ListOk(m, p);
    }
    assert Live(m') == Live(m);
    forall t | 0 <= t < |m'.k.tasks| && t !in m'.exited
      ensures OwnsPage(m'.k, m'.k.tasks[t]) && OwnsBlock(m'.k, m'.k.tasks[t])
    {
      assert OwnsPage(m.k, m.k.tasks[t]) && OwnsBlock(m.k, m.k.tasks[t]);
    }
  }

  lemma FirstContextPlaced(page: Word)
    requires IsPageStart(page) && InUserPages(page)
    ensures FramePlace(page, FirstContext(page)) && FrameSpot(FirstContext(page))
  {
    hide FrameSpot, FramePlace;
    FirstPlace(page);
    OwnSpot(page, FirstContext(page));
  }

  lemma FirstPlace(page: Word)
    requires IsPageStart(page)
    ensures page <= FirstContext(page) < page + SECTION && FramePlace(page, FirstContext(page))
  {
    assert page == page / SECTION * SECTION;
    DivMod(FirstContext(page), 4, page / SECTION * 0x4_0000 + 1008, 0);
  }

  /** The pages of tasks are those that IsPageStart describes, but for the first. */
  lemma TaskPage(i: nat)
    requires i < Pages.PAGE_NUM && i != TREE_PAGE
    ensures IsPageStart(Pages.PageStart(i)) && InUserPages(Pages.PageStart(i))
  {
    PageStartIs(i);
  }

  /** A context in the page that starts at `page`. */
  lemma OwnSpot(page: Word, at: Word)
    requires IsPageStart(page) && InUserPages(page) && page <= at < page + SECTION
    ensures InUserPages(at) && RoundDown(at, SECTION) == page
    ensures FramePlace(page, at) <==> FrameSpot(at)
  {
    assert page == page / SECTION * SECTION;
    assert KSTACK_BOTTOM == 0x9df * SECTION;
    DivMod(at, SECTION, page / SECTION, at - page);
  }

  lemma MultipleOfFour(page: Word)
    requires page % SECTION == 0
    ensures page % 4 == 0
  {
    assert page == page / SECTION * SECTION;
    DivMod(page, 4, page / SECTION * 0x4_0000, 0);
  }

  /** The child's context has the same offset in the child's page as the parent's in the parent's page. */
  lemma ForkContextPlaced(m: Machine, at: Word, first: nat)
    requires Inv(m, first) && Shaped(m.k) && CanAllocate(m.k) && m.k.cur !in m.exited
    requires FrameSpot(at) && ContextOnStack(m.k, at)
    ensures ForkContext(m.k, at) - Pages.PageStart(m.k.free[0]) == at - m.k.tasks[m.k.cur].stkBottom
    ensures FramePlace(m.k.tasks[m.k.cur].stkBottom, at)
    ensures FramePlace(Pages.PageStart(m.k.free[0]), ForkContext(m.k, at)) && FrameSpot(ForkContext(m.k, at))
  {
    hide QueuesOk, StatusOk, BlocksOk, ContextsOk, Partition, FramePlace, FrameSpot, CurPage;
    var page, page' := m.k.tasks[m.k.cur].stkBottom, Pages.PageStart(m.k.free[0]);
    assert OwnsPage(m.k, m.k.tasks[m.k.cur]);
    TaskPage(PageOf(m.k.tasks[m.k.cur]));
    FreePage(m, first);
    OwnSpot(page, at);
    SamePlace(page, page', at, ForkContext(m.k, at));
    OwnSpot(page', ForkContext(m.k, at));
  }

  /** The page of the path tree is in use for good. */
  lemma FreePage(m: Machine, first: nat)
    requires Inv(m, first) && m.k.free != []
    ensures m.k.free[0] < Pages.PAGE_NUM && m.k.free[0] != TREE_PAGE
    ensures IsPageStart(Pages.PageStart(m.k.free[0])) && InUserPages(Pages.PageStart(m.k.free[0]))
  {
    hide QueuesOk, StatusOk, BlocksOk, ContextsOk;
    PartitionHead(0, Pages.PAGE_NUM, m.k.free, m.k.inuse);
    TaskPage(m.k.free[0]);
  }

  lemma SamePlace(page: Word, page': Word, at: int, at': int)
    requires IsPageStart(page) && IsPageStart(page') && FramePlace(page, at) && at' - page' == at - page
    ensures FramePlace(page', at')
  {
    MultipleOfFour(page);
    MultipleOfFour(page');
  }

  /** The running task, unless it has exited, is on the list of its priority. */
  lemma CurrentListed(m: Machine, first: nat)
    requires Inv(m, first) && m.k.cur !in m.exited
    ensures m.k.cur < |m.k.tasks| && m.k.tasks[m.k.cur].priority < MAXNUM_PRIORITY
    ensures m.k.cur in m.k.ready[m.k.tasks[m.k.cur].priority] && ListOk(m, m.k.tasks[m.k.cur].priority)
  {
    hide PagesOk, BlocksOk, ContextsOk, ListOk;
  }

  /** The invariants hold for the state in which the handler finds the pushed context. */
  lemma PushKeepsInv(m: Machine, r10: Word, first: nat) returns (pushed: Machine)
    requires Inv(m, first) && CanPush(m.regs.sp)
    ensures pushed == m.(k := Push(m, r10)) && Inv(pushed, first) && Shaped(pushed.k)
  {
    pushed := m.(k := Push(m, r10));
    MemoryIsNoPart(m, pushed, first);
    InvIsShaped(pushed, first);
  }

  lemma UserStep(m: Machine, e: Event, m': Machine, first: nat)
    requires e.User? && Inv(m, first) && Leads(m, e, m')
    ensures Inv(m', first)
  {
    hide Inv, Decode;
    MemoryIsNoPart(m, m', first);
  }

  lemma SwitchStep(m: Machine, e: Event, m': Machine, first: nat)
    requires (e.Tick? || e.Yield?) && Inv(m, first) && Leads(m, e, m')
    ensures Inv(m', first)
  {
    hide Inv, Leads, FrameSpot, SwitchAway, Suspend, Push;
    SwitchIs(m, e, m');
    var pushed := PushKeepsInv(m, e.r10, first);
    var switched := pushed.(k := SwitchAway(pushed.k, m.regs.sp - FRAME_BYTES));
    SwitchKeepsInv(pushed, m.regs.sp - FRAME_BYTES, switched, first);
    MemoryIsNoPart(switched, m', first);
  }

  lemma ServiceStep(m: Machine, e: Event, m': Machine, first: nat)
    requires e.Service? && Inv(m, first) && Leads(m, e, m')
    ensures Inv(m', first)
  {
    hide Inv, Write;
    MemoryIsNoPart(m, m', first);
  }

  lemma CreateStep(m: Machine, e: Event, m': Machine, first: nat)
    requires e.TaskCreate? && Inv(m, first) && Leads(m, e, m')
    ensures Inv(m', first)
  {
    hide Inv;
    var pushed := PushKeepsInv(m, e.r10, first);
    FreePage(m, first);
    FirstContextPlaced(Pages.PageStart(m.k.free[0]));
    AdmitKeepsInv(pushed, NewTask(pushed.k, e.prio), m', first);
  }

  lemma ForkStep(m: Machine, e: Event, m': Machine, first: nat)
    requires e.Fork? && Inv(m, first) && Leads(m, e, m')
    ensures Inv(m', first)
  {
    hide Inv, Copy, Fill, SetPte, TaskTable, CurPage;
    var at: Word := m.regs.sp - FRAME_BYTES;
    var pushed := PushKeepsInv(m, e.r10, first);
    ForkContextPlaced(pushed, at, first);
    var t := Task(m.k.tasks[m.k.cur].priority, Ready, Pages.PageStart(m.k.free[0]), ForkContext(m.k, at), 0);
    AdmitKeepsInv(pushed, t, m', first);
  }

  lemma ExitStep(m: Machine, e: Event, m': Machine, first: nat)
    requires e.Exit? && Inv(m, first) && Leads(m, e, m')
    ensures Inv(m', first)
  {
    hide Inv, Leads, KernelState.Exit;
    ExitIs(m, e, m');
    var pushed := PushKeepsInv(m, e.r10, first);
    ExitKeepsInv(pushed, m', first);
  }

  lemma StepKeepsInv(m: Machine, e: Event, m': Machine, first: nat)
    requires Inv(m, first) && Leads(m, e, m')
    ensures Inv(m', first)
  {
    hide Inv, Leads;
    match e {
      case User(_, _) => UserStep(m, e, m', first);
      case Tick(_, _, _) => SwitchStep(m, e, m', first);
      case Yield(_, _, _) => SwitchStep(m, e, m', first);
      case TaskCreate(_, _, _, _) => CreateStep(m, e, m', first);
      case Fork(_, _) => ForkStep(m, e, m', first);
      case Service(_, _, _, _, _) => ServiceStep(m, e, m', first);
      case Exit(_, _) => ExitStep(m, e, m', first);
    }
  }

  /** choose_task always finds a task: no enabled step is stuck. */
  lemma Progress(m: Machine, e: Event, first: nat) returns (m': Machine)
    requires Inv(m, first) && Enabled(m, e)
    ensures Step(m, e, m')
  {
    match e {
      case User(regs, store) => m' := m.(k := AfterStore(m.k, store), regs := regs);
      case TaskCreate(r10, prio, entry, after) =>
        m' := m.(k := KernelState.TaskCreate(Push(m, r10), m.regs.sp - FRAME_BYTES, prio, entry), regs := after,
                 grants := m.grants + [{Sec(Pages.PageStart(m.k.free[0]))}]);
      case Fork(r10, after) =>
        m' := m.(k := KernelState.Fork(Push(m, r10), m.regs.sp - FRAME_BYTES), regs := after,
                 grants := m.grants + [{Sec(Pages.PageStart(m.k.free[0])), Sec(m.k.tasks[m.k.cur].stkBottom)}]);
      case Exit(r10, after) =>
        assert OwnsBlock(m.k, m.k.tasks[m.k.cur]);
        m' := m.(k := KernelState.Exit(Push(m, r10)), regs := after, exited := m.exited + {m.k.cur});
      case Service(r10, buf, words, result, after) =>
        m' := m.(k := Answer(Push(m, r10), m.regs.sp - FRAME_BYTES, buf, words, result), regs := after);
      case Tick(r10, cpsr, below) => m' := SwitchProgress(m, r10, cpsr, below, first);
      case Yield(r10, cpsr, below) => m' := SwitchProgress(m, r10, cpsr, below, first);
    }
  }

  lemma SwitchProgress(m: Machine, r10: Word, cpsr: Word, below: Below, first: nat) returns (m': Machine)
    requires Inv(m, first) && Shaped(m.k) && CanPush(m.regs.sp)
    ensures Switched(m, r10, cpsr, below, m.regs.sp - FRAME_BYTES, m')
  {
    hide Inv, Resume, Frame;
    var at: Word := m.regs.sp - FRAME_BYTES;
    var pushed := PushKeepsInv(m, r10, first);
    ChosenContextInRange(pushed, at, first);
    var k' := SwitchAway(pushed.k, at);
    var sp := k'.tasks[k'.cur].context;
    m' := m.(k := Reloaded(k', sp, below), regs := Resume(k'.mem[sp / 4..sp / 4 + FRAME_WORDS], sp, cpsr));
  }

  lemma ChosenContextInRange(m: Machine, at: Word, first: nat)
    requires Inv(m, first) && Shaped(m.k) && FrameSpot(at)
    ensures Schedulable(Suspend(m.k, at))
    ensures var k' := SwitchAway(m.k, at);
            && k'.cur < |k'.tasks| && FrameSpot(k'.tasks[k'.cur].context)
            && RELOAD_BYTES <= k'.tasks[k'.cur].context && k'.tasks[k'.cur].context / 4 + FRAME_WORDS <= MEM_WORDS
  {
    hide PagesOk, BlocksOk, FrameSpot, SwitchAway, Suspend;
    SwitchEffect(m, at);
    var k' := SwitchAway(m.k, at);
    SwitchKeepsContexts(m, at, m.(k := k'));
    SpotInRange(k'.tasks[k'.cur].context);
  }

  lemma SpotInRange(at: Word)
    requires FrameSpot(at)
    ensures RELOAD_BYTES <= at && at / 4 + FRAME_WORDS <= MEM_WORDS && at + FRAME_BYTES < WORD_RANGE
  {
  }

  /** The invariants hold in every state that any run reaches. */
  lemma {:induction false} RunKeepsInv(m: Machine, evs: seq<Event>, m': Machine, first: nat)
    requires Inv(m, first) && Reaches(m, evs, m')
    ensures Inv(m', first)
    decreases |evs|
  {
    hide Inv, Leads, Reaches;
    if evs == [] {
      NoSteps(m, m');
    } else {
      var x := LastStep(m, evs, m');
      RunKeepsInv(m, evs[..|evs| - 1], x, first);
      StepKeepsInv(x, evs[|evs| - 1], m', first);
    }
  }
}
