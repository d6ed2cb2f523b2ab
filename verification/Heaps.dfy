/** malloc and free in whole runs: every task's blocks come from its own page, and no two live blocks share a byte. */
module Heaps {
  import opened Words
  import opened Layout
  import opened Seqs
  import opened Mmu
  import opened PageTables
  import opened Context
  import opened KernelState
  import opened Steps
  import opened Invariants
  import opened Isolation
  import Ownership
  import opened Blocks

  /** The block list of a page, and the blocks that were handed out. */
  datatype Heap = Heap(free: seq<nat>, used: seq<nat>)

  /** The machine with the heap of each task, by task id. */
  datatype System = System(m: Machine, heaps: seq<Heap>)

  /** Free names the task in whose page the address lies: any task may free a block of any page. */
  datatype Action =
    | Other(e: Event)
    | Malloc(r10: Word, after: Regs)
    | Free(r10: Word, address: Word, owner: nat, after: Regs)

  /** What blks_init leaves. */
  function FreshHeap(): Heap {
    Heap(Range(FIRST_BLK, BLK_NUM), [])
  }

  /** The step of the machine that an action is: malloc answers with the start of the block, free with nothing. */
  function EventOf(s: System, a: Action): Event
    requires s.m.k.cur < |s.m.k.tasks| == |s.heaps|
  {
    match a
    case Other(e) => e
    case Malloc(r10, after) => Service(r10, 0, [], MallocResult(s), after)
    case Free(r10, _, _, after) => Service(r10, 0, [], s.m.regs.r[0], after)
  }

  /** Start of the head block of the list of the running task's page. */
  function MallocResult(s: System): Word
    requires s.m.k.cur < |s.m.k.tasks| == |s.heaps|
  {
    var page, heap := s.m.k.tasks[s.m.k.cur].stkBottom, s.heaps[s.m.k.cur];
    if heap.free != [] && BlkStart(page, heap.free[0]) < WORD_RANGE then BlkStart(page, heap.free[0]) else 0
  }

  /** When an action can happen: malloc needs a second free block, whose prev field it clears, and free takes an address
      inside a block that was handed out and not freed since. */
  ghost predicate Allowed(s: System, a: Action)
    requires s.m.k.cur < |s.m.k.tasks| == |s.heaps|
  {
    match a
    case Other(_) => true
    case Malloc(_, _) => 2 <= |s.heaps[s.m.k.cur].free|
    case Free(_, address, owner, _) =>
      && owner in Live(s.m) && RoundDown(address, SECTION) == s.m.k.tasks[owner].stkBottom
      && WhichBlkIndex(address) in s.heaps[owner].used
  }

  function HeapsAfter(s: System, a: Action): seq<Heap>
    requires s.m.k.cur < |s.m.k.tasks| == |s.heaps|
    requires a.Malloc? ==> s.heaps[s.m.k.cur].free != []
    requires a.Free? ==> a.owner < |s.heaps|
  {
    match a
    case Other(e) => if e.TaskCreate? || e.Fork? then s.heaps + [FreshHeap()] else s.heaps
    case Malloc(_, _) =>
      var h := s.heaps[s.m.k.cur];
      s.heaps[s.m.k.cur := Heap(h.free[1..], h.used + [h.free[0]])]
    case Free(_, address, owner, _) =>
      var h, id := s.heaps[owner], WhichBlkIndex(address);
      s.heaps[owner := Heap(h.free + [id], Without(h.used, id))]
  }

  ghost predicate Acts(s: System, a: Action, s': System) {
    && s.m.k.cur < |s.m.k.tasks| == |s.heaps| && Allowed(s, a)
    && Leads(s.m, EventOf(s, a), s'.m) && s'.heaps == HeapsAfter(s, a)
  }

  // ------------------------------------------------------------------ the invariant

  /** Blocks 3 to 255 of the page are on the list or handed out, and not both; the list is never empty. */
  ghost predicate HeapOk(h: Heap) {
    Partition(FIRST_BLK, BLK_NUM, h.free, h.used) && h.free != []
  }

  ghost predicate HeapsOk(s: System) {
    |s.heaps| == |s.m.k.tasks| && forall t :: 0 <= t < |s.heaps| ==> HeapOk(s.heaps[t])
  }

  lemma FreshHeapOk()
    ensures HeapOk(FreshHeap()) && FreshHeap() == Heap(Range(3, 256), [])
  {
    RangePartition(FIRST_BLK, BLK_NUM);
    assert Range(FIRST_BLK, BLK_NUM)[0] == FIRST_BLK;
  }

  lemma ActKeepsHeaps(s: System, a: Action, s': System, first: nat)
    requires Inv(s.m, first) && HeapsOk(s) && Acts(s, a, s')
    ensures Inv(s'.m, first) && HeapsOk(s')
  {
    hide Inv, Leads, HeapOk;
    StepKeepsInv(s.m, EventOf(s, a), s'.m, first);
    TaskCount(s.m, EventOf(s, a), s'.m, first);
    FreshHeapOk();
    if a.Malloc? {
      MallocKeeps(s.heaps[s.m.k.cur]);
    } else if a.Free? {
      FreeKeeps(s.heaps[a.owner], WhichBlkIndex(a.address));
    }
  }

  lemma MallocKeeps(h: Heap)
    requires HeapOk(h) && 2 <= |h.free|
    ensures HeapOk(Heap(h.free[1..], h.used + [h.free[0]]))
  {
    MoveHead(FIRST_BLK, BLK_NUM, h.free, h.used);
  }

  lemma FreeKeeps(h: Heap, id: nat)
    requires HeapOk(h) && id in h.used
    ensures HeapOk(Heap(h.free + [id], Without(h.used, id)))
  {
    MoveBack(FIRST_BLK, BLK_NUM, h.free, h.used, id);
  }

  function Earlier(acts: seq<Action>): seq<Action>
    requires acts != []
  {
    acts[..|acts| - 1]
  }

  ghost predicate ReachesWithHeaps(s: System, acts: seq<Action>, s': System)
    decreases |acts|
  {
    if acts == [] then s' == s
    else exists x :: ReachesWithHeaps(s, Earlier(acts), x) && Acts(x, acts[|acts| - 1], s')
  }

  lemma {:induction false} RunKeepsHeaps(s: System, acts: seq<Action>, s': System, first: nat)
    requires Inv(s.m, first) && HeapsOk(s) && ReachesWithHeaps(s, acts, s')
    ensures Inv(s'.m, first) && HeapsOk(s')
    decreases |acts|
  {
    hide Inv, HeapsOk, Acts;
    if acts != [] {
      var x :| ReachesWithHeaps(s, Earlier(acts), x) && Acts(x, acts[|acts| - 1], s');
      RunKeepsHeaps(s, Earlier(acts), x, first);
      ActKeepsHeaps(x, acts[|acts| - 1], s', first);
    }
  }

  lemma BootHeaps(mem: Memory, first: nat, shell: Word, regs: Regs, below: Below)
    requires first + 2 < Blocks.KBLK_NUM
    ensures var s := System(Ownership.BootMachine(mem, first, shell, regs, below), [FreshHeap()]);
            Inv(s.m, first) && HeapsOk(s)
  {
    hide Inv, Boot, HeapOk;
    Ownership.BootKeepsInv(mem, first, shell, regs, below);
    Ownership.BootRecord(mem, first, shell);
    FreshHeapOk();
  }

  // ------------------------------------------------------------------ where blocks are

  /** Block id was handed out to task t, which is live. */
  ghost predicate Owns(s: System, t: nat, id: nat)
    requires |s.heaps| == |s.m.k.tasks|
  {
    t in Live(s.m) && id in s.heaps[t].used
  }

  /** Every block handed out lies in the page of its task, beyond the stack and the block descriptors. */
  lemma BlockInPage(s: System, first: nat, t: nat, id: nat)
    requires Inv(s.m, first) && HeapsOk(s) && Owns(s, t, id)
    ensures var page := s.m.k.tasks[t].stkBottom;
            && IsPageStart(page) && 3 <= id < 256
            && page + 0x3000 <= BlkStart(page, id) && BlkStart(page, id) + BLK_SIZE <= page + 0x10_0000
            && forall a :: BlkStart(page, id) <= a < BlkStart(page, id) + BLK_SIZE ==> Private(page, a)
  {
    hide Inv;
    LivePage(s.m, first, t);
    assert HeapOk(s.heaps[t]);
    PartitionUsed(FIRST_BLK, BLK_NUM, s.heaps[t].free, s.heaps[t].used, id);
  }

  /** No two blocks of live tasks share a byte. */
  lemma BlocksApart(s: System, first: nat, t: nat, id: nat, u: nat, id': nat)
    requires Inv(s.m, first) && HeapsOk(s) && Owns(s, t, id) && Owns(s, u, id') && (t != u || id != id')
    ensures var a, b := BlkStart(s.m.k.tasks[t].stkBottom, id), BlkStart(s.m.k.tasks[u].stkBottom, id');
            a + BLK_SIZE <= b || b + BLK_SIZE <= a
  {
    hide Inv, HeapsOk;
    BlockInPage(s, first, t, id);
    BlockInPage(s, first, u, id');
    if t != u {
      LivesElsewhere(s.m, first, t, u);
    }
  }

  /** What malloc returns, in the r0 slot of the caller's context, is the start of a block of the caller's own page that
      no live task held. */
  lemma MallocIsOwn(s: System, a: Action, s': System, first: nat)
    requires Inv(s.m, first) && HeapsOk(s) && a.Malloc? && Acts(s, a, s')
    ensures FRAME_BYTES <= s.m.regs.sp && s.heaps[s.m.k.cur].free != []
    ensures var t, id := s.m.k.cur, s.heaps[s.m.k.cur].free[0];
            && s'.m.k.mem[(s.m.regs.sp - FRAME_BYTES) / 4] == s.m.k.tasks[t].stkBottom + id * 0x1000
            && !Owns(s, t, id) && |s'.heaps| == |s'.m.k.tasks| && Owns(s', t, id)
            && s'.heaps == s.heaps[t := Heap(s.heaps[t].free[1..], s.heaps[t].used + [id])]
            && s'.m.k.tasks == s.m.k.tasks && HeapsOk(s')
  {
    hide Inv, Leads, HeapOk;
    ActKeepsHeaps(s, a, s', first);
    MallocRecord(s, a, s');
    var t := s.m.k.cur;
    LivePage(s.m, first, t);
    HeadIsFree(s.heaps[t]);
  }

  lemma HeadIsFree(h: Heap)
    requires HeapOk(h)
    ensures FIRST_BLK <= h.free[0] < BLK_NUM && h.free[0] !in h.used
  {
    PartitionHead(FIRST_BLK, BLK_NUM, h.free, h.used);
  }

  lemma MallocRecord(s: System, a: Action, s': System)
    requires a.Malloc? && Acts(s, a, s')
    ensures FRAME_BYTES <= s.m.regs.sp && s.m.k.cur in Live(s.m) && Live(s'.m) == Live(s.m)
    ensures s'.m.k.tasks == s.m.k.tasks && s'.m.k.mem[(s.m.regs.sp - FRAME_BYTES) / 4] == MallocResult(s)
    ensures s.m.k.cur == s'.m.k.cur
  {
    hide MallocResult, FrameSpot;
  }

  /** free takes a block from the task in whose page it lies, and from no other. */
  lemma FreeReturns(s: System, a: Action, s': System, first: nat)
    requires Inv(s.m, first) && HeapsOk(s) && a.Free? && Acts(s, a, s')
    ensures HeapsOk(s') && a.owner < |s.heaps| == |s'.heaps| && Owns(s, a.owner, WhichBlkIndex(a.address))
    ensures s'.heaps[a.owner].free == s.heaps[a.owner].free + [WhichBlkIndex(a.address)]
    ensures WhichBlkIndex(a.address) !in s'.heaps[a.owner].used
    ensures forall x :: x != WhichBlkIndex(a.address) ==> (x in s'.heaps[a.owner].used <==> x in s.heaps[a.owner].used)
    ensures forall t :: 0 <= t < |s.heaps| && t != a.owner ==> s'.heaps[t] == s.heaps[t]
    ensures var page := s.m.k.tasks[a.owner].stkBottom;
            page + WhichBlkIndex(a.address) * 0x1000 <= a.address < page + (WhichBlkIndex(a.address) + 1) * 0x1000
  {
    hide Inv, Leads, HeapOk, Without;
    ActKeepsHeaps(s, a, s', first);
    var id := WhichBlkIndex(a.address);
    assert HeapOk(s.heaps[a.owner]);
    UsedOnce(s.heaps[a.owner], id);
    WithoutMembers(s.heaps[a.owner].used, id);
    AddressInBlock(a.address);
  }

  lemma UsedOnce(h: Heap, id: nat)
    requires HeapOk(h) && id in h.used
    ensures NoDup(h.used)
  {
  }

  /** The block that which_blk counts out from the start of the page is the one the address lies in. */
  lemma AddressInBlock(address: Word)
    ensures var page := RoundDown(address, SECTION);
            BlkStart(page, WhichBlkIndex(address)) <= address < BlkStart(page, WhichBlkIndex(address)) + BLK_SIZE
  {
    var p, d := address / SECTION, address % SECTION;
    assert address == p * SECTION + d && d == d / BLK_SIZE * BLK_SIZE + d % BLK_SIZE;
    DivMod(address, BLK_SIZE, p * 256 + d / BLK_SIZE, d % BLK_SIZE);
    DivMod(d / BLK_SIZE * BLK_SIZE, BLK_SIZE, d / BLK_SIZE, 0);
  }
}
