/** memory.c, block half: descriptors of equal-sized blocks of one page, the unused ones on a linked list.  Kernel
    blocks (16 KiB) hold page tables and the IPC queue; the blocks of a task's page (4 KiB) serve malloc. */
module Blocks {
  import opened Words
  import opened Layout
  import opened Seqs
  import opened AllocatorRuns
  import opened DLists

  // status
  const FREE: nat := 0
  const FULL: nat := 2

  class BlkInfo {
    const id: nat
    const start: Word
    var next: BlkInfo?
    var prev: BlkInfo?
    var status: nat

    constructor (id: nat, start: Word)
      ensures this.id == id && this.start == start
    {
      this.id, this.start := id, start;
      next, prev := null, null;
      status := FREE;
    }
  }

  /** Descriptor i is that of block i ... */
  ghost predicate Numbered(blks: seq<BlkInfo>) {
    forall i :: 0 <= i < |blks| ==> blks[i].id == i
  }

  /** ... whose first byte is base + i * size. */
  ghost predicate Placed(blks: seq<BlkInfo>, base: Word, size: nat) {
    forall i :: 0 <= i < |blks| ==> blks[i].start == base + i * size
  }

  ghost function Nexts(blks: seq<BlkInfo>): (nx: seq<BlkInfo?>)
    reads blks`next
    ensures |nx| == |blks| && forall i :: 0 <= i < |blks| ==> nx[i] == blks[i].next
  {
    if blks == [] then [] else [blks[0].next] + Nexts(blks[1..])
  }

  ghost function Prevs(blks: seq<BlkInfo>): (pv: seq<BlkInfo?>)
    reads blks`prev
    ensures |pv| == |blks| && forall i :: 0 <= i < |blks| ==> pv[i] == blks[i].prev
  {
    if blks == [] then [] else [blks[0].prev] + Prevs(blks[1..])
  }

  /** The blocks numbered ids, in that order, make up the list that starts at head; the prev field of the head may
      point anywhere. */
  ghost predicate List(blks: seq<BlkInfo>, ids: seq<nat>, head: BlkInfo?)
    reads blks`next, blks`prev
  {
    Linked(blks, Nexts(blks), Prevs(blks), null, ids, head)
  }

  /** The head of a list tells whether it is empty. */
  lemma ListHead(blks: seq<BlkInfo>, ids: seq<nat>, head: BlkInfo?)
    requires List(blks, ids, head)
    ensures head == null <==> ids == []
    ensures ids != [] ==> ids[0] < |blks| && head == blks[ids[0]]
  {
    hide Linked, Nexts, Prevs;
    HeadIsNil(blks, Nexts(blks), Prevs(blks), null, ids, head);
  }

  /** The whole table in order, from some block on. */
  lemma ListFrom(blks: seq<BlkInfo>, k: nat)
    requires k < |blks| && List(blks, Range(0, |blks|), blks[0])
    ensures List(blks, Range(k, |blks|), blks[k])
  {
    hide Linked, Nexts, Prevs;
    LinkedSuffix(blks, Nexts(blks), Prevs(blks), null, Range(0, |blks|), blks[0], k);
    assert Range(0, |blks|)[k..] == Range(k, |blks|);
  }

  method SetNext(ghost blks: seq<BlkInfo>, blk: BlkInfo, next: BlkInfo?)
    requires Numbered(blks) && blk.id < |blks| && blk == blks[blk.id]
    modifies blk`next
    ensures Nexts(blks) == old(Nexts(blks))[blk.id := next] && Prevs(blks) == old(Prevs(blks))
  {
    hide Nexts, Prevs;
    blk.next := next;
  }

  method SetPrev(ghost blks: seq<BlkInfo>, blk: BlkInfo, prev: BlkInfo?)
    requires Numbered(blks) && blk.id < |blks| && blk == blks[blk.id]
    modifies blk`prev
    ensures Prevs(blks) == old(Prevs(blks))[blk.id := prev] && Nexts(blks) == old(Nexts(blks))
  {
    hide Nexts, Prevs;
    blk.prev := prev;
  }

  /** Descriptors of n blocks, linked in order, as the loops of blks_init and kpage_blks_init leave them. */
  method ChainBlocks(n: nat, base: Word, size: nat) returns (blks: seq<BlkInfo>)
    requires 0 < n && base + n * size <= WORD_RANGE && 0 < size
    ensures |blks| == n && Numbered(blks) && Placed(blks, base, size) && fresh(blks)
    ensures List(blks, Range(0, n), blks[0])
  {
    hide Nexts, Prevs;
    blks := [];
    while |blks| < n
      invariant |blks| <= n && fresh(blks)
      invariant Numbered(blks) && Placed(blks, base, size)
    {
      BlockFits(|blks|, n, base, size);
      var blk := new BlkInfo(|blks|, base + |blks| * size);
      blks := blks + [blk];
    }
    var i := 0;
    while i < n
      invariant 0 <= i <= n
      invariant i == n ==> blks[n - 1].next == null
      invariant forall j, k :: 0 <= j && k == j + 1 && j < i && k < n ==> blks[j].next == blks[k]
      invariant forall j, k :: 0 <= j && k == j + 1 && k < i ==> blks[k].prev == blks[j]
    {
      blks[i].status := FREE;
      blks[i].prev := if i == 0 then null else blks[i - 1];
      blks[i].next := if i == n - 1 then null else blks[i + 1];
      i := i + 1;
    }
  }

  lemma BlockFits(i: nat, n: nat, base: Word, size: nat)
    requires i < n && 0 < size && base + n * size <= WORD_RANGE
    ensures base + i * size + size <= WORD_RANGE
  {
    assert n * size == (n - i - 1) * size + i * size + size;
  }

  /** Two different blocks of the same page do not overlap. */
  lemma BlocksDisjoint(base: Word, size: nat, i: nat, j: nat)
    requires i < j
    ensures base + i * size + size <= base + j * size
  {
    var d := j - i - 1;
    assert j * size == i * size + size + d * size;
  }

  /** The last node of a non-empty list. */
  method ListEnd(ghost blks: seq<BlkInfo>, ghost ids: seq<nat>, head: BlkInfo) returns (end: BlkInfo)
    requires ids != [] && List(blks, ids, head)
    ensures ids[|ids| - 1] < |blks| && end == blks[ids[|ids| - 1]]
  {
    hide Linked, Nexts, Prevs;
    end := head;
    ghost var k := 0;
    LinkedNext(blks, Nexts(blks), Prevs(blks), null, ids, head, 0);
    while end.next != null
      invariant 0 <= k < |ids| && ids[k] < |blks| && end == blks[ids[k]]
      invariant k + 1 < |ids| ==> ids[k + 1] < |blks|
      invariant end.next == if k + 1 < |ids| then blks[ids[k + 1]] else null
      decreases |ids| - k
    {
      end := end.next;
      k := k + 1;
      LinkedNext(blks, Nexts(blks), Prevs(blks), null, ids, head, k);
    }
  }

  /** The second node of the list becomes its head and loses its prev field. */
  method DetachHead(ghost blks: seq<BlkInfo>, ghost ids: seq<nat>, head: BlkInfo) returns (next: BlkInfo)
    requires Numbered(blks) && List(blks, ids, head) && NoDup(ids) && 2 <= |ids|
    modifies blks`next, blks`prev
    ensures ids[0] < |blks| && head == blks[ids[0]]
    ensures List(blks, ids[1..], next)
  {
    hide Linked, Nexts, Prevs, NoDup;
    ghost var nx, pv := Nexts(blks), Prevs(blks);
    LinkedNext(blks, nx, pv, null, ids, head, 0);
    next := head.next;
    SetPrev(blks, next, null);
    SetNext(blks, head, null);
    SetPrev(blks, head, null);
    LinkedTail(blks, nx, pv, null, ids, head);
    TailUntouched(ids);
    LinkedHeadPrev(blks, nx, pv, null, ids[1..], next, null);
    LinkedNextApart(blks, nx, pv[ids[1] := null], null, ids[1..], next, ids[0], null);
    LinkedPrevApart(blks, nx[ids[0] := null], pv[ids[1] := null], null, ids[1..], next, ids[0], null);
  }

  /** Appends a block that is not on the list. */
  method AttachEnd(ghost blks: seq<BlkInfo>, ghost ids: seq<nat>, head: BlkInfo, blk: BlkInfo)
    requires Numbered(blks) && List(blks, ids, head) && NoDup(ids) && ids != []
    requires blk.id < |blks| && blk == blks[blk.id] && blk.id !in ids
    modifies blks`next, blks`prev
    ensures List(blks, ids + [blk.id], head)
  {
    hide Linked, Nexts, Prevs, NoDup;
    ghost var nx, pv := Nexts(blks), Prevs(blks);
    var end := ListEnd(blks, ids, head);
    LinkedAppend(blks, nx, pv, null, ids, head, blk.id);
    SetNext(blks, end, blk);
    SetPrev(blks, blk, end);
    SetNext(blks, blk, null);
  }

  // ------------------------------------------------------------------ kernel blocks

  const KPAGE_START: Word := 0x8200_0000
  const KPAGE_END: Word := 0x8210_0000
  const KBLK_SIZE: nat := 0x4000
  const KBLK_NUM: nat := 64

  function KblkStart(i: nat): Word
    requires i < KBLK_NUM
  {
    KPAGE_START + i * KBLK_SIZE
  }

  /** Index of the first block of the initial free list: the rounded end of kernel data counted in 4 KiB units,
      although descriptors stand for 16 KiB each. */
  function FirstKblk(freeStart: Word): int {
    (RoundUp(freeStart, KBLK_SIZE) - KPAGE_START) / 4096
  }

  /** That index stays inside the table exactly when the rounded end is under 256 KiB above 0x82000000; then every
      block from it on is 16 KiB aligned, lies above the kernel data and inside the kernel page. */
  lemma KblkPlacement(freeStart: Word)
    requires KPAGE_START <= freeStart < KPAGE_END
    ensures 0 <= FirstKblk(freeStart) < KBLK_NUM <==> RoundUp(freeStart, KBLK_SIZE) < KPAGE_START + 0x4_0000
    ensures forall i: nat :: FirstKblk(freeStart) <= i < KBLK_NUM ==>
              KblkStart(i) % KBLK_SIZE == 0 && freeStart <= RoundUp(freeStart, KBLK_SIZE) <= KblkStart(i)
              && KblkStart(i) + KBLK_SIZE <= KPAGE_END
  {
    RoundUpExact(freeStart, KBLK_SIZE);
    var end := RoundUp(freeStart, KBLK_SIZE);
    var q := end / KBLK_SIZE;
    assert end == q * KBLK_SIZE;
    assert FirstKblk(freeStart) == (q - 0x2_0800) * 4;
    forall i: nat | FirstKblk(freeStart) <= i < KBLK_NUM
      ensures KblkStart(i) % KBLK_SIZE == 0 && end <= KblkStart(i) && KblkStart(i) + KBLK_SIZE <= KPAGE_END
    {
      assert KblkStart(i) == (0x2_0800 + i) * KBLK_SIZE;
      DivMod(KblkStart(i), KBLK_SIZE, 0x2_0800 + i, 0);
    }
  }

  /** With kernel data that rounds up to 256 KiB, the index is one past the table of 64 descriptors. */
  lemma KblkIndexFails()
    ensures FirstKblk(0x8203_d000) == KBLK_NUM
  {
    WrapIs(0x8203_d000 + KBLK_SIZE - 1, 0, 0x8203_d000 + KBLK_SIZE - 1);
    assert RoundUp(0x8203_d000, KBLK_SIZE) == 0x8204_0000 by {
      DivMod(0x8203_d000 + KBLK_SIZE - 1, KBLK_SIZE, 0x2_0810, 0xfff);
    }
  }

  class KernelBlocks {
    /** kblk_list_base: the whole table. */
    const blks: seq<BlkInfo>
    /** kpage.blk_list_head. */
    var head: BlkInfo?

    ghost const first: nat
    ghost var free: seq<nat>
    ghost var used: seq<nat>

    ghost predicate Valid()
      reads this, blks
    {
      && |blks| == KBLK_NUM && Numbered(blks) && Placed(blks, KPAGE_START, KBLK_SIZE)
      && Partition(first, KBLK_NUM, free, used)
      && List(blks, free, head)
    }

    /** kpage_blks_init, with kpage.free_start after the descriptors as its argument. */
    constructor (freeStart: Word)
      requires KPAGE_START <= freeStart && RoundUp(freeStart, KBLK_SIZE) < KPAGE_START + 0x4_0000
      requires freeStart < KPAGE_END
      ensures Valid() && fresh(blks)
      ensures first == FirstKblk(freeStart) < 64 && free == Range(first, 64) && used == []
    {
      hide List, Partition, Range;
      KblkPlacement(freeStart);
      var list := ChainBlocks(KBLK_NUM, KPAGE_START, KBLK_SIZE);
      var index: nat := FirstKblk(freeStart);
      blks := list;
      head := list[index];
      first := index;
      free, used := Range(index, KBLK_NUM), [];
      new;
      ListFrom(blks, index);
      RangePartition(index, KBLK_NUM);
    }

    /** kblk_alloc: needs a second free block, whose prev field it clears. */
    method Alloc(purpose: nat) returns (start: Word)
      requires Valid() && 2 <= |free|
      modifies this`head, this`free, this`used, blks
      ensures Valid()
      ensures free == old(free)[1..] && used == old(used) + [old(free)[0]]
      ensures old(free)[0] < KBLK_NUM && start == KblkStart(old(free)[0]) == 0x8200_0000 + old(free)[0] * 0x4000
      ensures blks[old(free)[0]].status == purpose
    {
      hide List, Partition, Placed, NoDup;
      ghost var ids := free;
      PartitionHead(first, KBLK_NUM, free, used);
      ListHead(blks, ids, head);
      MoveHead(first, KBLK_NUM, free, used);
      var ret := head;
      head := DetachHead(blks, ids, ret);
      ret.status := purpose;
      free, used := ids[1..], used + [ids[0]];
      start := StartOf(ret);
    }

    method StartOf(blk: BlkInfo) returns (start: Word)
      requires Placed(blks, KPAGE_START, KBLK_SIZE) && |blks| == KBLK_NUM && blk.id < KBLK_NUM && blk == blks[blk.id]
      ensures start == KblkStart(blk.id)
    {
      start := blk.start;
    }

    /** The table scan of kblk_free and which_kblk.  Its bound of 256 lies past the 64 entries, so it stays inside only
        because it stops at the block that is looked for. */
    method Scan(blkStart: Word, ghost id: nat) returns (target: BlkInfo)
      requires |blks| == KBLK_NUM && Placed(blks, KPAGE_START, KBLK_SIZE)
      requires id < KBLK_NUM && blkStart == KblkStart(id)
      ensures target == blks[id]
    {
      var i := 0;
      while i < 256
        invariant 0 <= i <= id
        decreases 256 - i
      {
        if blks[i].start == blkStart {
          break;
        }
        i := i + 1;
      }
      target := blks[i];
    }

    /** kblk_free: rounds the address down to 4 KiB, finds the block that starts there and appends it to the free
        list, which must not be empty. */
    method Free(address: Word, ghost id: nat)
      requires Valid() && free != []
      requires id in used && RoundDown(address, 4096) == KblkStart(id)
      modifies this`free, this`used, blks
      ensures Valid()
      ensures free == old(free) + [id] && used == Without(old(used), id) && blks[id].status == FREE
    {
      hide List, Partition, Without, Placed, NoDup;
      PartitionUsed(first, KBLK_NUM, free, used, id);
      var blkStart := RoundDown(address, 4096);
      var target := Scan(blkStart, id);
      ListHead(blks, free, head);
      MoveBack(first, KBLK_NUM, free, used, id);
      AttachEnd(blks, free, head, target);
      target.status := FREE;
      free, used := free + [id], Without(used, id);
    }
  }

  // ------------------------------------------------------------------ blocks of a task's page

  const BLK_SIZE: nat := 0x1000
  const BLK_NUM: nat := 256
  const BLK_INFO_BYTES: nat := 28      // sizeof(struct BLK_INFO)
  const FIRST_BLK: nat := 3            // block 0 is the task's, 1 and 2 hold the descriptors

  /** A page start for which all addresses of the page are words. */
  predicate IsPage(pgstart: Word) {
    pgstart % SECTION == 0
  }

  function BlkStart(pgstart: Word, i: nat): int {
    pgstart + i * BLK_SIZE
  }

  /** Where blks_init puts descriptor i of a page. */
  function DescriptorAddress(pgstart: Word, i: nat): int {
    pgstart + BLK_SIZE + i * BLK_INFO_BYTES
  }

  /** Index computed by which_blk. */
  function WhichBlkIndex(address: Word): nat {
    (RoundDown(address, BLK_SIZE) - RoundDown(address, SECTION)) / BLK_SIZE
  }

  /** Address computed by which_blk. */
  function WhichBlk(address: Word): int {
    DescriptorAddress(RoundDown(address, SECTION), WhichBlkIndex(address))
  }

  /** which_blk inverts the descriptor-to-block map on every address inside a block, and the descriptor it finds lies
      in the page of the block, below the blocks that malloc hands out. */
  lemma WhichBlkInverts(pgstart: Word, i: nat, address: Word)
    requires IsPage(pgstart) && i < BLK_NUM
    requires BlkStart(pgstart, i) <= address < BlkStart(pgstart, i) + BLK_SIZE
    ensures WhichBlkIndex(address) == i
    ensures WhichBlk(address) == DescriptorAddress(pgstart, i) == pgstart + 0x1000 + i * 28
    ensures WhichBlk(address) < WORD_RANGE && RoundDown(WhichBlk(address), SECTION) == pgstart
    ensures WhichBlk(address) + 28 <= BlkStart(pgstart, 3)
  {
    var p := pgstart / SECTION;
    assert pgstart == p * SECTION;
    DivMod(address, SECTION, p, address - pgstart);
    DivMod(address, BLK_SIZE, p * 256 + i, address - BlkStart(pgstart, i));
    assert RoundDown(address, SECTION) == pgstart;
    assert RoundDown(address, BLK_SIZE) == BlkStart(pgstart, i);
    DivMod(i * BLK_SIZE, BLK_SIZE, i, 0);
    var d := DescriptorAddress(pgstart, i);
    DivMod(d, SECTION, p, d - pgstart);
  }

  class PageBlocks {
    const pgstart: Word
    const blks: seq<BlkInfo>
    /** blk_list_head of the page. */
    var head: BlkInfo?

    ghost var free: seq<nat>
    ghost var live: seq<nat>

    ghost predicate Valid()
      reads this, blks
    {
      && IsPage(pgstart) && |blks| == BLK_NUM && Numbered(blks) && Placed(blks, pgstart, BLK_SIZE)
      && Partition(FIRST_BLK, BLK_NUM, free, live)
      && List(blks, free, head)
    }

    /** blks_init.  Its test for an earlier initialisation never succeeds: blk_not_init is compared with FALSE where it
        was meant to be assigned. */
    constructor (pgstart: Word)
      requires IsPage(pgstart)
      ensures Valid() && fresh(blks) && this.pgstart == pgstart
      ensures free == Range(3, 256) && live == []
    {
      hide List, Partition, Range;
      assert pgstart + BLK_NUM * BLK_SIZE <= WORD_RANGE;
      var list := ChainBlocks(BLK_NUM, pgstart, BLK_SIZE);
      this.pgstart := pgstart;
      blks := list;
      head := list[3];
      free, live := Range(FIRST_BLK, BLK_NUM), [];
      new;
      blks[0].status := FULL;
      blks[1].status := FULL;
      blks[2].status := FULL;
      ListFrom(blks, FIRST_BLK);
      RangePartition(FIRST_BLK, BLK_NUM);
    }

    /** blk_alloc with at least two free blocks: the block keeps its link fields. */
    method Alloc() returns (start: Word)
      requires Valid() && 2 <= |free|
      modifies this`head, this`free, this`live, blks`prev
      ensures Valid()
      ensures free == old(free)[1..] && live == old(live) + [old(free)[0]]
      ensures old(free)[0] < BLK_NUM && start == BlkStart(pgstart, old(free)[0]) == pgstart + old(free)[0] * 0x1000
    {
      hide Linked, Nexts, Prevs, Partition, NoDup;
      ghost var ids, nx, pv := free, Nexts(blks), Prevs(blks);
      PartitionHead(FIRST_BLK, BLK_NUM, free, live);
      LinkedNext(blks, nx, pv, null, ids, head, 0);
      var ret := head;
      if ret.next == null {
        // no_free_blks is set here, and then the missing successor is dereferenced
        assert false;
      }
      head := ret.next;
      SetPrev(blks, ret.next, null);
      LinkedTail(blks, nx, pv, null, ids, ret);
      TailUntouched(ids);
      LinkedHeadPrev(blks, nx, pv, null, ids[1..], head, null);
      MoveHead(FIRST_BLK, BLK_NUM, free, live);
      free, live := ids[1..], live + [ids[0]];
      start := ret.start;
    }

    /** free_blk for an address inside a live block.  An empty list takes the block over with the next field it came
        with, which blk_alloc has not cleared: that is right exactly if the field is NULL. */
    method Free(address: Word, ghost id: nat)
      requires Valid()
      requires id in live && BlkStart(pgstart, id) <= address < BlkStart(pgstart, id) + BLK_SIZE
      modifies this`head, this`free, this`live, blks`next, blks`prev
      ensures |blks| == BLK_NUM && id < BLK_NUM
      ensures Valid() <==> old(free) != [] || old(blks[id].next) == null
      ensures free == old(free) + [id] && live == Without(old(live), id)
      ensures head == if old(free) == [] then blks[id] else old(head)
    {
      hide Linked, Nexts, Prevs, Partition, NoDup, Without, Placed;
      PartitionUsed(FIRST_BLK, BLK_NUM, free, live, id);
      WhichBlkInverts(pgstart, id, address);
      var blk := blks[WhichBlkIndex(address)];
      HeadIsNil(blks, Nexts(blks), Prevs(blks), null, free, head);
      MoveBack(FIRST_BLK, BLK_NUM, free, live, id);
      if head == null {
        head := blk;
        OneNode(blks, Nexts(blks), Prevs(blks), null, id);
        assert free + [id] == [id];
      } else {
        AttachEnd(blks, free, head, blk);
      }
      free, live := free + [id], Without(live, id);
    }
  }

  // ------------------------------------------------------------------ runs

  /** After any sequence of allocations and releases that starts from blks_init, every block from 3 to 255 is live or
      free and not both, live blocks do not overlap, and they leave the task block and the descriptors alone. */
  lemma AnyRun(pgstart: Word, ops: seq<Op>, free: seq<nat>, live: seq<nat>)
    requires Runs(ops, Range(FIRST_BLK, BLK_NUM), [], free, live)
    ensures Partition(FIRST_BLK, BLK_NUM, free, live) && |free| + |live| == BLK_NUM - FIRST_BLK
    ensures forall i, j :: 0 <= i < j < |live| ==>
              BlkStart(pgstart, live[i]) + BLK_SIZE <= BlkStart(pgstart, live[j])
              || BlkStart(pgstart, live[j]) + BLK_SIZE <= BlkStart(pgstart, live[i])
    ensures forall i :: 0 <= i < |live| ==> BlkStart(pgstart, FIRST_BLK) <= BlkStart(pgstart, live[i])
    ensures DescriptorAddress(pgstart, BLK_NUM - 1) + BLK_INFO_BYTES <= BlkStart(pgstart, FIRST_BLK)
  {
    RangePartition(FIRST_BLK, BLK_NUM);
    RunsKeepPartition(FIRST_BLK, BLK_NUM, ops, Range(FIRST_BLK, BLK_NUM), [], free, live);
    PartitionCount(FIRST_BLK, BLK_NUM, free, live);
    assert forall i :: 0 <= i < |live| ==> live[i] in live;
  }
}
