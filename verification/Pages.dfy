/** memory.c, page half: 1 MiB pages described by nodes that sit either on the free list or on the in-use list. */
module Pages {
  import opened Words
  import opened Layout
  import opened Seqs
  import opened AllocatorRuns
  import opened DLists

  const PAGE_NUM: int := 446
  const TASK_STACK_SIZE: int := 4096

  // page_status
  const FREE: nat := 0
  const INUSE: nat := 1
  const FULL: nat := 2
  const FOR_TASK: nat := 3

  /** First byte of page i. */
  function PageStart(i: nat): Word
    requires i <= PAGE_NUM
  {
    UMEM_START + i * SECTION
  }

  /** The pages tile [0x82100000, 0x9df00000): every address there lies in exactly one page, found by ROUNDDOWN. */
  lemma PagesTile(a: Word)
    requires 0x8210_0000 <= a < 0x9df0_0000
    ensures exists i: nat :: i < PAGE_NUM && PageStart(i) == RoundDown(a, SECTION) <= a < PageStart(i) + 0x10_0000
    ensures forall i: nat :: i < PAGE_NUM && PageStart(i) <= a < PageStart(i) + 0x10_0000
              ==> PageStart(i) == RoundDown(a, SECTION)
    ensures PageStart(0) == 0x8210_0000 && PageStart(PAGE_NUM) == 0x9df0_0000
  {
    var i := (a - UMEM_START) / SECTION;
    assert a - UMEM_START == i * SECTION + (a - UMEM_START) % SECTION;
    PageOfAddress(i, a);
    forall j: nat | j < PAGE_NUM && PageStart(j) <= a < PageStart(j) + SECTION
      ensures PageStart(j) == RoundDown(a, SECTION)
    {
      PageOfAddress(j, a);
    }
  }

  lemma PageOfAddress(i: nat, a: Word)
    requires i < PAGE_NUM && PageStart(i) <= a < PageStart(i) + SECTION
    ensures RoundDown(a, SECTION) == PageStart(i)
  {
    DivMod(a, SECTION, 0x821 + i, a - PageStart(i));
  }

  /** The page number which_page settles on: the first of the list that starts at pg, or the last one. */
  function WhichPageId(ids: seq<nat>, pg: Word): nat
    requires ids != [] && forall i :: 0 <= i < |ids| ==> ids[i] <= PAGE_NUM
  {
    if |ids| == 1 || PageStart(ids[0]) == pg then ids[0] else WhichPageId(ids[1..], pg)
  }

  lemma {:induction false} WhichPageIdAt(ids: seq<nat>, pg: Word, k: nat)
    requires k < |ids| && forall i :: 0 <= i < |ids| ==> ids[i] <= PAGE_NUM
    requires forall i :: 0 <= i < k ==> PageStart(ids[i]) != pg
    requires k == |ids| - 1 || PageStart(ids[k]) == pg
    ensures WhichPageId(ids, pg) == ids[k]
  {
    if k != 0 {
      WhichPageIdAt(ids[1..], pg, k - 1);
    }
  }

  /** An in-use page is found by any address inside it. */
  lemma WhichPageFinds(ids: seq<nat>, id: nat, address: Word)
    requires id in ids && id < PAGE_NUM && forall i :: 0 <= i < |ids| ==> ids[i] <= PAGE_NUM
    requires PageStart(id) <= address < PageStart(id) + SECTION
    ensures WhichPageId(ids, RoundDown(address, SECTION)) == id
  {
    PageOfAddress(id, address);
    var k :| 0 <= k < |ids| && ids[k] == id;
    WhichPageIdAt(ids, PageStart(id), FirstAt(ids, PageStart(id), k));
  }

  /** The first position not after k that holds the page starting at pg. */
  ghost function FirstAt(ids: seq<nat>, pg: Word, k: nat): (f: nat)
    requires k < |ids| && forall i :: 0 <= i < |ids| ==> ids[i] <= PAGE_NUM
    requires PageStart(ids[k]) == pg
    ensures f <= k && PageStart(ids[f]) == pg && forall i :: 0 <= i < f ==> PageStart(ids[i]) != pg
  {
    if i :| 0 <= i < k && PageStart(ids[i]) == pg then FirstAt(ids, pg, i) else k
  }

  /** Descriptor of page i.  The address fields are written once, by page_list_init. */
  class PageInfo {
    const pageId: nat
    const pgstart: Word
    const taskStkTop: Word
    const top: Word
    var next: PageInfo?
    var prev: PageInfo?
    var pageStatus: nat

    constructor (i: nat)
      requires i <= PAGE_NUM
      ensures pageId == i && pgstart == PageStart(i) == 0x8210_0000 + i * 0x10_0000
      ensures taskStkTop == pgstart + 0xffc && top == pgstart + 0xf_fffc
    {
      pageId := i;
      pgstart := UMEM_START + i * SECTION;
      taskStkTop := UMEM_START + i * SECTION + 4 * (TASK_STACK_SIZE / 4 - 1);
      top := UMEM_START + i * SECTION + 4 * (SECTION / 4 - 1);
      next, prev := null, null;
      pageStatus := FREE;
    }
  }

  ghost predicate Described(pages: seq<PageInfo>) {
    forall i :: 0 <= i < |pages| ==>
      && i <= PAGE_NUM
      && pages[i].pageId == i && pages[i].pgstart == PageStart(i)
      && pages[i].taskStkTop == PageStart(i) + 0xffc && pages[i].top == PageStart(i) + 0xf_fffc
  }

  ghost function Nexts(pages: seq<PageInfo>): (nx: seq<PageInfo?>)
    reads pages`next
    ensures |nx| == |pages| && forall i :: 0 <= i < |pages| ==> nx[i] == pages[i].next
  {
    if pages == [] then [] else [pages[0].next] + Nexts(pages[1..])
  }

  ghost function Prevs(pages: seq<PageInfo>): (pv: seq<PageInfo?>)
    reads pages`prev
    ensures |pv| == |pages| && forall i :: 0 <= i < |pages| ==> pv[i] == pages[i].prev
  {
    if pages == [] then [] else [pages[0].prev] + Prevs(pages[1..])
  }

  /** The pages numbered ids, in that order, make up the list that starts at head. */
  ghost predicate List(pages: seq<PageInfo>, ids: seq<nat>, head: PageInfo?)
    reads pages`next, pages`prev
  {
    Anchored(pages, Nexts(pages), Prevs(pages), null, ids, head)
  }

  /** The last node of a non-empty list, found by walking next pointers. */
  method ListEnd(ghost pages: seq<PageInfo>, ghost ids: seq<nat>, head: PageInfo) returns (end: PageInfo)
    requires ids != [] && List(pages, ids, head)
    ensures end == pages[ids[|ids| - 1]]
  {
    hide Linked, Nexts, Prevs;
    end := head;
    ghost var k := 0;
    LinkedNext(pages, Nexts(pages), Prevs(pages), null, ids, head, 0);
    while end.next != null
      invariant 0 <= k < |ids| && end == pages[ids[k]]
      invariant end.next == if k + 1 < |ids| then pages[ids[k + 1]] else null
      decreases |ids| - k
    {
      end := end.next;
      k := k + 1;
      LinkedNext(pages, Nexts(pages), Prevs(pages), null, ids, head, k);
    }
  }

  method SetNext(ghost pages: seq<PageInfo>, page: PageInfo, ghost id: nat, next: PageInfo?)
    requires Described(pages) && id < |pages| && page == pages[id]
    modifies page`next
    ensures Nexts(pages) == old(Nexts(pages))[id := next] && Prevs(pages) == old(Prevs(pages))
  {
    hide Nexts, Prevs;
    page.next := next;
  }

  method SetPrev(ghost pages: seq<PageInfo>, page: PageInfo, ghost id: nat, prev: PageInfo?)
    requires Described(pages) && id < |pages| && page == pages[id]
    modifies page`prev
    ensures Prevs(pages) == old(Prevs(pages))[id := prev] && Nexts(pages) == old(Nexts(pages))
  {
    hide Nexts, Prevs;
    page.prev := prev;
  }

  method LinkNode(ghost pages: seq<PageInfo>, page: PageInfo, ghost id: nat, next: PageInfo?, prev: PageInfo?)
    requires Described(pages) && id < |pages| && page == pages[id]
    modifies page`next, page`prev
    ensures Nexts(pages) == old(Nexts(pages))[id := next]
    ensures Prevs(pages) == old(Prevs(pages))[id := prev]
  {
    hide Nexts, Prevs;
    SetNext(pages, page, id, next);
    SetPrev(pages, page, id, prev);
  }

  /** The page numbered id becomes the only one of its list, ... */
  method LinkAlone(ghost pages: seq<PageInfo>, page: PageInfo, ghost id: nat)
    requires Described(pages) && id < |pages| && page == pages[id] && page.prev == null
    modifies page`next
    ensures List(pages, [id], page)
    ensures Nexts(pages) == old(Nexts(pages))[id := null] && Prevs(pages) == old(Prevs(pages))
  {
    hide Linked, Nexts, Prevs, Described;
    SetNext(pages, page, id, null);
    SingleNode(pages, Nexts(pages), Prevs(pages), null, id);
  }

  /** ... or the one behind the last. */
  method LinkBehind(ghost pages: seq<PageInfo>, end: PageInfo, page: PageInfo, ghost ids: seq<nat>, ghost id: nat,
                    ghost head: PageInfo)
    requires Described(pages) && List(pages, ids, head) && NoDup(ids) && ids != []
    requires ids[|ids| - 1] in ids && ids[|ids| - 1] < |pages| && end == pages[ids[|ids| - 1]]
    requires id < |pages| && page == pages[id] && id !in ids
    modifies end`next, page`next, page`prev
    ensures List(pages, ids + [id], head)
    ensures forall i :: 0 <= i < |pages| && i != id && i !in ids ==>
              Nexts(pages)[i] == old(Nexts(pages))[i] && Prevs(pages)[i] == old(Prevs(pages))[i]
  {
    hide Linked, Nexts, Prevs, Described, NoDup;
    LinkedAppend(pages, Nexts(pages), Prevs(pages), null, ids, head, id);
    SetNext(pages, end, ids[|ids| - 1], page);
    LinkNode(pages, page, id, null, end);
  }

  /** The three branches of delete_from_inuse_list: the page is the head (as in page_alloc for the free list), ... */
  method UnlinkFirst(ghost pages: seq<PageInfo>, page: PageInfo, ghost ids: seq<nat>) returns (head: PageInfo)
    requires Described(pages) && NoDup(ids) && List(pages, ids, page) && 2 <= |ids|
    modifies pages`next, pages`prev
    ensures List(pages, Without(ids, ids[0]), head) && page.prev == null
    ensures forall i :: 0 <= i < |pages| && i !in ids ==>
              Nexts(pages)[i] == old(Nexts(pages))[i] && Prevs(pages)[i] == old(Prevs(pages))[i]
  {
    hide Linked, Nexts, Prevs, Described, NoDup, Without;
    ghost var nx, pv := Nexts(pages), Prevs(pages);
    LinkedNext(pages, nx, pv, null, ids, page, 0);
    RemoveHead(pages, nx, pv, null, ids, page);
    TailUntouched(ids);
    assert ids[0] in ids && ids[1] in ids;
    head := page.next;
    SetPrev(pages, head, ids[1], null);
    SetNext(pages, page, ids[0], null);
  }

  lemma ListHead(pages: seq<PageInfo>, ids: seq<nat>, head: PageInfo?)
    requires List(pages, ids, head) && ids != []
    ensures ids[0] < |pages| && head == pages[ids[0]]
  {
  }

  /** A second list that shares no page with the first stays what it was. */
  method UnlinkHead(ghost pages: seq<PageInfo>, page: PageInfo, ghost ids: seq<nat>, ghost others: seq<nat>,
                    ghost other: PageInfo?)
    returns (head: PageInfo)
    requires Described(pages) && NoDup(ids) && List(pages, ids, page) && 2 <= |ids|
    requires List(pages, others, other) && forall i :: i in others ==> i !in ids
    modifies pages`next, pages`prev
    ensures List(pages, ids[1..], head) && List(pages, others, other)
  {
    hide Linked, Nexts, Prevs, Without, NoDup, Described;
    ghost var nx, pv := Nexts(pages), Prevs(pages);
    WithoutAt(ids, 0);
    assert ids[..0] + ids[1..] == ids[1..];
    head := UnlinkFirst(pages, page, ids);
    LinkedFrame(pages, nx, pv, Nexts(pages), Prevs(pages), null, others, other);
  }

  /** ... the last page of the list, ... */
  method UnlinkLast(ghost pages: seq<PageInfo>, page: PageInfo, prev: PageInfo, ghost ids: seq<nat>,
                    ghost head: PageInfo)
    requires Described(pages) && NoDup(ids) && List(pages, ids, head) && 2 <= |ids|
    requires forall i :: i in ids ==> i < |pages|
    requires ids[|ids| - 1] in ids && page == pages[ids[|ids| - 1]]
    requires ids[|ids| - 2] in ids && prev == pages[ids[|ids| - 2]]
    modifies pages`next, pages`prev
    ensures List(pages, Without(ids, ids[|ids| - 1]), head) && page.prev == null
    ensures forall i :: 0 <= i < |pages| && i !in ids ==>
              Nexts(pages)[i] == old(Nexts(pages))[i] && Prevs(pages)[i] == old(Prevs(pages))[i]
  {
    hide Linked, Nexts, Prevs, Described, NoDup, Without;
    ghost var nx, pv, k := Nexts(pages), Prevs(pages), |ids| - 1;
    RemoveLast(pages, nx, pv, null, ids, head);
    SetNext(pages, prev, ids[k - 1], null);
    SetPrev(pages, page, ids[k], null);
  }

  /** ... or between two others. */
  method UnlinkMiddle(ghost pages: seq<PageInfo>, page: PageInfo, prev: PageInfo, next: PageInfo, ghost ids: seq<nat>,
                      ghost head: PageInfo, ghost k: nat)
    requires Described(pages) && NoDup(ids) && List(pages, ids, head) && 0 < k < |ids| - 1
    requires forall i :: i in ids ==> i < |pages|
    requires ids[k] in ids && page == pages[ids[k]]
    requires ids[k - 1] in ids && prev == pages[ids[k - 1]]
    requires ids[k + 1] in ids && next == pages[ids[k + 1]]
    modifies pages`next, pages`prev
    ensures List(pages, Without(ids, ids[k]), head) && page.prev == null
    ensures forall i :: 0 <= i < |pages| && i !in ids ==>
              Nexts(pages)[i] == old(Nexts(pages))[i] && Prevs(pages)[i] == old(Prevs(pages))[i]
  {
    hide Linked, Nexts, Prevs, Described, NoDup, Without;
    ghost var nx, pv := Nexts(pages), Prevs(pages);
    LinkedNext(pages, nx, pv, null, ids, head, k);
    RemoveMiddle(pages, nx, pv, null, ids, head, k);
    SetNext(pages, prev, ids[k - 1], next);
    SetPrev(pages, next, ids[k + 1], prev);
    LinkNode(pages, page, ids[k], null, null);
  }

  /** The loop of page_list_init, for the fields that never change again, ... */
  method DescribePages(n: nat) returns (pages: seq<PageInfo>)
    requires n <= PAGE_NUM
    ensures |pages| == n + 1 && Described(pages) && fresh(pages)
  {
    pages := [];
    var j := 0;
    while j <= n
      invariant 0 <= j <= n + 1 && |pages| == j && Described(pages) && fresh(pages)
    {
      var page := new PageInfo(j);
      pages := pages + [page];
      j := j + 1;
    }
  }

  /** ... and for its link fields and status. */
  method ChainPages(pages: seq<PageInfo>, n: nat)
    requires 0 < n < |pages| && Described(pages)
    modifies pages
    ensures List(pages, Range(0, n), pages[0])
    ensures forall i :: 0 <= i < n ==> pages[i].pageStatus == FREE
  {
    hide Nexts, Prevs;
    var i := 0;
    while i < n
      invariant 0 <= i <= n
      invariant i > 0 ==> pages[0].prev == null
      invariant i == n ==> pages[n - 1].next == null
      invariant forall j :: 0 <= j < i ==> pages[j].pageStatus == FREE
      invariant forall j, k :: 0 <= j && k == j + 1 && j < i && k < n ==> pages[j].next == pages[k]
      invariant forall j, k :: 0 <= j && k == j + 1 && k < i ==> pages[k].prev == pages[j]
    {
      pages[i].pageStatus := FREE;
      if i == n - 1 {
        pages[i].next := null;
      } else {
        pages[i].next := pages[i + 1];
      }
      if i == 0 {
        pages[i].prev := null;
      } else {
        pages[i].prev := pages[i - 1];
      }
      i := i + 1;
    }
  }

  class PageLists {
    /** page_list, with the entry that page_list_init writes one past the last page. */
    const pages: seq<PageInfo>
    var freeHead: PageInfo?
    var inuseHead: PageInfo?

    ghost const n: nat
    ghost var free: seq<nat>
    ghost var inuse: seq<nat>

    ghost predicate Valid()
      reads this, pages
    {
      && 0 < n <= PAGE_NUM && |pages| == n + 1
      && Described(pages)
      && Partition(0, n, free, inuse)
      && List(pages, free, freeHead)
      && List(pages, inuse, inuseHead)
      && (forall i :: i in inuse ==> pages[i].pageStatus != FREE)
    }

    /** page_list_init for n pages: all of them free, in address order. */
    constructor (n: nat)
      requires 0 < n <= PAGE_NUM
      ensures Valid() && this.n == n
      ensures free == Range(0, n) && inuse == []
      ensures fresh(pages)
    {
      hide Nexts, Prevs, Partition, Linked, Described;
      var list := DescribePages(n);
      this.n := n;
      pages := list;
      freeHead, inuseHead := list[0], null;
      free, inuse := Range(0, n), [];
      new;
      ChainPages(pages, n);
      RangePartition(0, n);
      NoNodes<PageInfo?>(pages, Nexts(pages), Prevs(pages), null);
    }

    /** insert_to_inuse_list. */
    method InsertToInuseList(page: PageInfo, ghost id: nat)
      requires Described(pages) && List(pages, inuse, inuseHead) && NoDup(inuse)
      requires id < |pages| && page == pages[id] && id !in inuse
      modifies this`inuseHead, this`inuse, pages`next, pages`prev
      ensures inuse == old(inuse) + [id] && List(pages, inuse, inuseHead)
      ensures forall i :: 0 <= i < |pages| && i != id && i !in old(inuse) ==>
                Nexts(pages)[i] == old(Nexts(pages))[i] && Prevs(pages)[i] == old(Prevs(pages))[i]
    {
      hide Linked, Nexts, Prevs, Described, NoDup;
      HeadIsNil(pages, Nexts(pages), Prevs(pages), null, inuse, inuseHead);
      if inuseHead == null {
        inuseHead := page;
        SetPrev(pages, page, id, null);
        LinkAlone(pages, page, id);
        assert inuse + [id] == [id];
      } else {
        var end := ListEnd(pages, inuse, inuseHead);
        LinkedNext(pages, Nexts(pages), Prevs(pages), null, inuse, inuseHead, 0);
        assert inuse[|inuse| - 1] in inuse;
        LinkBehind(pages, end, page, inuse, id, inuseHead);
      }
      inuse := inuse + [id];
    }

    /** The first half of page_alloc: the free head leaves its list ... */
    method DetachFreeHead() returns (page: PageInfo)
      requires Valid() && 2 <= |free|
      modifies this`freeHead, this`free, pages`next, pages`prev
      ensures free == old(free)[1..] && page == pages[old(free)[0]]
      ensures List(pages, free, freeHead) && List(pages, inuse, inuseHead)
    {
      hide List, NoDup;
      ListHead(pages, free, freeHead);
      page := freeHead;
      freeHead := UnlinkHead(pages, page, free, inuse, inuseHead);
      free := free[1..];
    }

    /** ... and is marked. */
    method TakeFreeHead() returns (page: PageInfo)
      requires Valid() && 2 <= |free|
      modifies this`freeHead, this`free, pages
      ensures free == old(free)[1..]
      ensures page == pages[old(free)[0]] && page.pageStatus == INUSE
      ensures List(pages, free, freeHead) && List(pages, inuse, inuseHead)
      ensures forall i :: 0 <= i < |pages| && i != old(free)[0] ==> pages[i].pageStatus == old(pages[i].pageStatus)
    {
      hide List;
      page := DetachFreeHead();
      page.pageStatus := INUSE;
    }

    /** The second half: it joins the in-use list. */
    method JoinInuse(page: PageInfo, ghost id: nat)
      requires Described(pages) && NoDup(inuse) && List(pages, free, freeHead) && List(pages, inuse, inuseHead)
      requires id < |pages| && page == pages[id] && id !in free && id !in inuse
      requires forall i :: i in free ==> i !in inuse
      modifies this`inuseHead, this`inuse, pages`next, pages`prev
      ensures inuse == old(inuse) + [id]
      ensures List(pages, free, freeHead) && List(pages, inuse, inuseHead)
    {
      hide Linked, Nexts, Prevs, Described, NoDup;
      ghost var nx, pv := Nexts(pages), Prevs(pages);
      InsertToInuseList(page, id);
      LinkedFrame(pages, nx, pv, Nexts(pages), Prevs(pages), null, free, freeHead);
    }

    /** page_alloc. */
    method PageAlloc() returns (page: PageInfo)
      requires Valid() && 2 <= |free|
      modifies this`freeHead, this`inuseHead, this`free, this`inuse, pages
      ensures Valid()
      ensures free == old(free)[1..] && inuse == old(inuse) + [old(free)[0]]
      ensures page == pages[old(free)[0]]
      ensures forall i :: 0 <= i < |pages| && i != old(free)[0] ==> pages[i].pageStatus == old(pages[i].pageStatus)
    {
      hide List, NoDup;
      ghost var id := free[0];
      assert id in free;
      MoveHead(0, n, free, inuse);
      page := TakeFreeHead();
      JoinInuse(page, id);
    }

    /** add_to_free_list_end.  An empty list takes the node over with the prev field it came with. */
    method AddToFreeListEnd(page: PageInfo, ghost id: nat)
      requires Described(pages) && List(pages, free, freeHead) && NoDup(free)
      requires id < |pages| && page == pages[id] && id !in free && page.prev == null
      modifies this`freeHead, this`free, pages`next, pages`prev
      ensures free == old(free) + [id] && List(pages, free, freeHead)
      ensures forall i :: 0 <= i < |pages| && i != id && i !in old(free) ==>
                Nexts(pages)[i] == old(Nexts(pages))[i] && Prevs(pages)[i] == old(Prevs(pages))[i]
    {
      hide Linked, Nexts, Prevs, Described, NoDup;
      HeadIsNil(pages, Nexts(pages), Prevs(pages), null, free, freeHead);
      if freeHead == null {
        freeHead := page;
        LinkAlone(pages, page, id);
        assert free + [id] == [id];
      } else {
        var end := ListEnd(pages, free, freeHead);
        LinkedNext(pages, Nexts(pages), Prevs(pages), null, free, freeHead, 0);
        assert free[|free| - 1] in free;
        LinkBehind(pages, end, page, free, id, freeHead);
      }
      free := free + [id];
    }

    /** delete_from_inuse_list.  The branch for the head dereferences the successor of the head. */
    method DeleteFromInuseList(page: PageInfo, ghost k: nat)
      requires Described(pages) && NoDup(inuse) && List(pages, inuse, inuseHead)
      requires k < |inuse| && inuse[k] < |pages| && page == pages[inuse[k]]
      requires k == 0 ==> 2 <= |inuse|
      modifies this`inuseHead, this`inuse, pages`next, pages`prev
      ensures inuse == Without(old(inuse), old(inuse)[k]) && List(pages, inuse, inuseHead)
      ensures page.prev == null
      ensures k > 0 ==> inuseHead == old(inuseHead)
      ensures forall i :: 0 <= i < |pages| && i !in old(inuse) ==>
                Nexts(pages)[i] == old(Nexts(pages))[i] && Prevs(pages)[i] == old(Prevs(pages))[i]
    {
      hide Linked, Nexts, Prevs, Described, NoDup, Without;
      ghost var ids := inuse;
      LinkedNext(pages, Nexts(pages), Prevs(pages), null, ids, inuseHead, k);
      assert forall i :: 0 <= i < |ids| ==> ids[i] in ids;
      var prev := page.prev;
      var next := page.next;
      if prev == null {
        inuseHead := UnlinkFirst(pages, page, ids);
      } else if next == null {
        UnlinkLast(pages, page, prev, ids, inuseHead);
      } else {
        UnlinkMiddle(pages, page, prev, next, ids, inuseHead, k);
      }
      inuse := Without(ids, ids[k]);
    }

    /** Both halves of page_free leave the other list alone: out of the in-use list ... */
    method LeaveInuse(page: PageInfo, ghost k: nat)
      requires Described(pages) && NoDup(inuse) && List(pages, inuse, inuseHead) && List(pages, free, freeHead)
      requires k < |inuse| && inuse[k] < |pages| && page == pages[inuse[k]]
      requires k == 0 ==> 2 <= |inuse|
      requires forall i :: i in free ==> i !in inuse
      modifies this`inuseHead, this`inuse, pages`next, pages`prev
      ensures inuse == Without(old(inuse), old(inuse)[k]) && page.prev == null
      ensures List(pages, inuse, inuseHead) && List(pages, free, freeHead)
    {
      hide Linked, Nexts, Prevs, Described, NoDup, Without;
      ghost var nx, pv := Nexts(pages), Prevs(pages);
      DeleteFromInuseList(page, k);
      LinkedFrame(pages, nx, pv, Nexts(pages), Prevs(pages), null, free, freeHead);
    }

    /** ... and into the free list. */
    method JoinFree(page: PageInfo, ghost id: nat)
      requires Described(pages) && NoDup(free) && List(pages, inuse, inuseHead) && List(pages, free, freeHead)
      requires id < |pages| && page == pages[id] && id !in free && id !in inuse && page.prev == null
      requires forall i :: i in free ==> i !in inuse
      modifies this`freeHead, this`free, pages`next, pages`prev
      ensures free == old(free) + [id]
      ensures List(pages, inuse, inuseHead) && List(pages, free, freeHead)
    {
      hide Linked, Nexts, Prevs, Described, NoDup, Without;
      ghost var nx, pv := Nexts(pages), Prevs(pages);
      AddToFreeListEnd(page, id);
      LinkedFrame(pages, nx, pv, Nexts(pages), Prevs(pages), null, inuse, inuseHead);
    }

    /** page_free. */
    method PageFree(page: PageInfo, ghost id: nat)
      requires Valid() && id in inuse && page == pages[id]
      requires id == inuse[0] ==> 2 <= |inuse|
      modifies this`freeHead, this`inuseHead, this`free, this`inuse, pages`next, pages`prev
      ensures Valid()
      ensures free == old(free) + [id] && inuse == Without(old(inuse), id)
    {
      hide List, Without, NoDup;
      if page.pageStatus != FREE {
        ghost var k :| 0 <= k < |inuse| && inuse[k] == id;
        MoveBack(0, n, free, inuse, id);
        WithoutMembers(inuse, id);
        LeaveInuse(page, k);
        JoinFree(page, id);
      }
    }

    /** which_page: the in-use page that starts at the rounded address, or the last in-use page when there is none. */
    method WhichPage(address: Word) returns (page: PageInfo)
      requires Valid() && inuse != []
      ensures forall i :: 0 <= i < |inuse| ==> inuse[i] < n
      ensures var id := WhichPageId(inuse, RoundDown(address, SECTION));
              id in inuse && page == pages[id]
    {
      hide Linked, Nexts, Prevs, WhichPageId;
      var pg := RoundDown(address, SECTION);
      ghost var k := 0;
      LinkedNext(pages, Nexts(pages), Prevs(pages), null, inuse, inuseHead, 0);
      assert forall i :: 0 <= i < |inuse| ==> inuse[i] in inuse;
      page := inuseHead;
      while page.next != null
        invariant 0 <= k < |inuse| && page == pages[inuse[k]]
        invariant page.next == if k + 1 < |inuse| then pages[inuse[k + 1]] else null
        invariant forall j :: 0 <= j < k ==> PageStart(inuse[j]) != pg
        decreases |inuse| - k
      {
        if page.pgstart == pg {
          break;
        }
        page := page.next;
        k := k + 1;
        LinkedNext(pages, Nexts(pages), Prevs(pages), null, inuse, inuseHead, k);
      }
      WhichPageIdAt(inuse, pg, k);
    }
  }

  /** After path_tree_init has taken the first page, any run of page_alloc and of page_free of other pages leaves every
      page on exactly one of the two lists, the page of the path tree at the head of the in-use list, and which_page
      finding the page of every address in one that is in use. */
  lemma AnyPageRun(ops: seq<Op>, free: seq<nat>, inuse: seq<nat>)
    requires Runs(ops, Range(1, PAGE_NUM), [0], free, inuse) && Give(0) !in ops
    ensures Partition(0, PAGE_NUM, free, inuse) && |free| + |inuse| == PAGE_NUM
    ensures inuse != [] && inuse[0] == 0 && forall i :: 0 <= i < |inuse| ==> inuse[i] < PAGE_NUM
    ensures forall id, a: Word :: id in inuse && PageStart(id) <= a < PageStart(id) + SECTION ==>
              WhichPageId(inuse, RoundDown(a, SECTION)) == id
  {
    RangePartition(0, PAGE_NUM);
    RangeTail(0, PAGE_NUM);
    MoveHead(0, PAGE_NUM, Range(0, PAGE_NUM), []);
    RunsKeepPartition(0, PAGE_NUM, ops, Range(1, PAGE_NUM), [0], free, inuse);
    RunsKeepFirst(ops, Range(1, PAGE_NUM), [0], free, inuse);
    PartitionCount(0, PAGE_NUM, free, inuse);
    forall i | 0 <= i < |inuse| ensures inuse[i] < PAGE_NUM {
      assert inuse[i] in inuse;
    }
    forall id, a: Word | id in inuse && PageStart(id) <= a < PageStart(id) + SECTION
      ensures WhichPageId(inuse, RoundDown(a, SECTION)) == id
    {
      WhichPageFinds(inuse, id, a);
    }
  }
}
