/** The tables mmu.c builds out of pte_init ranges: the kernel table of `mem_map`, the table of a new task
    (`task_pgt_setup`), and the table of a forked child (`set_pte` on top of it). */
module PageTables {
  import opened Words
  import opened Layout
  import opened Mmu

  // ------------------------------------------------------------------ kernel table

  function MemMap(m: Memory, base: Word): Memory {
    var m := PteInit(m, 0x0000_0000, 0x8000_0000, AP_USER_PROHIBIT, 0x0000_0000, base);
    var m := PteInit(m, 0x8000_0000, 0x8200_0000, AP_USER_PROHIBIT, 0x8000_0000, base);
    var m := PteInit(m, 0x8200_0000, 0x8210_0000, AP_USER_R_ONLY, 0x8200_0000, base);
    var m := PteInit(m, 0x8210_0000, 0x9000_0000, AP_USER_R_ONLY, 0x8210_0000, base);
    var m := PteInit(m, 0x9000_0000, 0x9df0_0000, AP_USER_R_ONLY, 0x9000_0000, base);
    PteInit(m, 0x9df0_0000, 0xa000_0000, AP_USER_R_ONLY, 0x9df0_0000, base)
  }

  /** mem_map. */
  method MemMapLoop(mem: array<Word>, base: Word)
    requires mem.Length == MEM_WORDS
    modifies mem
    ensures mem[..] == MemMap(old(mem[..]), base)
  {
    PteInitLoop(mem, 0x0000_0000, 0x8000_0000, AP_USER_PROHIBIT, 0x0000_0000, base);
    PteInitLoop(mem, 0x8000_0000, 0x8200_0000, AP_USER_PROHIBIT, 0x8000_0000, base);
    PteInitLoop(mem, 0x8200_0000, 0x8210_0000, AP_USER_R_ONLY, 0x8200_0000, base);
    PteInitLoop(mem, 0x8210_0000, 0x9000_0000, AP_USER_R_ONLY, 0x8210_0000, base);
    PteInitLoop(mem, 0x9000_0000, 0x9df0_0000, AP_USER_R_ONLY, 0x9000_0000, base);
    PteInitLoop(mem, 0x9df0_0000, 0xa000_0000, AP_USER_R_ONLY, 0x9df0_0000, base);
  }

  lemma WholeSections(start: Word, end: Word)
    requires start % SECTION == 0 && end % SECTION == 0 && start <= end <= 0xfff0_0000
    ensures RoundUp(end, SECTION) == end && PageNum(start, end) == Sec(end) - Sec(start)
    ensures Sec(start) <= Sec(end) < 4096
  {
    WrapIs(end + SECTION - 1, 0, end + SECTION - 1);
    DivMod(end + SECTION - 1, SECTION, Sec(end), SECTION - 1);
    PageNumExact(start, end);
  }

  /** The effect of one range that is its own image, seen from one word of memory. */
  lemma IdentityRange(m: Memory, start: Word, end: Word, perm: nat, base: Word, j: nat)
    requires perm < 4 && start % SECTION == 0 && end % SECTION == 0 && start <= end <= 0xfff0_0000
    requires j < MEM_WORDS
    ensures var k := j - TableIndex(base);
            PteInit(m, start, end, perm, start, base)[j] ==
            if Sec(start) <= k < Sec(end) then SectionDescriptor(k, perm) else m[j]
  {
    WholeSections(start, end);
    hide PageNum, TableIndex, Sec, RoundUp, Offset;
    var k, s := j - TableIndex(base), Sec(start);
    if 0 <= k < 4096 {
      var i := if k < s then k - s + 4096 else k - s;
      assert (s + i) % 4096 == k;
      OffsetIs(k, s, i);
    }
  }

  /** Entries 0..2559 become the identity sections, none of them user-writable; every other word keeps its value. */
  lemma MemMapEntries(m: Memory, base: Word)
    ensures forall j :: 0 <= j < MEM_WORDS ==>
              var k := j - TableIndex(base);
              MemMap(m, base)[j] == if 0 <= k < 2560
                                    then SectionDescriptor(k, if k < 0x820 then AP_USER_PROHIBIT else AP_USER_R_ONLY)
                                    else m[j]
  {
    forall j | 0 <= j < MEM_WORDS
      ensures var k := j - TableIndex(base);
              MemMap(m, base)[j] == if 0 <= k < 2560
                                    then SectionDescriptor(k, if k < 0x820 then AP_USER_PROHIBIT else AP_USER_R_ONLY)
                                    else m[j]
    {
      MemMapWord(m, base, j);
    }
  }

  /** The entry counts of the six calls add up to the 2560 entries they cover, so none is written twice; the first
      word above them is kpage.free_start, where the page descriptors begin. */
  lemma MemMapTiles(base: Word)
    ensures PageNum(0, 0x8000_0000) + PageNum(0x8000_0000, 0x8200_0000) + PageNum(0x8200_0000, 0x8210_0000)
            + PageNum(0x8210_0000, 0x9000_0000) + PageNum(0x9000_0000, 0x9df0_0000)
            + PageNum(0x9df0_0000, 0xa000_0000) == 2560
    ensures PageNum(0x0000_0000, 0xa000_0000) == 2560
    ensures base % TABLE_BYTES == 0 ==> 4 * (TableIndex(base) + 2560) == base + 4 * PageNum(0x0000_0000, 0xa000_0000)
  {
    hide PageNum;
    WholeSections(0x0000_0000, 0x8000_0000);
    WholeSections(0x8000_0000, 0x8200_0000);
    WholeSections(0x8200_0000, 0x8210_0000);
    WholeSections(0x8210_0000, 0x9000_0000);
    WholeSections(0x9000_0000, 0x9df0_0000);
    WholeSections(0x9df0_0000, 0xa000_0000);
    WholeSections(0x0000_0000, 0xa000_0000);
  }

  lemma MemMapWord(m: Memory, base: Word, j: nat)
    requires j < MEM_WORDS
    ensures var k := j - TableIndex(base);
            MemMap(m, base)[j] == if 0 <= k < 2560
                                  then SectionDescriptor(k, if k < 0x820 then AP_USER_PROHIBIT else AP_USER_R_ONLY)
                                  else m[j]
  {
    var m1 := PteInit(m, 0x0000_0000, 0x8000_0000, AP_USER_PROHIBIT, 0x0000_0000, base);
    var m2 := PteInit(m1, 0x8000_0000, 0x8200_0000, AP_USER_PROHIBIT, 0x8000_0000, base);
    var m3 := PteInit(m2, 0x8200_0000, 0x8210_0000, AP_USER_R_ONLY, 0x8200_0000, base);
    var m4 := PteInit(m3, 0x8210_0000, 0x9000_0000, AP_USER_R_ONLY, 0x8210_0000, base);
    var m5 := PteInit(m4, 0x9000_0000, 0x9df0_0000, AP_USER_R_ONLY, 0x9000_0000, base);
    IdentityRange(m, 0x0000_0000, 0x8000_0000, AP_USER_PROHIBIT, base, j);
    IdentityRange(m1, 0x8000_0000, 0x8200_0000, AP_USER_PROHIBIT, base, j);
    IdentityRange(m2, 0x8200_0000, 0x8210_0000, AP_USER_R_ONLY, base, j);
    IdentityRange(m3, 0x8210_0000, 0x9000_0000, AP_USER_R_ONLY, base, j);
    IdentityRange(m4, 0x9000_0000, 0x9df0_0000, AP_USER_R_ONLY, base, j);
    IdentityRange(m5, 0x9df0_0000, 0xa000_0000, AP_USER_R_ONLY, base, j);
  }

  /** The kernel table is the identity below 0xa0000000: the kernel may write and execute everywhere, user code may read
      from 0x82000000 on and write nowhere. */
  lemma MemMapIsIdentity(m: Memory, base: Word, va: Word)
    requires va < 0xa000_0000
    ensures var t := Walk(MemMap(m, base), base, va);
            && t.PrivilegedWritable() && t.StronglyOrdered() && !t.executeNever && t.pa == va
            && !t.UserWritable() && (t.UserReadable() <==> 0x8200_0000 <= va)
  {
    hide Decode, MemMap, SectionDescriptor, TableIndex;
    MemMapWord(m, base, TableIndex(base) + Sec(va));
    DecodeDescriptor(Sec(va), if Sec(va) < 0x820 then AP_USER_PROHIBIT else AP_USER_R_ONLY, va);
    assert va == Sec(va) * SECTION + va % SECTION;
  }

  // ------------------------------------------------------------------ task tables

  /** A page of task memory: 1 MiB aligned, in [0x82100000, 0x9df00000). */
  predicate IsPageStart(a: Word) {
    a % SECTION == 0 && UMEM_START <= a < KSTACK_BOTTOM
  }

  /** PAGE_INFO.top of a page. */
  function PageTop(pgstart: Word): Word
    requires IsPageStart(pgstart)
  {
    pgstart + 4 * (SECTION / 4 - 1)
  }

  function SetPte(m: Memory, pgstart: Word, base: Word): Memory
    requires IsPageStart(pgstart)
  {
    PteInit(m, pgstart, PageTop(pgstart), AP_USER_RW, pgstart, base)
  }

  /** What task_pgt_setup leaves in memory once it has been given the block at `base`. */
  function TaskTable(m: Memory, pgstart: Word, base: Word): Memory
    requires IsPageStart(pgstart)
  {
    var m := PteInit(m, 0x4000_0000, 0x6000_0000, AP_USER_PROHIBIT, 0x4000_0000, base);
    var m := PteInit(m, 0x8200_0000, 0x8210_0000, AP_USER_R_ONLY, 0x8200_0000, base);
    var m := PteInit(m, 0x8210_0000, 0xa000_0000, AP_USER_PROHIBIT, 0x8210_0000, base);
    SetPte(m, pgstart, base)
  }

  method SetPteLoop(mem: array<Word>, pgstart: Word, pgtop: Word, base: Word)
    requires mem.Length == MEM_WORDS
    requires IsPageStart(pgstart) && pgtop == PageTop(pgstart)
    modifies mem
    ensures mem[..] == SetPte(old(mem[..]), pgstart, base)
  {
    PteInitLoop(mem, pgstart, pgtop, AP_USER_RW, pgstart, base);
  }

  method TaskTableLoop(mem: array<Word>, pgstart: Word, pgtop: Word, base: Word)
    requires mem.Length == MEM_WORDS
    requires IsPageStart(pgstart) && pgtop == PageTop(pgstart)
    modifies mem
    ensures mem[..] == TaskTable(old(mem[..]), pgstart, base)
  {
    PteInitLoop(mem, 0x4000_0000, 0x6000_0000, AP_USER_PROHIBIT, 0x4000_0000, base);
    PteInitLoop(mem, 0x8200_0000, 0x8210_0000, AP_USER_R_ONLY, 0x8200_0000, base);
    PteInitLoop(mem, 0x8210_0000, 0xa000_0000, AP_USER_PROHIBIT, 0x8210_0000, base);
    PteInitLoop(mem, pgstart, pgtop, AP_USER_RW, pgstart, base);
  }

  lemma PageRange(pgstart: Word)
    requires IsPageStart(pgstart)
    ensures PageNum(pgstart, PageTop(pgstart)) == 1
  {
    PlainRangeSize(pgstart, PageTop(pgstart), pgstart);
  }

  lemma SetPteWord(m: Memory, pgstart: Word, base: Word, j: nat)
    requires IsPageStart(pgstart) && j < MEM_WORDS
    ensures SetPte(m, pgstart, base)[j] ==
            if j - TableIndex(base) == Sec(pgstart) then SectionDescriptor(Sec(pgstart), AP_USER_RW) else m[j]
  {
    PageRange(pgstart);
    if 0 <= j - TableIndex(base) < 4096 {
      OffsetIs(j - TableIndex(base), Sec(pgstart), 0);
    }
  }

  lemma TaskTableWord(m: Memory, pgstart: Word, base: Word, j: nat)
    requires IsPageStart(pgstart) && j < MEM_WORDS
    ensures var k := j - TableIndex(base);
            TaskTable(m, pgstart, base)[j] ==
            if k == Sec(pgstart) then SectionDescriptor(k, AP_USER_RW)
            else if k == 0x820 then SectionDescriptor(k, AP_USER_R_ONLY)
            else if 0x821 <= k < 0xa00 || 0x400 <= k < 0x600 then SectionDescriptor(k, AP_USER_PROHIBIT)
            else m[j]
  {
    var m1 := PteInit(m, 0x4000_0000, 0x6000_0000, AP_USER_PROHIBIT, 0x4000_0000, base);
    var m2 := PteInit(m1, 0x8200_0000, 0x8210_0000, AP_USER_R_ONLY, 0x8200_0000, base);
    var m3 := PteInit(m2, 0x8210_0000, 0xa000_0000, AP_USER_PROHIBIT, 0x8210_0000, base);
    IdentityRange(m, 0x4000_0000, 0x6000_0000, AP_USER_PROHIBIT, base, j);
    IdentityRange(m1, 0x8200_0000, 0x8210_0000, AP_USER_R_ONLY, base, j);
    IdentityRange(m2, 0x8210_0000, 0xa000_0000, AP_USER_PROHIBIT, base, j);
    SetPteWord(m3, pgstart, base, j);
  }

  /** What addresses may be used for through a table.  In the DRAM window 0x82000000..0xa0000000 the kernel may use
      everything; user code may write the given sections, and read and execute these and the kernel's page, which holds
      the programs.  The devices at 0x40000000..0x60000000 are the kernel's alone. */
  ghost predicate WindowIs(m: Memory, base: Word, writable: set<nat>) {
    && (forall va: Word {:trigger Walk(m, base, va)} :: 0x8200_0000 <= va < 0xa000_0000 ==>
          InWindow(Walk(m, base, va), va, Sec(va) in writable))
    && (forall va: Word {:trigger Walk(m, base, va)} :: 0x4000_0000 <= va < 0x6000_0000 ==>
          ForDevice(Walk(m, base, va), va))
  }

  predicate InWindow(t: Translation, va: Word, granted: bool) {
    && t.PrivilegedWritable() && t.StronglyOrdered() && t.pa == va
    && (t.UserWritable() <==> granted)
    && (t.UserReadable() <==> granted || 0x8200_0000 <= va < 0x8210_0000)
  }

  predicate ForDevice(t: Translation, va: Word) {
    t.PrivilegedWritable() && t.StronglyOrdered() && t.pa == va && !t.UserReadable() && !t.UserWritable()
  }

  /** Nothing of what the block held before shows through: the page of the task is the only user-writable one and
      everything is mapped to itself. */
  lemma TaskTableWindow(m: Memory, pgstart: Word, base: Word)
    requires IsPageStart(pgstart)
    ensures WindowIs(TaskTable(m, pgstart, base), base, {Sec(pgstart)})
  {
    var m' := TaskTable(m, pgstart, base);
    forall va: Word | 0x8200_0000 <= va < 0xa000_0000
      ensures InWindow(Walk(m', base, va), va, Sec(va) in {Sec(pgstart)})
    {
      TaskTableWalk(m, pgstart, base, va);
    }
    forall va: Word | 0x4000_0000 <= va < 0x6000_0000
      ensures ForDevice(Walk(m', base, va), va)
    {
      TaskTableWalk(m, pgstart, base, va);
    }
  }

  lemma TaskTableWalk(m: Memory, pgstart: Word, base: Word, va: Word)
    requires IsPageStart(pgstart) && (0x8200_0000 <= va < 0xa000_0000 || 0x4000_0000 <= va < 0x6000_0000)
    ensures var perm := if Sec(va) == Sec(pgstart) then AP_USER_RW
                        else if Sec(va) == 0x820 then AP_USER_R_ONLY else AP_USER_PROHIBIT;
            Walk(TaskTable(m, pgstart, base), base, va) == Section(va, perm, 0, false, true, 0, true)
  {
    TaskTableWord(m, pgstart, base, TableIndex(base) + Sec(va));
    var perm := if Sec(va) == Sec(pgstart) then AP_USER_RW
                else if Sec(va) == 0x820 then AP_USER_R_ONLY else AP_USER_PROHIBIT;
    DecodeDescriptor(Sec(va), perm, va);
  }

  /** Of a task table, no entry of the window stops a privileged write (AP 0b001, 0b010 and 0b011 all allow it): a frame
      pushed from system mode lands wherever the user stack pointer says. */
  lemma PrivilegedWindow(m: Memory, pgstart: Word, base: Word, va: Word)
    requires IsPageStart(pgstart) && KUSE_START <= va < WINDOW_END
    ensures var t := Walk(TaskTable(m, pgstart, base), base, va);
            t.PrivilegedWritable() && t.pa == va
  {
    TaskTableWalk(m, pgstart, base, va);
  }

  /** set_pte adds one page to those a table lets the user write. */
  lemma SetPteWindow(m: Memory, pgstart: Word, base: Word, writable: set<nat>)
    requires IsPageStart(pgstart) && WindowIs(m, base, writable)
    ensures WindowIs(SetPte(m, pgstart, base), base, writable + {Sec(pgstart)})
  {
    var m' := SetPte(m, pgstart, base);
    forall va: Word | 0x8200_0000 <= va < 0xa000_0000
      ensures InWindow(Walk(m', base, va), va, Sec(va) in writable + {Sec(pgstart)})
    {
      assert InWindow(Walk(m, base, va), va, Sec(va) in writable);
      SetPteWord(m, pgstart, base, TableIndex(base) + Sec(va));
      DecodeDescriptor(Sec(pgstart), AP_USER_RW, va);
    }
    forall va: Word | 0x4000_0000 <= va < 0x6000_0000
      ensures ForDevice(Walk(m', base, va), va)
    {
      assert ForDevice(Walk(m, base, va), va);
      SetPteWord(m, pgstart, base, TableIndex(base) + Sec(va));
    }
  }

  /** A forked child may write exactly its own page and its parent's. */
  lemma ForkTableWindow(m: Memory, child: Word, parent: Word, base: Word)
    requires IsPageStart(child) && IsPageStart(parent)
    ensures WindowIs(SetPte(TaskTable(m, child, base), parent, base), base, {Sec(child), Sec(parent)})
  {
    TaskTableWindow(m, child, base);
    SetPteWindow(TaskTable(m, child, base), parent, base, {Sec(child)});
    assert {Sec(child)} + {Sec(parent)} == {Sec(child), Sec(parent)};
  }

  /** Both table builders stay inside the 4096 words of the table. */
  lemma TablesStayInBlock(m: Memory, pgstart: Word, base: Word, j: nat)
    requires IsPageStart(pgstart) && j < MEM_WORDS
    requires !(TableIndex(base) <= j < TableIndex(base) + TABLE_WORDS)
    ensures TaskTable(m, pgstart, base)[j] == m[j] == SetPte(m, pgstart, base)[j]
  {
    TaskTableWord(m, pgstart, base, j);
    SetPteWord(m, pgstart, base, j);
  }

  /** The meaning of a table depends on its own words only. */
  lemma WindowFrame(m: Memory, m': Memory, base: Word, writable: set<nat>)
    requires WindowIs(m, base, writable)
    requires forall j :: TableIndex(base) <= j < TableIndex(base) + TABLE_WORDS ==> m'[j] == m[j]
    ensures WindowIs(m', base, writable)
  {
    forall va: Word | 0x8200_0000 <= va < 0xa000_0000
      ensures InWindow(Walk(m', base, va), va, Sec(va) in writable)
    {
      assert Walk(m', base, va) == Walk(m, base, va);
    }
    forall va: Word | 0x4000_0000 <= va < 0x6000_0000
      ensures ForDevice(Walk(m', base, va), va)
    {
      assert Walk(m', base, va) == Walk(m, base, va);
    }
  }
}
