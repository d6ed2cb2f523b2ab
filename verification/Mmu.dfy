/** mmu.c: first-level section descriptors of the ARMv7-A short-descriptor format, written by `pte_init`, and the
    table walk that gives them their meaning (ARM DDI 0406C, sections B3.5.1, B3.5.5 and B3.7.1). */
module Mmu {
  import opened Words
  import opened Layout

  const MEM_WORDS: int := 0x4000_0000
  const TABLE_BYTES: int := 0x4000
  const TABLE_WORDS: int := 0x1000

  const AP_USER_RW: nat := 3
  const AP_USER_R_ONLY: nat := 2
  const AP_USER_PROHIBIT: nat := 1

  /** Physical memory, one element per 4-byte word: the word at byte address a is m[a / 4]. */
  type Memory = m: seq<Word> | |m| == MEM_WORDS ghost witness seq(MEM_WORDS, _ => 0)

  // ------------------------------------------------------------------ descriptors

  function Sec(a: Word): nat {
    a / SECTION
  }

  /** The descriptor of a section: base address, S bit, AP bits, and 0b10 in the two low bits. */
  function SectionDescriptor(sec: nat, perm: nat): Word
    requires sec < 4096 && perm < 4
  {
    sec * SECTION + 0x1_0000 + perm * 0x400 + 2
  }

  function GenPte(paddr: Word): nat {
    BitOr(BitAnd(paddr, 0xfff0_0000), 0x02)
  }

  /** The word `pte_init` assembles for one section: base and type, C and B, domain, AP, XN, S. */
  function AssembledPte(paddr: Word, perm: nat): nat {
    var pte := GenPte(paddr);
    var pte := BitOr(pte, 0 * 0x4);
    var pte := BitOr(pte, 0 * 0x20);
    var pte := BitOr(pte, perm * 0x400);
    var pte := BitOr(pte, 0 * 0x10);
    BitOr(pte, 1 * 0x1_0000)
  }

  /** gen_pte_addr with vaddr2L1pteidx expanded for MAP_START_VADDR == 0. */
  function GenPteAddr(base: Word, vaddr: Word): nat {
    BitOr(BitAnd(base, 0xffff_c000), BitAnd(Wrap(vaddr - 0), 0xfff0_0000) / SECTION * 4)
  }

  lemma Powers()
    ensures Pow2(12) == 0x1000 && Pow2(14) == 0x4000 && Pow2(18) == 0x4_0000 && Pow2(20) == 0x10_0000
  {
    assert Pow2(8) == 256;
    assert Pow2(14) == 64 * Pow2(8);
    assert Pow2(20) == 64 * Pow2(14);
  }

  /** Masking with 0xfff00000 keeps the section base. */
  lemma SectionMask(a: Word)
    ensures BitAnd(a, 0xfff0_0000) == Sec(a) * SECTION
  {
    Powers();
    AndLowMask(Sec(a), 12);
    AndShiftedMask(Sec(a), 20, a % SECTION, 0xfff);
  }

  lemma TableMask(base: Word)
    ensures BitAnd(base, 0xffff_c000) == RoundDown(base, TABLE_BYTES)
  {
    Powers();
    AndLowMask(base / TABLE_BYTES, 18);
    AndShiftedMask(base / TABLE_BYTES, 14, base % TABLE_BYTES, 0x3_ffff);
  }

  /** OR-ing a field below bit 20 onto a section base, part of whose low bits are set already. */
  lemma OrField(h: nat, l: nat, b: nat)
    requires l < SECTION && b < SECTION
    ensures BitOr(h * SECTION + l, b) == h * SECTION + BitOr(l, b)
  {
    Powers();
    OrBelow(h, 20, l, b);
  }

  lemma FieldValues(perm: nat)
    requires perm < 4
    ensures BitOr(0, 0x02) == 0x02
    ensures BitOr(0x02, perm * 0x400) == perm * 0x400 + 2
    ensures BitOr(perm * 0x400 + 2, 0x1_0000) == 0x1_0000 + perm * 0x400 + 2
  {
    FieldPowers();
    OrIsAdd(perm, 10, 2);
    OrCommutes(perm * 0x400, 2);
    OrIsAdd(1, 16, perm * 0x400 + 2);
    OrCommutes(0x1_0000, perm * 0x400 + 2);
  }

  lemma FieldPowers()
    ensures Pow2(10) == 0x400 && Pow2(16) == 0x1_0000
  {
    assert Pow2(8) == 256;
    assert Pow2(16) == 256 * Pow2(8);
  }

  lemma OrZero(a: nat)
    ensures BitOr(a, 0) == a
  {
  }

  /** The assembled word is the section descriptor of the architecture: base, S, AP[1:0], 0b10, and no other bit. */
  lemma PteIsDescriptor(paddr: Word, perm: nat)
    requires perm < 4
    ensures AssembledPte(paddr, perm) == SectionDescriptor(Sec(paddr), perm)
    ensures AssembledPte(paddr, perm) == paddr / 0x10_0000 * 0x10_0000 + 0x1_0000 + perm * 0x400 + 0x2
  {
    hide BitOr, BitAnd;
    var h := Sec(paddr);
    SectionMask(paddr);
    FieldValues(perm);
    OrField(h, 0, 0x02);
    OrField(h, 0x02, perm * 0x400);
    OrField(h, perm * 0x400 + 2, 0x1_0000);
    OrZero(h * SECTION + 2);
    OrZero(h * SECTION + perm * 0x400 + 2);
  }

  lemma OrIndex(h: nat, b: nat)
    requires b < TABLE_BYTES
    ensures BitOr(h * TABLE_BYTES, b) == h * TABLE_BYTES + b
  {
    Powers();
    OrIsAdd(h, 14, b);
  }

  /** OR-ing the index into the table base adds it, whatever the low bits of the base were. */
  lemma PteAddrIsSum(base: Word, vaddr: Word)
    ensures GenPteAddr(base, vaddr) == RoundDown(base, TABLE_BYTES) + 4 * Sec(vaddr)
  {
    hide BitOr, BitAnd;
    TableMask(base);
    SectionMask(vaddr);
    assert RoundDown(base, TABLE_BYTES) == base / TABLE_BYTES * TABLE_BYTES;
    assert Sec(vaddr) * SECTION / SECTION == Sec(vaddr);
    OrIndex(base / TABLE_BYTES, Sec(vaddr) * 4);
  }

  // ------------------------------------------------------------------ translation

  /** Outcome of a first-level walk. ap is AP[2:0], memory is TEX[2:0], C and B. */
  datatype Translation =
    | NoSection
    | Section(pa: Word, ap: nat, domain: nat, executeNever: bool, shareable: bool, memory: nat, global: bool)
  {
    predicate StronglyOrdered() {
      Section? && memory == 0
    }

    /** A PL0 read is allowed, and so is the execution of what is read: AP is 0b010 or 0b011. */
    predicate UserReadable() {
      Section? && domain == 0 && (ap == 2 || ap == 3) && !executeNever
    }

    /** A PL0 write is allowed: domain 0 is the only client domain (set_domain) and AP is 0b011. */
    predicate UserWritable() {
      Section? && domain == 0 && ap == 3
    }

    /** A PL1 write is allowed: so are AP 0b001 and 0b010. */
    predicate PrivilegedWritable() {
      Section? && domain == 0 && 1 <= ap <= 3
    }
  }

  function TableIndex(base: Word): nat
    ensures TableIndex(base) + TABLE_WORDS <= MEM_WORDS
  {
    RoundDown(base, TABLE_BYTES) / 4
  }

  /** What the hardware makes of a first-level descriptor for address va. */
  function Decode(desc: Word, va: Word): Translation {
    if desc % 4 == 2 && desc / 0x4_0000 % 2 == 0 then
      Section(desc / SECTION * SECTION + va % SECTION,
              desc / 0x8000 % 2 * 4 + desc / 0x400 % 4,
              desc / 0x20 % 16,
              desc / 0x10 % 2 == 1,
              desc / 0x1_0000 % 2 == 1,
              desc / 0x1000 % 8 * 4 + desc / 0x4 % 4,
              desc / 0x2_0000 % 2 == 0)
    else
      NoSection
  }

  function Walk(m: Memory, base: Word, va: Word): Translation {
    Decode(m[TableIndex(base) + Sec(va)], va)
  }

  lemma DecodeDescriptor(sec: nat, perm: nat, va: Word)
    requires sec < 4096 && perm < 4
    ensures Decode(SectionDescriptor(sec, perm), va) ==
            Section(sec * SECTION + va % SECTION, perm, 0, false, true, 0, true)
  {
    var low := 0x1_0000 + perm * 0x400 + 2;
    LowValues(perm);
    LowField(sec, low);
    DivMod(sec * SECTION + low, SECTION, sec, low);
  }

  lemma LowValues(perm: nat)
    requires perm < 4
    ensures var low := 0x1_0000 + perm * 0x400 + 2;
            && low % 4 == 2 && low / 0x4_0000 % 2 == 0 && low / 0x8000 % 2 == 0 && low / 0x400 % 4 == perm
            && low / 0x20 % 16 == 0 && low / 0x10 % 2 == 0 && low / 0x1_0000 % 2 == 1
            && low / 0x1000 % 8 == 0 && low / 0x4 % 4 == 0 && low / 0x2_0000 % 2 == 0
  {
    match perm {
      case 0 =>
      case 1 =>
      case 2 =>
      case 3 =>
    }
  }

  lemma LowField(sec: nat, low: nat)
    requires low < SECTION
    ensures var d := sec * SECTION + low;
            && d % 4 == low % 4 && d / 0x4_0000 % 2 == low / 0x4_0000 % 2 && d / 0x8000 % 2 == low / 0x8000 % 2
            && d / 0x400 % 4 == low / 0x400 % 4 && d / 0x20 % 16 == low / 0x20 % 16
            && d / 0x10 % 2 == low / 0x10 % 2 && d / 0x1_0000 % 2 == low / 0x1_0000 % 2
            && d / 0x1000 % 8 == low / 0x1000 % 8 && d / 0x4 % 4 == low / 0x4 % 4
            && d / 0x2_0000 % 2 == low / 0x2_0000 % 2
  {
    FieldBelow(sec, SECTION, low, 1, 4, 0x4_0000);
    FieldBelow(sec, SECTION, low, 0x4_0000, 2, 2);
    FieldBelow(sec, SECTION, low, 0x8000, 2, 16);
    FieldBelow(sec, SECTION, low, 0x400, 4, 256);
    FieldBelow(sec, SECTION, low, 0x20, 16, 0x800);
    FieldBelow(sec, SECTION, low, 0x10, 2, 0x8000);
    FieldBelow(sec, SECTION, low, 0x1_0000, 2, 8);
    FieldBelow(sec, SECTION, low, 0x1000, 8, 32);
    FieldBelow(sec, SECTION, low, 0x4, 4, 0x1_0000);
    FieldBelow(sec, SECTION, low, 0x2_0000, 2, 4);
  }

  // ------------------------------------------------------------------ pte_init

  /** page_num_cal, in 32 bits. */
  function PageNum(start: Word, end: Word): (n: nat)
    ensures n < 4096
  {
    Wrap(RoundUp(end, SECTION) - RoundDown(start, SECTION)) / SECTION
  }

  /** page_num_cal counts the sections that [start, end) touches, except for a range that begins in section 0 and
      ends in section 0xfff: there the rounded end wraps to the rounded start and the count is 0. */
  lemma PageNumExact(start: Word, end: Word)
    requires start <= end
    ensures PageNum(start, end) == (end + SECTION - 1) / SECTION - Sec(start) <==>
              !(start < SECTION && end > 0xfff0_0000)
  {
    if end + SECTION - 1 < WORD_RANGE {
      assert RoundUp(end, SECTION) == (end + SECTION - 1) / SECTION * SECTION;
    } else {
      RoundUpExact(end, SECTION);
      assert (end + SECTION - 1) / SECTION == 4096;
    }
  }

  /** The one family on an input: of the whole address space, the loop of pte_init maps nothing. */
  lemma PageNumFails()
    ensures PageNum(0, 0xffff_ffff) == 0 && (0xffff_ffff + SECTION - 1) / SECTION - Sec(0) == 4096
  {
    PageNumExact(0, 0xffff_ffff);
    assert RoundUp(0xffff_ffff, SECTION) == 0 by {
      WrapIs(0xffff_ffff + SECTION - 1, 1, SECTION - 2);
    }
  }

  /** The position of section `sec` in a range of sections that starts at vsec and may wrap around. */
  function Offset(sec: nat, vsec: nat): nat {
    (sec - vsec) % 4096
  }

  /** Word j of a memory into which n consecutive descriptors were written: the table starts at word tbl, the first
      descriptor goes to the entry of section vsec and describes section psec. */
  function MappedWord(m: Memory, tbl: nat, vsec: nat, psec: nat, n: nat, perm: nat, j: int): Word
    requires 0 <= j < MEM_WORDS && perm < 4
  {
    if tbl <= j < tbl + TABLE_WORDS && Offset(j - tbl, vsec) < n
    then SectionDescriptor((psec + Offset(j - tbl, vsec)) % 4096, perm)
    else m[j]
  }

  function Mapped(m: Memory, tbl: nat, vsec: nat, psec: nat, n: nat, perm: nat): (r: Memory)
    requires tbl + TABLE_WORDS <= MEM_WORDS && perm < 4
    ensures forall j :: 0 <= j < MEM_WORDS ==> r[j] == MappedWord(m, tbl, vsec, psec, n, perm, j)
  {
    seq(MEM_WORDS, j requires 0 <= j < MEM_WORDS => MappedWord(m, tbl, vsec, psec, n, perm, j))
  }

  function PteInit(m: Memory, pstart: Word, pend: Word, perm: nat, vstart: Word, base: Word): Memory
    requires perm < 4
  {
    Mapped(m, TableIndex(base), Sec(vstart), Sec(pstart), PageNum(pstart, pend), perm)
  }

  lemma SectionStep(start: Word, i: nat)
    ensures Sec(Wrap(start + Wrap(i * SECTION))) == (Sec(start) + i) % 4096
  {
    WrapSum(start, i * SECTION);
    var u := Sec(start) + i;
    var q, r, o := u / 4096, u % 4096, start % SECTION;
    assert start + i * SECTION == q * WORD_RANGE + (r * SECTION + o);
    WrapIs(start + i * SECTION, q, r * SECTION + o);
    DivMod(r * SECTION + o, SECTION, r, o);
  }

  lemma SecOfRoundDown(a: Word)
    ensures Sec(RoundDown(a, SECTION)) == Sec(a)
  {
    DivMod(RoundDown(a, SECTION), SECTION, Sec(a), 0);
  }

  lemma OffsetIs(k: nat, vsec: nat, i: nat)
    requires k < 4096 && i < 4096
    ensures Offset(k, vsec) == i <==> k == (vsec + i) % 4096
  {
  }

  /** One more iteration of the loop writes exactly one more entry. */
  lemma MappedStep(m: Memory, tbl: nat, vsec: nat, psec: nat, i: nat, perm: nat)
    requires tbl + TABLE_WORDS <= MEM_WORDS && perm < 4 && i < 4096
    ensures 0 <= tbl + (vsec + i) % 4096 < MEM_WORDS
    ensures Mapped(m, tbl, vsec, psec, i + 1, perm) ==
            Mapped(m, tbl, vsec, psec, i, perm)[tbl + (vsec + i) % 4096 := SectionDescriptor((psec + i) % 4096, perm)]
  {
    var next := Mapped(m, tbl, vsec, psec, i, perm)[tbl + (vsec + i) % 4096 := SectionDescriptor((psec + i) % 4096, perm)];
    forall j | 0 <= j < MEM_WORDS
      ensures Mapped(m, tbl, vsec, psec, i + 1, perm)[j] == next[j]
    {
      if tbl <= j < tbl + TABLE_WORDS {
        OffsetIs(j - tbl, vsec, i);
      }
    }
  }

  method PteInitLoop(mem: array<Word>, pstart: Word, pend: Word, perm: nat, vstart: Word, base: Word)
    requires mem.Length == MEM_WORDS && perm < 4
    modifies mem
    ensures mem[..] == PteInit(old(mem[..]), pstart, pend, perm, vstart, base)
  {
    SecOfRoundDown(pstart);
    hide AssembledPte, GenPteAddr, PageNum, RoundDown, Sec, Wrap;
    var vs := RoundDown(pstart, SECTION);
    var pageNum := PageNum(pstart, pend);
    ghost var tbl, vsec, psec := TableIndex(base), Sec(vstart), Sec(pstart);
    ghost var m0 := mem[..];
    var i := 0;
    while i < pageNum
      invariant 0 <= i <= pageNum
      invariant mem[..] == Mapped(m0, tbl, vsec, psec, i, perm)
    {
      IterationPte(vs, perm, i);
      IterationAddr(vstart, base, i);
      var pte: Word := AssembledPte(Wrap(vs + Wrap(i * SECTION)), perm);
      var addr: Word := GenPteAddr(base, Wrap(vstart + Wrap(i * SECTION)));
      StoreWord(mem, addr, pte);
      MappedStep(m0, tbl, vsec, psec, i, perm);
      i := i + 1;
    }
  }

  /** The word is cleared by _memset before it is assigned. */
  method StoreWord(mem: array<Word>, addr: Word, w: Word)
    requires mem.Length == MEM_WORDS
    modifies mem
    ensures mem[..] == old(mem[..])[addr / 4 := w]
  {
    mem[addr / 4] := 0;
    mem[addr / 4] := w;
  }

  /** The word of iteration i. */
  lemma IterationPte(vs: Word, perm: nat, i: nat)
    requires perm < 4
    ensures AssembledPte(Wrap(vs + Wrap(i * SECTION)), perm) == SectionDescriptor((Sec(vs) + i) % 4096, perm)
  {
    PteIsDescriptor(Wrap(vs + Wrap(i * SECTION)), perm);
    SectionStep(vs, i);
  }

  /** The address of iteration i. */
  lemma IterationAddr(vstart: Word, base: Word, i: nat)
    ensures GenPteAddr(base, Wrap(vstart + Wrap(i * SECTION))) == 4 * (TableIndex(base) + (Sec(vstart) + i) % 4096)
  {
    hide GenPteAddr, Wrap, Sec;
    PteAddrIsSum(base, Wrap(vstart + Wrap(i * SECTION)));
    SectionStep(vstart, i);
    assert RoundDown(base, TABLE_BYTES) == base / TABLE_BYTES * TABLE_BYTES;
  }

  /** pte_init read back by a walk: addresses of the mapped sections translate by the offset of their section, with
      the requested permission, domain 0; every other address translates as before. */
  lemma PteInitWalk(m: Memory, pstart: Word, pend: Word, perm: nat, vstart: Word, base: Word, va: Word)
    requires perm < 4
    ensures var k := Offset(Sec(va), Sec(vstart));
            Walk(PteInit(m, pstart, pend, perm, vstart, base), base, va) ==
            if k < PageNum(pstart, pend)
            then Section((Sec(pstart) + k) % 4096 * SECTION + va % SECTION, perm, 0, false, true, 0, true)
            else Walk(m, base, va)
  {
    var k := Offset(Sec(va), Sec(vstart));
    DecodeDescriptor((Sec(pstart) + k) % 4096, perm, va);
  }

  /** A range that starts at a section, of which page_num_cal counts the sections, and whose virtual image does not
      wrap. */
  ghost predicate PlainRange(pstart: Word, pend: Word, vstart: Word) {
    && pstart % SECTION == 0 && vstart % SECTION == 0
    && pstart <= pend && !(pstart < SECTION && pend > 0xfff0_0000)
    && vstart + PageNum(pstart, pend) * SECTION <= WORD_RANGE
  }

  /** pte_init implements the translation vstart + d |-> pstart + d on the rounded range, and nothing else. */
  lemma PteInitRefinesTranslation(m: Memory, pstart: Word, pend: Word, perm: nat, vstart: Word, base: Word)
    requires perm < 4 && PlainRange(pstart, pend, vstart)
    ensures var m' := PteInit(m, pstart, pend, perm, vstart, base);
            var size := PageNum(pstart, pend) * SECTION;
            && pend <= pstart + size < pend + SECTION && pstart + size <= WORD_RANGE
            && (forall va: Word {:trigger Walk(m', base, va)} ::
                  Walk(m', base, va) == if vstart <= va < vstart + size
                                        then Section(pstart + (va - vstart), perm, 0, false, true, 0, true)
                                        else Walk(m, base, va))
  {
    var m' := PteInit(m, pstart, pend, perm, vstart, base);
    PlainRangeSize(pstart, pend, vstart);
    hide RoundUp, PageNum, Walk, PteInit, Offset;
    var size := PageNum(pstart, pend) * SECTION;
    forall va: Word
      ensures Walk(m', base, va) == if vstart <= va < vstart + size
                                    then Section(pstart + (va - vstart), perm, 0, false, true, 0, true)
                                    else Walk(m, base, va)
    {
      PteInitWalk(m, pstart, pend, perm, vstart, base, va);
      PlainOffset(pstart, pend, vstart, va);
    }
  }

  /** Every entry outside the mapped range, and every word outside the table, keeps its value. */
  lemma PteInitKeeps(m: Memory, pstart: Word, pend: Word, perm: nat, vstart: Word, base: Word, j: nat)
    requires perm < 4 && PlainRange(pstart, pend, vstart) && j < MEM_WORDS
    requires !(Sec(vstart) <= j - TableIndex(base) < Sec(vstart) + PageNum(pstart, pend))
    ensures PteInit(m, pstart, pend, perm, vstart, base)[j] == m[j]
  {
    var k := j - TableIndex(base);
    if 0 <= k < 4096 {
      PlainRangeSize(pstart, pend, vstart);
      hide RoundUp, PageNum;
      DivMod(k * SECTION, SECTION, k, 0);
      PlainOffset(pstart, pend, vstart, k * SECTION);
      assert vstart == Sec(vstart) * SECTION;
    }
  }

  lemma PlainRangeSize(pstart: Word, pend: Word, vstart: Word)
    requires PlainRange(pstart, pend, vstart)
    ensures PageNum(pstart, pend) == (pend + SECTION - 1) / SECTION - Sec(pstart)
    ensures var size := PageNum(pstart, pend) * SECTION;
            pend <= pstart + size < pend + SECTION && pstart + size <= WORD_RANGE
  {
    hide PageNum;
    PageNumExact(pstart, pend);
    var t := pend + SECTION - 1;
    assert t == t / SECTION * SECTION + t % SECTION && pstart == Sec(pstart) * SECTION;
    assert t / SECTION <= 4096;
  }

  /** The section offset of an address is below the page count exactly inside the range. */
  lemma PlainOffset(pstart: Word, pend: Word, vstart: Word, va: Word)
    requires PlainRange(pstart, pend, vstart)
    ensures var k := Offset(Sec(va), Sec(vstart));
            var size := PageNum(pstart, pend) * SECTION;
            && (k < PageNum(pstart, pend) <==> vstart <= va < vstart + size)
            && (vstart <= va < vstart + size ==>
                  (Sec(pstart) + k) % 4096 * SECTION + va % SECTION == pstart + (va - vstart))
  {
    hide RoundUp, PageNum;
    PlainRangeSize(pstart, pend, vstart);
    var n := PageNum(pstart, pend);
    var size := n * SECTION;
    var v, p, a := Sec(vstart), Sec(pstart), Sec(va);
    assert vstart == v * SECTION && pstart == p * SECTION && va == a * SECTION + va % SECTION;
    assert v + n <= 4096 && p + n <= 4096;
    assert Offset(a, v) == if a < v then a - v + 4096 else a - v;
    assert vstart <= va < vstart + size <==> v <= a < v + n;
  }
}
