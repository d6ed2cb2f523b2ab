/** klib/mem.c at word granularity: the fill and copy loops over physical memory. */
module Mem {
  import opened Words
  import opened Mmu

  /** m with the words ws written from index k on. */
  function Write(m: Memory, k: nat, ws: seq<Word>): (r: Memory)
    requires k + |ws| <= MEM_WORDS
    ensures forall j :: 0 <= j < MEM_WORDS ==> r[j] == if k <= j < k + |ws| then ws[j - k] else m[j]
  {
    m[..k] + ws + m[k + |ws|..]
  }

  function Fill(m: Memory, k: nat, n: nat, v: Word): (r: Memory)
    requires k + n <= MEM_WORDS
    ensures forall j :: 0 <= j < MEM_WORDS ==> r[j] == if k <= j < k + n then v else m[j]
  {
    Write(m, k, seq(n, _ => v))
  }

  /** n words copied from index src to index dst. */
  function Copy(m: Memory, dst: nat, src: nat, n: nat): (r: Memory)
    requires dst + n <= MEM_WORDS && src + n <= MEM_WORDS
    ensures forall j :: 0 <= j < MEM_WORDS ==> r[j] == if dst <= j < dst + n then m[src + (j - dst)] else m[j]
  {
    Write(m, dst, m[src..src + n])
  }

  /** _memset. */
  method MemSet(mem: array<Word>, start: nat, value: Word, n: nat)
    requires mem.Length == MEM_WORDS && start + n <= MEM_WORDS
    modifies mem
    ensures mem[..] == Fill(old(mem[..]), start, n, value)
  {
    var i := 0;
    while i < n
      invariant 0 <= i <= n
      invariant forall j :: 0 <= j < MEM_WORDS ==> mem[j] == if start <= j < start + i then value else old(mem[j])
    {
      mem[start + i] := value;
      i := i + 1;
    }
  }

  /** _memcpy; a forward copy between ranges that do not overlap. */
  method MemCpy(mem: array<Word>, dest: nat, src: nat, nwords: nat)
    requires mem.Length == MEM_WORDS && dest + nwords <= MEM_WORDS && src + nwords <= MEM_WORDS
    requires dest + nwords <= src || src + nwords <= dest
    modifies mem
    ensures mem[..] == Copy(old(mem[..]), dest, src, nwords)
  {
    var d, s, left := dest, src, nwords;
    while left != 0
      invariant 0 <= left <= nwords && d == dest + (nwords - left) && s == src + (nwords - left)
      invariant forall j :: 0 <= j < MEM_WORDS ==>
                  mem[j] == if dest <= j < d then old(mem[src + (j - dest)]) else old(mem[j])
      decreases left
    {
      mem[d] := mem[s];
      d := d + 1;
      s := s + 1;
      left := left - 1;
    }
  }

  method Store(mem: array<Word>, k: nat, v: Word)
    requires mem.Length == MEM_WORDS && k < MEM_WORDS
    modifies mem
    ensures mem[..] == old(mem[..])[k := v]
  {
    mem[k] := v;
  }
}
