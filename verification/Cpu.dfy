/** exception.s and task_asm.s: the tick path of irq_entry and switch_task, instruction by instruction, on a processor
    with the banked registers the paths use. */
module Cpu {
  import opened Words
  import opened Mmu
  import opened Mem
  import opened Context

  const IRQ_MODE: nat := 0x12
  const SVC_MODE: nat := 0x13
  const IRQ_STACK: Word := 0x9df4_1000
  const OSTICK_IRQ: Word := 66
  const OSTICK_MSEC: Word := 5

  function ModeOf(cpsr: Word): nat {
    cpsr % 0x20
  }

  /** The modes in which code runs on the registers of the user bank; 0 stands for what a created task is given. */
  predicate OnUserBank(cpsr: Word) {
    ModeOf(cpsr) == 0x10 || ModeOf(cpsr) == 0x1f || ModeOf(cpsr) == 0
  }

  /** bic r10, r10, #0x1F; orr r10, r10, #mode; orr r10, r10, #0xC0. */
  function WithMode(cpsr: Word, mode: nat): nat
    requires mode < 0x20
  {
    BitOr(BitOr(cpsr - cpsr % 0x20, mode), 0xc0)
  }

  lemma {:induction false} OrKeepsLow(a: nat, h: nat, k: nat)
    ensures BitOr(a, h * Pow2(k)) % Pow2(k) == a % Pow2(k)
    decreases k
  {
    if k != 0 {
      var x, y, p := h * Pow2(k), h * Pow2(k - 1), Pow2(k - 1);
      HalfOfScaled(h, k);
      Halves(x, y, 0);
      OrUnfolds(a, x);
      OrKeepsLow(a / 2, h, k - 1);
      var b := BitOr(a / 2, y);
      DoubledRemainder(b, a % 2, p);
      DoubledRemainder(a / 2, a % 2, p);
    }
  }

  lemma DoubledRemainder(b: nat, bit: nat, p: nat)
    requires bit < 2 && 0 < p
    ensures (2 * b + bit) % (2 * p) == 2 * (b % p) + bit
  {
    assert b == b / p * p + b % p;
    assert 2 * b + bit == b / p * (2 * p) + (2 * (b % p) + bit);
    DivMod(2 * b + bit, 2 * p, b / p, 2 * (b % p) + bit);
  }

  lemma ModePowers()
    ensures Pow2(5) == 0x20
  {
  }

  lemma {:induction false} OrAtLeast(a: nat, b: nat)
    ensures b <= BitOr(a, b)
    decreases b
  {
    if b != 0 {
      OrUnfolds(a, b);
      OrAtLeast(a / 2, b / 2);
    }
  }

  /** The last orr: bits 6 and 7 mask interrupts, the others stay. */
  lemma OrMask(a: nat)
    ensures BitOr(a, 0xc0) == a / 0x100 * 0x100 + 0xc0 + a % 0x40
  {
    hide BitOr;
    assert Pow2(6) == 0x40;
    assert Pow2(8) == 0x100;
    var l := a % 0x100;
    OrBelow(a / 0x100, 8, l, 0xc0);
    OrKeepsLow(l, 3, 6);
    OrAtLeast(l, 0xc0);
    DivMod(a, 0x40, a / 0x100 * 4 + l / 0x40, l % 0x40);
  }

  /** The sequence yields a status word of the requested mode in which interrupts are masked. */
  lemma WithModeIs(cpsr: Word, mode: nat)
    requires mode < 0x20
    ensures WithMode(cpsr, mode) == cpsr / 0x100 * 0x100 + 0xc0 + cpsr / 0x20 % 2 * 0x20 + mode < WORD_RANGE
    ensures ModeOf(WithMode(cpsr, mode)) == mode && Masked(WithMode(cpsr, mode))
  {
    hide BitOr, Masked, ModeOf;
    ModePowers();
    var h, q, t := cpsr / 0x20, cpsr / 0x100, cpsr / 0x20 % 2;
    assert cpsr - cpsr % 0x20 == h * 0x20;
    OrIsAdd(h, 5, mode);
    OrMask(h * 0x20 + mode);
    Fields(cpsr, mode);
    InMode(q, t, mode);
  }

  /** The status word with its mode field replaced, taken apart. */
  lemma Fields(cpsr: Word, mode: nat)
    requires mode < 0x20
    ensures (cpsr / 0x20 * 0x20 + mode) / 0x100 == cpsr / 0x100
    ensures (cpsr / 0x20 * 0x20 + mode) % 0x40 == cpsr / 0x20 % 2 * 0x20 + mode
  {
    var h := cpsr / 0x20;
    assert h == h / 8 * 8 + h % 8 && h == h / 2 * 2 + h % 2;
    DivMod(cpsr, 0x100, h / 8, h % 8 * 0x20 + cpsr % 0x20);
    DivMod(h * 0x20 + mode, 0x100, h / 8, h % 8 * 0x20 + mode);
    DivMod(h * 0x20 + mode, 0x40, h / 2, h % 2 * 0x20 + mode);
  }

  /** A status word with bits 6 and 7 set. */
  lemma InMode(q: nat, t: nat, mode: nat)
    requires q < 0x100_0000 && t < 2 && mode < 0x20
    ensures var w := q * 0x100 + 0xc0 + t * 0x20 + mode;
            w < WORD_RANGE && ModeOf(w) == mode && Masked(w)
  {
    var w: Word := q * 0x100 + 0xc0 + t * 0x20 + mode;
    DivMod(w, 0x20, q * 8 + 6 + t, mode);
    DivMod(w, 0x80, q * 2 + 1, 0x40 + t * 0x20 + mode);
    DivMod(q * 2 + 1, 2, q, 1);
  }

  class Processor {
    const mem: array<Word>
    var r: Bank
    var spUsr: Word
    var lrUsr: Word
    var spIrq: Word
    var lrIrq: Word
    var spSvc: Word
    var lrSvc: Word
    var pc: Word
    var cpsr: Word
    var spsrIrq: Word
    var spsrSvc: Word

    constructor (mem: array<Word>)
      ensures this.mem == mem
    {
      this.mem := mem;
      r := seq(13, _ => 0);
      spUsr, lrUsr, spIrq, lrIrq, spSvc, lrSvc, pc, cpsr, spsrIrq, spsrSvc := 0, 0, 0, 0, 0, 0, 0, 0, 0, 0;
    }

    /** What a user task sees. */
    function View(): Regs
      reads this
    {
      Regs(r, spUsr, lrUsr, pc, cpsr)
    }

    /** sp, lr and spsr are those of the current mode; the modes that the paths do not use have none here. */
    function Sp(): Word
      reads this
    {
      if ModeOf(cpsr) == 0x12 then spIrq else if ModeOf(cpsr) == 0x13 then spSvc
      else if OnUserBank(cpsr) then spUsr else 0
    }

    function Lr(): Word
      reads this
    {
      if ModeOf(cpsr) == 0x12 then lrIrq else if ModeOf(cpsr) == 0x13 then lrSvc
      else if OnUserBank(cpsr) then lrUsr else 0
    }

    function Spsr(): Word
      reads this
    {
      if ModeOf(cpsr) == 0x12 then spsrIrq else if ModeOf(cpsr) == 0x13 then spsrSvc else 0
    }

    method SetSp(sp: Word)
      modifies this`spUsr, this`spIrq, this`spSvc
      ensures spIrq == if ModeOf(cpsr) == 0x12 then sp else old(spIrq)
      ensures spSvc == if ModeOf(cpsr) == 0x13 then sp else old(spSvc)
      ensures spUsr == if OnUserBank(cpsr) then sp else old(spUsr)
    {
      if ModeOf(cpsr) == 0x12 {
        spIrq := sp;
      } else if ModeOf(cpsr) == 0x13 {
        spSvc := sp;
      } else if OnUserBank(cpsr) {
        spUsr := sp;
      }
    }

    method SetLr(lr: Word)
      modifies this`lrUsr, this`lrIrq, this`lrSvc
      ensures lrIrq == if ModeOf(cpsr) == 0x12 then lr else old(lrIrq)
      ensures lrSvc == if ModeOf(cpsr) == 0x13 then lr else old(lrSvc)
      ensures lrUsr == if OnUserBank(cpsr) then lr else old(lrUsr)
    {
      if ModeOf(cpsr) == 0x12 {
        lrIrq := lr;
      } else if ModeOf(cpsr) == 0x13 {
        lrSvc := lr;
      } else if OnUserBank(cpsr) {
        lrUsr := lr;
      }
    }

    /** A full-descending stack pointer with room for n words. */
    predicate Room(sp: Word, n: nat) {
      sp % 4 == 0 && 4 * n <= sp
    }

    /** stmfd sp!, {r0-r12, lr}.  Like every step of the kernel's own code, it needs interrupts masked. */
    method PushAll()
      requires Masked(cpsr)
      requires mem.Length == MEM_WORDS && Room(Sp(), FRAME_WORDS)
      modifies this`spUsr, this`spIrq, this`spSvc, mem
      ensures spIrq == if ModeOf(cpsr) == 0x12 then old(Sp()) - FRAME_BYTES else old(spIrq)
      ensures spSvc == if ModeOf(cpsr) == 0x13 then old(Sp()) - FRAME_BYTES else old(spSvc)
      ensures spUsr == if OnUserBank(cpsr) then old(Sp()) - FRAME_BYTES else old(spUsr)
      ensures mem[..] == Write(old(mem[..]), (old(Sp()) - FRAME_BYTES) / 4, r + [Lr()])
    {
      hide ModeOf, Write;
      var sp := Stmfd(Sp(), r + [Lr()]);
      SetSp(sp);
    }

    /** ldmfd sp!, {r0-r12, lr}. */
    method PopAll()
      requires Masked(cpsr)
      requires mem.Length == MEM_WORDS && Sp() / 4 + FRAME_WORDS <= MEM_WORDS
      modifies this`r, this`spUsr, this`spIrq, this`spSvc, this`lrUsr, this`lrIrq, this`lrSvc
      ensures var at := old(Sp()) / 4;
              && r == mem[at..at + 13]
              && lrIrq == (if ModeOf(cpsr) == 0x12 then mem[at + 13] else old(lrIrq))
              && lrSvc == (if ModeOf(cpsr) == 0x13 then mem[at + 13] else old(lrSvc))
              && lrUsr == (if OnUserBank(cpsr) then mem[at + 13] else old(lrUsr))
      ensures spIrq == if ModeOf(cpsr) == 0x12 then Wrap(old(Sp()) + FRAME_BYTES) else old(spIrq)
      ensures spSvc == if ModeOf(cpsr) == 0x13 then Wrap(old(Sp()) + FRAME_BYTES) else old(spSvc)
      ensures spUsr == if OnUserBank(cpsr) then Wrap(old(Sp()) + FRAME_BYTES) else old(spUsr)
    {
      hide ModeOf, Wrap;
      var sp := Sp();
      r := mem[sp / 4..sp / 4 + 13];
      SetLr(mem[sp / 4 + 13]);
      SetSp(Wrap(sp + FRAME_BYTES));
    }

    /** The words ws written downwards from sp. */
    method Stmfd(sp: Word, ws: seq<Word>) returns (sp': Word)
      requires Masked(cpsr)
      requires mem.Length == MEM_WORDS && Room(sp, |ws|)
      modifies mem
      ensures sp' == sp - 4 * |ws| && sp / 4 <= MEM_WORDS && mem[..] == Write(old(mem[..]), sp' / 4, ws)
    {
      var i := 0;
      sp' := sp - 4 * |ws|;
      while i < |ws|
        invariant 0 <= i <= |ws|
        invariant forall j :: 0 <= j < MEM_WORDS ==>
                    mem[j] == if sp' / 4 <= j < sp' / 4 + i then ws[j - sp' / 4] else old(mem[j])
      {
        mem[sp' / 4 + i] := ws[i];
        i := i + 1;
      }
    }

    /** mov ri, w, or mrs ri, with w the status register. */
    method Move(i: nat, w: Word)
      requires i < 13 && Masked(cpsr)
      modifies this`r
      ensures r == old(r)[i := w]
    {
      var bank: seq<Word> := r[i := w];
      r := bank;
    }

    /** A call of a C function: r0-r3, r12 and lr are free for it to change (AAPCS); it gets garbage to leave there and
        an r0 to return. */
    method Call(result: Word, garbage: Bank)
      requires Masked(cpsr)
      modifies this`r
      ensures r == [result] + garbage[1..4] + old(r)[4..12] + [garbage[12]]
    {
      r := [result] + garbage[1..4] + r[4..12] + [garbage[12]];
    }

    /** mrs r10, cpsr; bic; orr; orr; msr cpsr, r10.  Only privileged code can do it. */
    method SwitchMode(mode: nat)
      requires mode < 0x20 && Masked(cpsr) && ModeOf(cpsr) in {0x12, 0x13, 0x1f}
      modifies this`r, this`cpsr
      ensures r == old(r)[10 := r[10]] && ModeOf(cpsr) == mode && Masked(cpsr)
    {
      WithModeIs(cpsr, mode);
      var w: Word := WithMode(cpsr, mode);
      r := r[10 := w];
      MsrWrites(cpsr, w);
      cpsr := MsrFc(cpsr, w);
      LowBits(cpsr, w);
      ControlDecides(cpsr, w);
    }

    /** IRQ exception entry, by the processor, which sets the I bit. */
    method Interrupt(irqCpsr: Word)
      requires OnUserBank(cpsr) && !Masked(cpsr) && pc + 4 < WORD_RANGE
      requires ModeOf(irqCpsr) == IRQ_MODE && Masked(irqCpsr)
      modifies this`lrIrq, this`spsrIrq, this`cpsr
      ensures lrIrq == pc + 4 && spsrIrq == old(cpsr) && cpsr == irqCpsr
    {
      lrIrq := pc + 4;
      spsrIrq := cpsr;
      cpsr := irqCpsr;
    }

    /** The start of irq_entry: the registers go on the interrupt stack and, the interrupt being the tick, come back. */
    method Recognise(garbage: Bank)
      requires mem.Length == MEM_WORDS && Room(spIrq, FRAME_WORDS) && Masked(cpsr) && ModeOf(cpsr) == 0x12
      modifies this`r, this`spUsr, this`spIrq, this`spSvc, this`lrUsr, this`lrIrq, this`lrSvc, this`cpsr, mem
      ensures r == old(r) && lrIrq == old(lrIrq) && spIrq == old(spIrq)
      ensures spUsr == old(spUsr) && spSvc == old(spSvc) && lrUsr == old(lrUsr) && lrSvc == old(lrSvc)
      ensures ModeOf(cpsr) == ModeOf(old(cpsr)) && Masked(cpsr)
      ensures mem[..] == Write(old(mem[..]), (spIrq - FRAME_BYTES) / 4, r + [lrIrq])
    {
      hide ModeOf, Wrap, Write;
      WrapIs(spIrq, 0, spIrq);
      ghost var all := r + [lrIrq];
      PushAll();
      Call(OSTICK_IRQ, garbage);
      SetLr(garbage[0]);
      Compare();
      Written(old(mem[..]), spIrq / 4, all);
      assert mem[spIrq / 4..spIrq / 4 + 14] == mem[..][spIrq / 4..spIrq / 4 + 14];
      assert mem[spIrq / 4..spIrq / 4 + 13] == all[..13];
      assert mem[spIrq / 4 + 13] == all[13];
      PopAll();
    }

    /** The rest of irq_entry for the tick: the context is pushed on the user stack, from system mode. */
    method PushContext() returns (context: Word, r10: Word)
      requires mem.Length == MEM_WORDS && Room(spUsr, FRAME_WORDS) && lrIrq == pc + 4 && Masked(cpsr)
      requires ModeOf(cpsr) == 0x12
      modifies this`r, this`lrUsr, this`lrIrq, this`lrSvc, this`spIrq, this`spSvc, this`spUsr, this`cpsr, mem
      ensures context == old(spUsr) - FRAME_BYTES && r[0] == context && ModeOf(cpsr) == SVC_MODE && Masked(cpsr)
      ensures mem[..] == Write(old(mem[..]), context / 4, Frame(old(View()).(cpsr := spsrIrq), r10))
      ensures spIrq == IRQ_STACK && spSvc == old(spSvc)
    {
      hide ModeOf, Write;
      SetLr(Lr() - 4);
      Move(9, Lr());
      Move(12, Spsr());
      SetSp(IRQ_STACK);
      SwitchMode(SYS_MODE);
      r10 := r[10];
      assert r + [lrUsr] == Frame(old(View()).(cpsr := spsrIrq), r10);
      PushAll();
      Move(0, Sp());
      context := Sp();
      SwitchMode(SVC_MODE);
    }

    /** SVC exception entry, by the processor, which sets the I bit. */
    method SupervisorCall(svcCpsr: Word)
      requires OnUserBank(cpsr) && pc + 4 < WORD_RANGE
      requires ModeOf(svcCpsr) == SVC_MODE && Masked(svcCpsr)
      modifies this`lrSvc, this`spsrSvc, this`cpsr
      ensures lrSvc == pc + 4 && spsrSvc == old(cpsr) && cpsr == svcCpsr
    {
      lrSvc := pc + 4;
      spsrSvc := cpsr;
      cpsr := svcCpsr;
    }

    /** svc_entry, up to the call of syscall_handler: the same frame as for the tick, with the address after the svc
        instruction.  The arguments are the number of the call in r0, the context in r1, and what the caller passed in
        r2. */
    method SvcEntry() returns (context: Word, r10: Word)
      requires mem.Length == MEM_WORDS && Room(spUsr, FRAME_WORDS) && Masked(cpsr)
      requires ModeOf(cpsr) == 0x13
      modifies this`r, this`spUsr, this`spIrq, this`spSvc, this`cpsr, mem
      ensures context == old(spUsr) - FRAME_BYTES && r[1] == context && ModeOf(cpsr) == SVC_MODE && Masked(cpsr)
      ensures r[0] == old(r[0]) && r[2..9] == old(r)[2..9] && spSvc == old(spSvc)
      ensures mem[..] == Write(old(mem[..]), context / 4,
                               Frame(old(View()).(pc := lrSvc, cpsr := spsrSvc), r10))
    {
      hide ModeOf, Write;
      Move(9, Lr());
      Move(12, Spsr());
      SwitchMode(SYS_MODE);
      r10 := r[10];
      assert r + [lrUsr] == Frame(old(View()).(pc := lrSvc, cpsr := spsrSvc), r10);
      PushAll();
      Move(1, Sp());
      context := Sp();
      SwitchMode(SVC_MODE);
    }

    /** irq_entry for the tick, up to the call of timer0_isr, of which context is the argument: the task's registers are
        on its own stack, in the layout that switch_task expects. */
    method IrqEntryOstick(garbage: Bank) returns (context: Word, r10: Word)
      requires mem.Length == MEM_WORDS
      requires ModeOf(cpsr) == IRQ_MODE && Masked(cpsr) && lrIrq == pc + 4
      requires Room(spIrq, FRAME_WORDS) && Room(spUsr, FRAME_WORDS)
      modifies this, mem
      ensures context == old(spUsr) - FRAME_BYTES && r[0] == context && ModeOf(cpsr) == SVC_MODE && Masked(cpsr)
      ensures mem[..] == Write(Write(old(mem[..]), (old(spIrq) - FRAME_BYTES) / 4, old(r) + [old(lrIrq)]),
                               context / 4, Frame(old(View()).(cpsr := old(spsrIrq)), r10))
      ensures spIrq == IRQ_STACK && spSvc == old(spSvc)
      ensures Room(spIrq, FRAME_WORDS) && 0x9df0_0000 <= spIrq - FRAME_BYTES && spIrq < 0xa000_0000
    {
      hide ModeOf, Write, Frame;
      Recognise(garbage);
      assert View().(cpsr := spsrIrq) == old(View()).(cpsr := spsrIrq);
      context, r10 := PushContext();
    }

    /** cmp r0, #66 with equality: Z and C set, N and V clear. */
    method Compare()
      requires r[0] == 66 && Masked(cpsr)
      modifies this`cpsr
      ensures cpsr == 0x6000_0000 + old(cpsr) % 0x1000_0000
      ensures ModeOf(cpsr) == ModeOf(old(cpsr)) && Masked(cpsr)
    {
      FlagsOnly(cpsr);
      cpsr := 0x6000_0000 + cpsr % 0x1000_0000;
    }

    /** The start of switch_task: the kernel's own registers go on the supervisor stack. */
    method SaveKernelState() returns (ws: seq<Word>)
      requires mem.Length == MEM_WORDS && Room(spSvc, 10) && Masked(cpsr) && ModeOf(cpsr) == 0x13
      modifies this`r, this`spUsr, this`spIrq, this`spSvc, mem
      ensures r[0] == old(r[0])
      ensures spSvc == old(spSvc) - 40
      ensures ws == old(r)[4..12] + [old(spsrSvc), lrSvc] && mem[..] == Write(old(mem[..]), spSvc / 4, ws)
    {
      hide Write;
      Move(12, Spsr());
      ws := r[4..13] + [Lr()];
      var sp := Stmfd(Sp(), ws);
      SetSp(sp);
    }

    /** Pop of the whole frame f, found at the user stack pointer. */
    method LoadContext(ghost f: seq<Word>)
      requires Masked(cpsr) && ModeOf(cpsr) == 0x1f
      requires mem.Length == MEM_WORDS && |f| == FRAME_WORDS && spUsr / 4 + FRAME_WORDS <= MEM_WORDS
      requires mem[spUsr / 4..spUsr / 4 + FRAME_WORDS] == f
      modifies this`r, this`spUsr, this`spIrq, this`spSvc, this`lrUsr, this`lrIrq, this`lrSvc
      ensures r + [lrUsr] == f && r == f[..13] && lrUsr == f[13] && spUsr == Wrap(old(spUsr) + FRAME_BYTES)
    {
      hide Wrap;
      assert mem[spUsr / 4..spUsr / 4 + 13] == f[..13];
      assert mem[spUsr / 4 + 13] == f[13];
      PopAll();
      assert f == f[..13] + [f[13]];
    }

    /** reload_ostick for a tick of 5 ms, on the user stack: it leaves what it likes in its own frame. */
    method ReloadOstick(garbage: Bank, below: Below)
      requires mem.Length == MEM_WORDS && Room(spUsr, RELOAD_WORDS)
      requires r[0] == 5 && Masked(cpsr) && ModeOf(cpsr) == 0x1f
      modifies this`r, this`lrUsr, this`lrIrq, this`lrSvc, mem
      ensures mem[..] == Write(old(mem[..]), (spUsr - RELOAD_BYTES) / 4, below)
    {
      hide Write;
      var sp := Stmfd(Sp(), below);
      Call(garbage[0], garbage);
      SetLr(garbage[1]);
    }

    /** The call of reload_ostick, the loaded registers being pushed around it, after which they come back. */
    method ReloadTick(ghost f: seq<Word>, context: Word, garbage: Bank, below: Below)
      requires mem.Length == MEM_WORDS && |f| == FRAME_WORDS && context % 4 == 0 && spUsr == context + FRAME_BYTES
      requires RELOAD_BYTES <= context && context / 4 + FRAME_WORDS <= MEM_WORDS
      requires mem[context / 4..context / 4 + FRAME_WORDS] == f && r + [lrUsr] == f
      requires Masked(cpsr) && ModeOf(cpsr) == 0x1f
      modifies this`r, this`spUsr, this`spIrq, this`spSvc, this`lrUsr, this`lrIrq, this`lrSvc, mem
      ensures mem[..] == Write(old(mem[..]), (context - RELOAD_BYTES) / 4, below)
      ensures r + [lrUsr] == f && spUsr == old(spUsr)
    {
      hide Frame, Wrap, Write;
      WrapIs(spUsr, 0, spUsr);
      PushAll();
      assert spUsr == context;
      SameWords(old(mem[..]), context / 4, f);
      Move(0, OSTICK_MSEC);
      ReloadOstick(garbage, below);
      ReloadKeeps(old(mem[..]), context, below);
      assert mem[context / 4..context / 4 + FRAME_WORDS] == mem[..][context / 4..context / 4 + FRAME_WORDS] == f;
      LoadContext(f);
    }

    /** switch_task on the context at address r0: the user view becomes the one the context describes.  Besides the
        kernel's stack, the words under the context are written. */
    method SwitchTask(context: Word, garbage: Bank, below: Below) returns (kernelCpsr: Word, ws: seq<Word>)
      requires mem.Length == MEM_WORDS && Masked(cpsr) && ModeOf(cpsr) == 0x13
      requires r[0] == context && context % 4 == 0 && RELOAD_BYTES <= context && context + FRAME_BYTES < WORD_RANGE
      requires Room(spSvc, 10) && (spSvc <= context || context + FRAME_BYTES <= spSvc - 40)
      modifies this, mem
      ensures View() == Resume(old(mem[context / 4..context / 4 + FRAME_WORDS]), context, kernelCpsr)
      ensures |ws| == 10
      ensures mem[..] == Write(Write(old(mem[..]), (old(spSvc) - 40) / 4, ws), (context - RELOAD_BYTES) / 4, below)
    {
      hide ModeOf, Write, MsrFc, Wrap;
      WrapIs(context + FRAME_BYTES, 0, context + FRAME_BYTES);
      ghost var f := mem[context / 4..context / 4 + FRAME_WORDS];
      ws := SaveKernelState();
      FrameKept(old(mem[..]), spSvc, ws, context);
      assert mem[context / 4..context / 4 + FRAME_WORDS] == f;
      SwitchMode(SYS_MODE);
      SetSp(r[0]);
      LoadContext(f);
      ReloadTick(f, context, garbage, below);
      kernelCpsr := cpsr;
      cpsr := MsrFc(cpsr, r[12]);
      pc := r[9];
      assert r == f[..13];
    }

    /** first_run on the context at address r0: like switch_task, but the status is that of user mode, with interrupts
        on, whatever the context holds. */
    method FirstRun(context: Word, garbage: Bank, below: Below) returns (kernelCpsr: Word)
      requires mem.Length == MEM_WORDS && Masked(cpsr) && ModeOf(cpsr) == 0x13
      requires r[0] == context && context % 4 == 0 && RELOAD_BYTES <= context && context + FRAME_BYTES < WORD_RANGE
      modifies this`r, this`spUsr, this`spIrq, this`spSvc, this`lrUsr, this`lrIrq, this`lrSvc, this`cpsr, this`pc, mem
      ensures View() == Begin(old(mem[context / 4..context / 4 + FRAME_WORDS]), context, kernelCpsr)
      ensures mem[..] == Write(old(mem[..]), (context - RELOAD_BYTES) / 4, below)
    {
      hide ModeOf, Write, Wrap;
      WrapIs(context + FRAME_BYTES, 0, context + FRAME_BYTES);
      ghost var f := mem[context / 4..context / 4 + FRAME_WORDS];
      SwitchMode(SYS_MODE);
      SetSp(r[0]);
      LoadContext(f);
      ReloadTick(f, context, garbage, below);
      kernelCpsr := cpsr;
      cpsr := cpsr / 0x100 * 0x100 + USR_MODE;
      pc := r[9];
      assert r == f[..13];
    }

    /** Any kernel code and any other tasks, up to a call of switch_task on the context: they may write every word but
        those of the frame, and leave every register as they like. */
    method Otherwise(context: Word, writes: seq<Update>, bank: Bank, sp: Word, status: Word, saved: Word)
      requires Masked(status) && ModeOf(status) == 0x13
      requires mem.Length == MEM_WORDS && context / 4 + FRAME_WORDS <= MEM_WORDS
      requires forall i :: 0 <= i < |writes| ==> writes[i].at < MEM_WORDS && !InFrame(context, writes[i].at)
      modifies this, mem
      ensures r == bank[0 := context] && spSvc == sp && Masked(cpsr) && ModeOf(cpsr) == 0x13
      ensures mem[context / 4..context / 4 + FRAME_WORDS] == old(mem[context / 4..context / 4 + FRAME_WORDS])
    {
      var i := 0;
      while i < |writes|
        invariant 0 <= i <= |writes|
        invariant forall j :: 0 <= j < MEM_WORDS && InFrame(context, j) ==> mem[j] == old(mem[j])
      {
        mem[writes[i].at] := writes[i].value;
        i := i + 1;
      }
      r, spSvc, cpsr, spsrSvc := bank, sp, status, saved;
      Move(0, context);
    }

    /** A tick and, later, switch_task on the context that it left: the interrupted code continues. */
    method Preempt(irqCpsr: Word, garbage: Bank, writes: seq<Update>, bank: Bank, sp: Word, status: Word, saved: Word,
                   below: Below)
      returns (kernelCpsr: Word)
      requires mem.Length == MEM_WORDS && OnUserBank(cpsr) && !Masked(cpsr)
      requires ModeOf(irqCpsr) == IRQ_MODE && Masked(irqCpsr) && ModeOf(status) == SVC_MODE && Masked(status)
      requires pc + 4 < WORD_RANGE && Room(spIrq, FRAME_WORDS) && Room(spUsr, FRAME_WORDS + RELOAD_WORDS)
      requires Room(sp, 10) && (sp <= spUsr - FRAME_BYTES || spUsr <= sp - 40)
      requires forall i :: 0 <= i < |writes| ==>
                 writes[i].at < MEM_WORDS && !InFrame(spUsr - FRAME_BYTES, writes[i].at)
      modifies this, mem
      ensures Continues(old(View()), View())
    {
      hide ModeOf, Write, Frame, Resume, Continues;
      ghost var g := View();
      Interrupt(irqCpsr);
      assert View().(cpsr := spsrIrq) == g;
      ghost var m := Write(mem[..], (spIrq - FRAME_BYTES) / 4, r + [lrIrq]);
      var context, r10 := IrqEntryOstick(garbage);
      Written(m, context / 4, Frame(g, r10));
      kernelCpsr := Return(context, writes, bank, sp, status, saved, garbage, below, g, r10);
    }

    /** A yield and, later, switch_task on its context: the code continues after the svc instruction. */
    method Yield(svcCpsr: Word, garbage: Bank, writes: seq<Update>, bank: Bank, sp: Word, status: Word, saved: Word,
                 below: Below)
      returns (kernelCpsr: Word)
      requires mem.Length == MEM_WORDS && OnUserBank(cpsr)
      requires ModeOf(svcCpsr) == SVC_MODE && Masked(svcCpsr) && ModeOf(status) == SVC_MODE && Masked(status)
      requires pc + 4 < WORD_RANGE && Room(spUsr, FRAME_WORDS + RELOAD_WORDS)
      requires Room(sp, 10) && (sp <= spUsr - FRAME_BYTES || spUsr <= sp - 40)
      requires forall i :: 0 <= i < |writes| ==>
                 writes[i].at < MEM_WORDS && !InFrame(spUsr - FRAME_BYTES, writes[i].at)
      modifies this, mem
      ensures Continues(old(View()).(pc := old(pc) + 4), View())
    {
      hide ModeOf, Write, Frame, Resume, Continues;
      ghost var g := View().(pc := pc + 4);
      SupervisorCall(svcCpsr);
      assert View().(pc := lrSvc, cpsr := spsrSvc) == g;
      ghost var m := mem[..];
      var context, r10 := SvcEntry();
      Written(m, context / 4, Frame(g, r10));
      kernelCpsr := Return(context, writes, bank, sp, status, saved, garbage, below, g, r10);
    }

    /** The common second half. */
    method Return(context: Word, writes: seq<Update>, bank: Bank, sp: Word, status: Word, saved: Word, garbage: Bank,
                  below: Below, ghost g: Regs, ghost r10: Word)
      returns (kernelCpsr: Word)
      requires mem.Length == MEM_WORDS && FRAME_BYTES <= g.sp && context == g.sp - FRAME_BYTES && context % 4 == 0
      requires RELOAD_BYTES <= context && context / 4 + FRAME_WORDS <= MEM_WORDS
      requires ModeOf(status) == 0x13 && Masked(status)
      requires mem[context / 4..context / 4 + FRAME_WORDS] == Frame(g, r10)
      requires Room(sp, 10) && (sp <= context || context + FRAME_BYTES <= sp - 40)
      requires forall i :: 0 <= i < |writes| ==> writes[i].at < MEM_WORDS && !InFrame(context, writes[i].at)
      modifies this, mem
      ensures Continues(g, View())
    {
      hide ModeOf, Write, Frame, Resume, Continues;
      Otherwise(context, writes, bank, sp, status, saved);
      var ws;
      kernelCpsr, ws := SwitchTask(context, garbage, below);
      ResumeContinues(g, r10, kernelCpsr);
    }
  }

  datatype Update = Update(at: nat, value: Word)

  /** Word j belongs to the frame at the address context. */
  predicate InFrame(context: int, j: int) {
    context / 4 <= j < context / 4 + FRAME_WORDS
  }

  lemma FlagsOnly(cpsr: Word)
    ensures var w: Word := 0x6000_0000 + cpsr % 0x1000_0000;
            ModeOf(w) == ModeOf(cpsr) && Masked(w) == Masked(cpsr)
  {
    var q, low := cpsr / 0x1000_0000, cpsr % 0x1000_0000;
    DivMod(cpsr, 0x100, q * 0x10_0000 + low / 0x100, low % 0x100);
    DivMod(0x6000_0000 + low, 0x100, 0x60_0000 + low / 0x100, low % 0x100);
    ControlDecides(0x6000_0000 + low, cpsr);
    ControlByte(cpsr);
    ControlByte(0x6000_0000 + low);
  }

  lemma LowBits(a: Word, b: Word)
    requires SameFlagsAndControl(a, b)
    ensures ModeOf(a) == ModeOf(b)
  {
    var l := a % 0x100;
    DivMod(a, 0x20, a / 0x100 * 8 + l / 0x20, l % 0x20);
    DivMod(b, 0x20, b / 0x100 * 8 + l / 0x20, l % 0x20);
  }

  lemma Written(m: Memory, at: nat, ws: seq<Word>)
    requires at + |ws| <= |m|
    ensures Write(m, at, ws)[at..at + |ws|] == ws
  {
  }

  lemma SameWords(m: Memory, at: nat, ws: seq<Word>)
    requires at + |ws| <= |m| && m[at..at + |ws|] == ws
    ensures Write(m, at, ws) == m
  {
    forall i | at <= i < at + |ws| ensures m[i] == ws[i - at] {
      assert m[at..at + |ws|][i - at] == ws[i - at];
    }
  }

  /** Words written under a frame leave it as it was. */
  lemma ReloadKeeps(m: Memory, context: Word, below: Below)
    requires context % 4 == 0 && RELOAD_BYTES <= context && context / 4 + FRAME_WORDS <= MEM_WORDS
    ensures Write(m, (context - RELOAD_BYTES) / 4, below)[context / 4..context / 4 + FRAME_WORDS] ==
            m[context / 4..context / 4 + FRAME_WORDS]
  {
    DivMod(context - RELOAD_BYTES, 4, context / 4 - RELOAD_WORDS, 0);
  }

  /** Words pushed at sp leave a frame that they do not reach as it was. */
  lemma FrameKept(m: Memory, sp: Word, ws: seq<Word>, context: Word)
    requires sp % 4 == 0 && context % 4 == 0 && |ws| == 10
    requires sp / 4 + 10 <= MEM_WORDS && context / 4 + FRAME_WORDS <= MEM_WORDS
    requires sp + 40 <= context || context + FRAME_BYTES <= sp
    ensures Write(m, sp / 4, ws)[context / 4..context / 4 + FRAME_WORDS] == m[context / 4..context / 4 + FRAME_WORDS]
  {
  }
}
