/** The user context that exception.s saves on the user stack and task_asm.s restores: fourteen words, in which r9
    carries the return address, r12 the saved program status and r10 nothing of the user's. */
module Context {
  import opened Words

  const FRAME_WORDS: nat := 14
  const FRAME_BYTES: nat := 56

  const USR_MODE: nat := 0x10
  const SYS_MODE: nat := 0x1f

  /** The stack frame of reload_ostick, which switch_task and first_run call on the stack of the task they resume: the
      16 bytes below the context, of which the compiled function writes two words. */
  const RELOAD_WORDS: nat := 4
  const RELOAD_BYTES: nat := 16

  type Below = ws: seq<Word> | |ws| == RELOAD_WORDS witness [0, 0, 0, 0]

  type Bank = s: seq<Word> | |s| == 13 witness seq(13, _ => 0)

  /** What a user task sees of the processor. */
  datatype Regs = Regs(r: Bank, sp: Word, lr: Word, pc: Word, cpsr: Word)

  /** The words pushed by `stmfd sp!, {r0-r12, lr}` once r9 holds the return address and r12 the saved status. */
  function Frame(g: Regs, r10: Word): (f: seq<Word>)
    ensures |f| == FRAME_WORDS
  {
    g.r[..9] + [g.pc, r10, g.r[11], g.cpsr, g.lr]
  }

  /** `msr cpsr, rN` without a suffix writes the flags byte and the control byte only. */
  function MsrFc(cpsr: Word, w: Word): Word {
    w / 0x100_0000 * 0x100_0000 + cpsr / 0x100 % 0x1_0000 * 0x100 + w % 0x100
  }

  predicate SameFlagsAndControl(a: Word, b: Word) {
    a / 0x100_0000 == b / 0x100_0000 && a % 0x100 == b % 0x100
  }

  lemma MsrWrites(cpsr: Word, w: Word)
    ensures SameFlagsAndControl(MsrFc(cpsr, w), w) && MsrFc(cpsr, w) / 0x100 % 0x1_0000 == cpsr / 0x100 % 0x1_0000
  {
    var hi, mid, lo := w / 0x100_0000, cpsr / 0x100 % 0x1_0000, w % 0x100;
    DivMod(MsrFc(cpsr, w), 0x100_0000, hi, mid * 0x100 + lo);
    DivMod(MsrFc(cpsr, w), 0x100, hi * 0x1_0000 + mid, lo);
    DivMod(MsrFc(cpsr, w) / 0x100, 0x1_0000, hi, mid);
  }

  /** User mode.  The mode field 0, which the architecture reserves, counts as unprivileged too: it is that of the user
      mode of the 26-bit architectures. */
  predicate Unprivileged(cpsr: Word) {
    cpsr % 0x20 == USR_MODE || cpsr % 0x20 == 0
  }

  /** The I bit. */
  predicate Masked(cpsr: Word) {
    cpsr / 0x80 % 2 == 1
  }

  /** The status of code that page tables bind and that the tick can interrupt. */
  predicate UserStatus(cpsr: Word) {
    Unprivileged(cpsr) && !Masked(cpsr)
  }

  lemma ControlDecides(a: Word, b: Word)
    requires a % 0x100 == b % 0x100
    ensures Unprivileged(a) == Unprivileged(b) && Masked(a) == Masked(b)
  {
    ControlByte(a);
    ControlByte(b);
  }

  lemma ControlByte(a: Word)
    ensures a % 0x20 == a % 0x100 % 0x20 && a / 0x80 % 2 == a % 0x100 / 0x80
  {
    var h, c := a / 0x100, a % 0x100;
    DivMod(a, 0x20, h * 8 + c / 0x20, c % 0x20);
    DivMod(a, 0x80, h * 2 + c / 0x80, c % 0x80);
    DivMod(a / 0x80, 2, h, c / 0x80);
  }

  /** switch_task on the frame f at address sp, in a kernel whose own status is cpsr. */
  function Resume(f: seq<Word>, sp: Word, cpsr: Word): Regs
    requires |f| == FRAME_WORDS
  {
    Regs(f[..13], Wrap(sp + FRAME_BYTES), f[13], f[9], MsrFc(cpsr, f[12]))
  }

  /** first_run on the frame f: `msr CPSR_c` writes the control byte only, with that of user mode. */
  function Begin(f: seq<Word>, sp: Word, cpsr: Word): Regs
    requires |f| == FRAME_WORDS
  {
    Regs(f[..13], Wrap(sp + FRAME_BYTES), f[13], f[9], cpsr / 0x100 * 0x100 + USR_MODE)
  }

  /** g' continues where g was interrupted; r9, r10 and r12 are the carriers and are not preserved. */
  predicate Continues(g: Regs, g': Regs) {
    && g'.pc == g.pc && g'.sp == g.sp && g'.lr == g.lr
    && g'.r[..9] == g.r[..9] && g'.r[11] == g.r[11]
    && SameFlagsAndControl(g'.cpsr, g.cpsr)
  }

  lemma ResumeContinues(g: Regs, r10: Word, cpsr: Word)
    requires FRAME_BYTES <= g.sp
    ensures Continues(g, Resume(Frame(g, r10), g.sp - FRAME_BYTES, cpsr))
  {
    MsrWrites(cpsr, g.cpsr);
    var f := Frame(g, r10);
    assert f[..13][..9] == g.r[..9];
  }
}
