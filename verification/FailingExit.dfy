/** A run from boot at whose end an exit goes wrong. */
module FailingExit {
  import opened Words
  import opened Seqs
  import opened Sched
  import opened Mmu
  import opened PageTables
  import opened Mem
  import opened Context
  import opened KernelState
  import opened Steps
  import opened Invariants
  import opened Scheduling
  import opened Resumption
  import Ownership
  import Pages
  import Blocks

  /** The free lists after a creation, and after a switch. */
  lemma CreationTakesHeads(m: Machine, e: Event, m': Machine)
    requires Leads(m, e, m') && e.TaskCreate?
    ensures m.k.free != [] && m.k.kfree != [] && m'.k.free == m.k.free[1..] && m'.k.kfree == m.k.kfree[1..]
    ensures m'.regs == e.after && m'.exited == m.exited && |m'.k.tasks| == |m.k.tasks| + 1
    ensures m'.k.tasks[|m.k.tasks|].priority == e.prio && m'.k.tasks[..|m.k.tasks|] == m.k.tasks
  {
    hide Write, FreshStack, TaskTable;
  }

  lemma SwitchTakesNothing(m: Machine, e: Event, m': Machine, first: nat)
    requires IsSwitch(e) && Inv(m, first) && Leads(m, e, m')
    ensures m'.k.free == m.k.free && m'.k.kfree == m.k.kfree && m'.exited == m.exited
  {
    hide PagesOk, BlocksOk, ContextsOk, QueuesOk, StatusOk, Leads, SwitchAway, Suspend, FrameSpot, Write, Resume, Frame;
    SwitchIs(m, e, m');
    var pushed := PushKeepsInv(m, e.r10, first);
    SwitchEffect(pushed, m.regs.sp - FRAME_BYTES);
  }

  lemma CreateOnce(m: Machine, e: Event, first: nat) returns (m': Machine)
    requires Inv(m, first) && e.TaskCreate? && CanPush(m.regs.sp) && m.k.cur !in m.exited && CanAllocate(m.k)
    requires e.prio < MAXNUM_PRIORITY && |m.k.tasks| < 0x8000_0000
    ensures Leads(m, e, m') && Inv(m', first)
  {
    hide Inv, CanPush;
    InvIsShaped(m, first);
    m' := Progress(m, e, first);
    StepKeepsInv(m, e, m', first);
  }

  /** The shell creates a task of the highest priority; the tick runs it; it creates another of its own priority. */
  lemma ThreeSteps(mem: Memory, first: nat, shell: Word, regs: Regs, below: Below, entry: Word)
    returns (m1: Machine, m2: Machine, m3: Machine, again: Event)
    requires first + 5 <= Blocks.KBLK_NUM && CanPush(regs.sp) && !Masked(regs.cpsr)
    ensures var m := Ownership.BootMachine(mem, first, shell, regs, below);
            && Leads(m, TaskCreate(0, 0, entry, regs), m1) && Leads(m1, Tick(0, 0, below), m2) && Leads(m2, again, m3)
    ensures again.TaskCreate? && again.prio == 0 && Inv(m2, first) && Inv(m3, first) && m2.exited == {}
    ensures m2.k.cur == 1 < |m2.k.tasks| && m2.k.tasks[1].priority == 0
  {
    hide Inv, Boot, CanPush;
    var m := Ownership.BootMachine(mem, first, shell, regs, below);
    Ownership.BootKeepsInv(mem, first, shell, regs, below);
    Ownership.BootRecord(mem, first, shell);
    assert |Range(1, Pages.PAGE_NUM)| == 445 && 4 <= |Range(first + 1, Blocks.KBLK_NUM)|;
    m1 := CreateOnce(m, TaskCreate(0, 0, entry, regs), first);
    CreationTakesHeads(m, TaskCreate(0, 0, entry, regs), m1);
    OtherStep(m, TaskCreate(0, 0, entry, regs), m1, first);
    InvIsShaped(m1, first);
    m2 := SwitchOnce(m1, Tick(0, 0, below), first);
    StepKeepsInv(m1, Tick(0, 0, below), m2, first);
    SwitchTakesNothing(m1, Tick(0, 0, below), m2, first);
    SwitchLeavesRoom(m1, Tick(0, 0, below), m2, first);
    assert m1.k.ready[0] == [1];
    var p := SwitchChooses(m1, Tick(0, 0, below), m2, first);
    again := TaskCreate(0, 0, entry, m2.regs);
    m3 := CreateOnce(m2, again, first);
  }

  /** When it then exits, it is not at the tail: the exit leaves it on its list and gives its page back. */
  lemma ExitFailsFromBoot(mem: Memory, first: nat, shell: Word, regs: Regs, below: Below, entry: Word)
    returns (evs: seq<Event>, m3: Machine, m4: Machine)
    requires first + 5 <= Blocks.KBLK_NUM && CanPush(regs.sp) && !Masked(regs.cpsr)
    ensures Reaches(Ownership.BootMachine(mem, first, shell, regs, below), evs, m3)
    ensures Shaped(m3.k) && CanExit(m3) && Exited(m3, m4) && !Inv(m4, first)
    ensures m3.k.cur < |m3.k.tasks| && m3.k.cur in m4.k.ready[0] && m3.k.cur in m4.exited
    ensures PageOf(m3.k.tasks[m3.k.cur]) in m4.k.free
  {
    hide Inv, Leads, Reaches, CanPush, KernelState.Exit;
    var m := Ownership.BootMachine(mem, first, shell, regs, below);
    var m1, m2, again;
    m1, m2, m3, again := ThreeSteps(mem, first, shell, regs, below, entry);
    evs := [TaskCreate(0, 0, entry, regs), Tick(0, 0, below), again];
    ThreeReach(m, evs, m1, m2, m3);
    m4 := ExitOnce(m2, again, m3, first);
    ExitAfterOwnCreation(m2, again, m3, m4, first);
    ExitExactlyAtTail(m3, m4, first);
  }

  lemma ThreeReach(m: Machine, evs: seq<Event>, m1: Machine, m2: Machine, m3: Machine)
    requires |evs| == 3 && Leads(m, evs[0], m1) && Leads(m1, evs[1], m2) && Leads(m2, evs[2], m3)
    ensures Reaches(m, evs, m3)
  {
    hide Leads;
    assert Front(evs) == evs[..2] && Front(evs[..2]) == evs[..1] && Front(evs[..1]) == [];
    assert Reaches(m, [], m);
    assert Reaches(m, evs[..1], m1);
    assert Reaches(m, evs[..2], m2);
  }

  lemma ExitOnce(m2: Machine, again: Event, m3: Machine, first: nat) returns (m4: Machine)
    requires Inv(m2, first) && Inv(m3, first) && Leads(m2, again, m3) && again.TaskCreate? && m2.exited == {}
    requires m2.k.cur == 1 < |m2.k.tasks| && m2.k.tasks[1].priority == 0 == again.prio
    ensures m3.k.cur == 1 < |m3.k.tasks| && m3.k.tasks[1] == m2.k.tasks[1]
    ensures Shaped(m3.k) && CanExit(m3) && Exited(m3, m4)
    ensures !IsTail(m3.k.ready[0], 1)
  {
    hide Leads, QueuesOk, StatusOk, PagesOk, ContextsOk;
    InvIsShaped(m3, first);
    OtherStep(m2, again, m3, first);
    CreationTakesHeads(m2, again, m3);
    assert m3.k.tasks[1] == m3.k.tasks[..|m2.k.tasks|][1];
    assert OwnsBlock(m3.k, m3.k.tasks[1]);
    m4 := m3.(k := KernelState.Exit(m3.k), exited := m3.exited + {1});
  }
}
